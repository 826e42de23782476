/**
 The order in which prioritized_order (app/task_dag.py) offers the nodes: a stable sort by
 a tuple of six numbers.
 */
module TaskPriority {
  import opened Sequences
  import opened DependencyGraph
  import opened TaskDag

  /** Lexicographic comparison of tuples, as Python compares them. */
  predicate Less(a: seq<int>, b: seq<int>) {
    if a == [] then b != []
    else b != [] && (a[0] < b[0] || (a[0] == b[0] && Less(a[1..], b[1..])))
  }

  lemma {:induction false} LessIsStrict(a: seq<int>, b: seq<int>)
    ensures !(Less(a, b) && Less(b, a))
    ensures Less(a, b) || Less(b, a) || a == b
    ensures a == b ==> !Less(a, b)
    decreases |a|
  {
    if a != [] && b != [] {
      LessIsStrict(a[1..], b[1..]);
      assert a == [a[0]] + a[1..] && b == [b[0]] + b[1..];
    }
  }

  lemma {:induction false} LessTransitive(a: seq<int>, b: seq<int>, c: seq<int>)
    requires Less(a, b) && Less(b, c)
    ensures Less(a, c)
    decreases |a|
  {
    if a != [] && a[0] == b[0] == c[0] {
      LessTransitive(a[1..], b[1..], c[1..]);
    }
  }

  predicate IsCandidate(s: Status) {
    s.Ready? || s.Retryable? || s.Active? || s.Pending?
  }

  /** The sort key of a node that unlocks `unlock` others. */
  function KeyOf(n: TaskNode, unlock: nat): seq<int> {
    var value: int := unlock;
    [if n.status.Active? then 0 else 1, -value, n.priority, n.attempts, n.createdAt,
     if n.status.Pending? then 1 else 0]
  }

  /** How many nodes depend, directly or not, on this one, whatever their status. */
  ghost function Unlock(nodes: Nodes, id: string): nat {
    |Dependents(GraphOf(nodes), id)|
  }

  /** The tie-breaks of the offered order, most important first. */
  lemma KeyOrder(a: TaskNode, ua: nat, b: TaskNode, ub: nat)
    ensures Less(KeyOf(a, ua), KeyOf(b, ub)) <==>
      if a.status.Active? != b.status.Active? then a.status.Active?
      else if ua != ub then ua > ub
      else if a.priority != b.priority then a.priority < b.priority
      else if a.attempts != b.attempts then a.attempts < b.attempts
      else if a.createdAt != b.createdAt then a.createdAt < b.createdAt
      else !a.status.Pending? && b.status.Pending?
  {
    var x, y := KeyOf(a, ua), KeyOf(b, ub);
    assert x[0..] == x && y[0..] == y;
    LessFrom(x, y, 0);
    LessFrom(x, y, 1);
    LessFrom(x, y, 2);
    LessFrom(x, y, 3);
    LessFrom(x, y, 4);
    LessFrom(x, y, 5);
    LessFrom(x, y, 6);
  }

  /** Comparison from position i on, for keys of equal length. */
  lemma LessFrom(x: seq<int>, y: seq<int>, i: nat)
    requires |x| == |y| && i <= |x|
    ensures Less(x[i..], y[i..]) <==>
      i < |x| && (x[i] < y[i] || (x[i] == y[i] && Less(x[i + 1..], y[i + 1..])))
  {
    if i < |x| {
      assert x[i..][1..] == x[i + 1..] && y[i..][1..] == y[i + 1..];
    }
  }

  // ---------------------------------------------------------------- a stable sort

  datatype Entry = Entry(key: seq<int>, position: nat, id: string)

  predicate Before(a: Entry, b: Entry) {
    Less(a.key, b.key) || (a.key == b.key && a.position < b.position)
  }

  lemma BeforeIsStrict(a: Entry, b: Entry)
    ensures !(Before(a, b) && Before(b, a))
    ensures a.position != b.position ==> Before(a, b) || Before(b, a)
  {
    LessIsStrict(a.key, b.key);
  }

  lemma BeforeTransitive(a: Entry, b: Entry, c: Entry)
    requires Before(a, b) && Before(b, c)
    ensures Before(a, c)
  {
    if Less(a.key, b.key) && Less(b.key, c.key) {
      LessTransitive(a.key, b.key, c.key);
    }
  }

  ghost predicate InOrder(s: seq<Entry>) {
    forall i, j :: 0 <= i < j < |s| ==> Before(s[i], s[j])
  }

  ghost predicate DistinctPositions(s: seq<Entry>) {
    forall i, j :: 0 <= i < j < |s| ==> s[i].position != s[j].position
  }

  function Insert(e: Entry, s: seq<Entry>): seq<Entry> {
    if s == [] then [e]
    else if Before(e, s[0]) then [e] + s
    else [s[0]] + Insert(e, s[1..])
  }

  /** The built-in `sorted`: by key, entries of equal key in their original order. */
  function Sort(s: seq<Entry>): seq<Entry> {
    if s == [] then [] else Insert(s[0], Sort(s[1..]))
  }

  lemma {:induction false} InsertKeepsBag(e: Entry, s: seq<Entry>)
    ensures multiset(Insert(e, s)) == multiset(s) + multiset{e}
  {
    if s != [] {
      assert s == [s[0]] + s[1..];
      InsertKeepsBag(e, s[1..]);
    }
  }

  lemma {:induction false} InsertProperties(e: Entry, s: seq<Entry>)
    requires InOrder(s) && forall x :: x in s ==> x.position != e.position
    ensures multiset(Insert(e, s)) == multiset(s) + multiset{e}
    ensures InOrder(Insert(e, s))
  {
    InsertKeepsBag(e, s);
    if s != [] {
      if Before(e, s[0]) {
        forall j | 0 <= j < |s| ensures Before(e, s[j]) {
          if j > 0 {
            BeforeTransitive(e, s[0], s[j]);
          }
        }
      } else {
        InsertProperties(e, s[1..]);
        BeforeIsStrict(e, s[0]);
        InsertedBehind(e, s);
      }
    }
  }

  lemma InsertedBehind(e: Entry, s: seq<Entry>)
    requires s != [] && InOrder(s) && Before(s[0], e)
    ensures forall x :: x in Insert(e, s[1..]) ==> Before(s[0], x)
  {
    InsertKeepsBag(e, s[1..]);
    forall x | x in Insert(e, s[1..]) ensures Before(s[0], x) {
      assert x in multiset(Insert(e, s[1..]));
      assert x == e || x in s[1..];
    }
  }

  lemma {:induction false} SortProperties(s: seq<Entry>)
    requires DistinctPositions(s)
    ensures multiset(Sort(s)) == multiset(s)
    ensures InOrder(Sort(s))
  {
    if s != [] {
      SortProperties(s[1..]);
      assert s == [s[0]] + s[1..];
      SameBagSameMembers(Sort(s[1..]), s[1..]);
      InsertProperties(s[0], Sort(s[1..]));
    }
  }

  // ---------------------------------------------------------------- the offered order

  ghost function EntryOf(nodes: Nodes, order: seq<string>, i: nat): Entry
    requires i < |order| && order[i] in nodes
  {
    Entry(KeyOf(nodes[order[i]], Unlock(nodes, order[i])), i, order[i])
  }

  /** The candidates with their keys, in the order the dictionary holds them. */
  ghost function Entries(nodes: Nodes, order: seq<string>, k: nat): seq<Entry>
    requires k <= |order| && forall id :: id in order ==> id in nodes
  {
    if k == 0 then []
    else
      var here := if IsCandidate(nodes[order[k - 1]].status) then [EntryOf(nodes, order, k - 1)] else [];
      Entries(nodes, order, k - 1) + here
  }

  lemma {:induction false} EntriesMembers(nodes: Nodes, order: seq<string>, k: nat)
    requires k <= |order| && forall id :: id in order ==> id in nodes
    ensures forall e :: e in Entries(nodes, order, k) ==>
      e.position < k && e == EntryOf(nodes, order, e.position) && IsCandidate(nodes[e.id].status)
    ensures forall i :: 0 <= i < k && IsCandidate(nodes[order[i]].status) ==>
      EntryOf(nodes, order, i) in Entries(nodes, order, k)
    ensures DistinctPositions(Entries(nodes, order, k))
  {
    if k > 0 {
      EntriesMembers(nodes, order, k - 1);
    }
  }

  ghost predicate WellKeyed(nodes: Nodes, order: seq<string>) {
    && Distinct(order)
    && (forall id :: id in order <==> id in nodes)
    && (forall id :: id in nodes ==> nodes[id].id == id)
  }

  /** The node the graph offers first: a candidate that comes before every other one. */
  ghost predicate IsNext(nodes: Nodes, order: seq<string>, id: string)
    requires WellKeyed(nodes, order)
  {
    exists i :: 0 <= i < |order| && order[i] == id && IsCandidate(nodes[id].status) &&
      forall j :: 0 <= j < |order| && j != i && IsCandidate(nodes[order[j]].status) ==>
        Before(EntryOf(nodes, order, i), EntryOf(nodes, order, j))
  }

  ghost predicate NoCandidate(nodes: Nodes) {
    forall id :: id in nodes ==> !IsCandidate(nodes[id].status)
  }

  /** Whenever a candidate is left, one of them is next. */
  lemma NextExists(nodes: Nodes, order: seq<string>)
    requires WellKeyed(nodes, order) && !NoCandidate(nodes)
    ensures var s := Sort(Entries(nodes, order, |order|)); s != [] && IsNext(nodes, order, s[0].id)
  {
    var all := Entries(nodes, order, |order|);
    EntriesMembers(nodes, order, |order|);
    SortProperties(all);
    var s := Sort(all);
    var id :| id in nodes && IsCandidate(nodes[id].status);
    var k :| 0 <= k < |order| && order[k] == id;
    assert EntryOf(nodes, order, k) in multiset(all);
    FirstIsNext(nodes, order, s);
  }

  lemma FirstIsNext(nodes: Nodes, order: seq<string>, s: seq<Entry>)
    requires WellKeyed(nodes, order) && s != [] && InOrder(s)
    requires multiset(s) == multiset(Entries(nodes, order, |order|))
    ensures IsNext(nodes, order, s[0].id)
  {
    var all := Entries(nodes, order, |order|);
    EntriesMembers(nodes, order, |order|);
    assert s[0] in multiset(s);
    assert s[0] in all;
    var i := s[0].position;
    forall j | 0 <= j < |order| && j != i && IsCandidate(nodes[order[j]].status)
      ensures Before(EntryOf(nodes, order, i), EntryOf(nodes, order, j))
    {
      var e := EntryOf(nodes, order, j);
      assert e in multiset(all);
      assert e in multiset(s);
      var m :| 0 <= m < |s| && s[m] == e;
    }
  }
}
