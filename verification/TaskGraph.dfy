/**
 The mutable task graph itself (app/task_dag.py, class TaskGraph): each method is proved
 against the functions of TaskDag and TaskPriority.
 */
module TaskGraphObject {
  import opened Options
  import opened Sequences
  import opened DependencyGraph
  import opened TaskDag
  import opened TaskPriority

  class TaskGraph {
    var nodes: Nodes
    var order: seq<string>   // the insertion order of the node dictionary

    ghost predicate Valid()
      reads this
    {
      WellKeyed(nodes, order)
    }

    constructor ()
      ensures Valid() && nodes == map[] && order == []
    {
      nodes, order := map[], [];
    }

    method RecomputeStatuses()
      requires Valid()
      modifies this`nodes
      ensures Valid() && nodes == Recomputed(old(nodes))
    {
      ghost var was := nodes;
      PassesStart(was, order);
      for k := 0 to |order|
        invariant nodes == FirstUpTo(was, order[..k])
      {
        FirstStep(was, order, k);
        var id := order[k];
        nodes := nodes[id := FirstPass(nodes, nodes[id])];
      }
      for k := 0 to |order|
        invariant nodes == SecondUpTo(was, order[..k])
      {
        SecondStep(was, order, k);
        var id := order[k];
        nodes := nodes[id := SecondPass(nodes, nodes[id])];
      }
    }

    method AddNode(id: string, title: string, deps: seq<string>, priority: int, now: int)
      requires Valid()
      modifies this
      ensures Valid() && nodes == Apply(old(nodes), Add(id, title, deps, priority, now))
      ensures order == if id in old(nodes) then old(order) else old(order) + [id]
    {
      if id !in nodes {
        order := order + [id];
      }
      nodes := nodes[id := NewNode(id, title, deps, priority, now)];
      RecomputeStatuses();
    }

    method CompleteNode(id: string) returns (ok: bool)
      requires Valid()
      modifies this`nodes
      ensures Valid() && ok == Accepted(old(nodes), Complete(id))
      ensures nodes == Apply(old(nodes), Complete(id))
    {
      if id !in nodes {
        return false;
      }
      if exists d :: d in nodes[id].dependsOn && d in nodes && !IsDone(nodes[d].status) {
        return false;
      }
      nodes := nodes[id := nodes[id].(status := Completed)];
      RecomputeStatuses();
      return true;
    }

    method StartNode(id: string) returns (ok: bool)
      requires Valid()
      modifies this`nodes
      ensures Valid() && ok == Accepted(old(nodes), Start(id))
      ensures nodes == Apply(old(nodes), Start(id))
    {
      if id !in nodes || !Startable(nodes[id].status) {
        return false;
      }
      nodes := nodes[id := nodes[id].(status := Active, attempts := nodes[id].attempts + 1)];
      return true;
    }

    method FailNode(id: string, retryable: bool) returns (ok: bool)
      requires Valid()
      modifies this`nodes
      ensures Valid() && ok == Accepted(old(nodes), Fail(id, retryable))
      ensures nodes == Apply(old(nodes), Fail(id, retryable))
    {
      if id !in nodes {
        return false;
      }
      nodes := nodes[id := nodes[id].(status := if retryable then Retryable else Failed)];
      RecomputeStatuses();
      return true;
    }

    method SkipNode(id: string) returns (ok: bool)
      requires Valid()
      modifies this`nodes
      ensures Valid() && ok == Accepted(old(nodes), Skip(id))
      ensures nodes == Apply(old(nodes), Skip(id))
    {
      if id !in nodes {
        return false;
      }
      nodes := nodes[id := nodes[id].(status := Skipped)];
      RecomputeStatuses();
      return true;
    }

    method UpdateDependsOn(id: string, deps: seq<string>) returns (ok: bool)
      requires Valid()
      modifies this`nodes
      ensures Valid() && ok == Accepted(old(nodes), Rewire(id, deps))
      ensures nodes == Apply(old(nodes), Rewire(id, deps))
    {
      if id !in nodes {
        return false;
      }
      nodes := nodes[id := nodes[id].(dependsOn := Without(deps, id))];
      return true;
    }

    /** The depth-first search behind the unlock value; `seen` is the shared set of dependents. */
    method Visit(id: string, seen: set<string>) returns (after: set<string>)
      requires Valid() && seen <= nodes.Keys
      ensures Searched(GraphOf(nodes), id, seen, after, order)
      decreases |nodes.Keys - seen|
    {
      after := seen;
      for k := 0 to |order|
        invariant Searched(GraphOf(nodes), id, seen, after, order[..k])
      {
        var other := order[k];
        assert order[..k + 1] == order[..k] + [other];
        if id in nodes[other].dependsOn && other !in after {
          SmallerRest(nodes.Keys, seen, after, other);
          ghost var before := after;
          after := Visit(other, after + {other});
          SearchGrows(GraphOf(nodes), id, seen, before, other, after, order[..k]);
        }
      }
      assert order[..|order|] == order;
    }

    method UnlockValue(id: string) returns (value: nat)
      requires Valid()
      ensures value == Unlock(nodes, id)
    {
      var seen := Visit(id, {});
      assert forall v :: v in GraphOf(nodes) ==> v in order;
      SearchFindsDependents(GraphOf(nodes), id, seen);
      value := |seen|;
    }

    /** The sort input: one entry for each candidate. */
    method Keyed() returns (entries: seq<Entry>)
      requires Valid()
      ensures entries == Entries(nodes, order, |order|)
    {
      entries := [];
      for k := 0 to |order|
        invariant entries == Entries(nodes, order, k)
      {
        var n := nodes[order[k]];
        if IsCandidate(n.status) {
          var unlock := UnlockValue(n.id);
          entries := entries + [Entry(KeyOf(n, unlock), k, n.id)];
        }
      }
    }

    method PrioritizedOrder() returns (ids: seq<string>)
      requires Valid()
      modifies this`nodes
      ensures Valid() && nodes == Recomputed(old(nodes))
      ensures ids == Ids(Sort(Entries(nodes, order, |order|)))
      ensures ids == [] <==> NoCandidate(nodes)
      ensures ids != [] ==> IsNext(nodes, order, ids[0])
      ensures Distinct(ids) && forall id :: id in ids <==>
        id in nodes && nodes[id].status in {Ready, Retryable, Active, Pending}
    {
      RecomputeStatuses();
      var entries := Keyed();
      ids := Ids(Sort(entries));
      OfferedAre(nodes, order);
      if NoCandidate(nodes) {
        EntriesMembers(nodes, order, |order|);
      } else {
        NextExists(nodes, order);
      }
    }

    method NextNode() returns (next: Option<string>)
      requires Valid()
      modifies this`nodes
      ensures Valid() && nodes == Recomputed(old(nodes))
      ensures next.None? <==> NoCandidate(nodes)
      ensures next.None? <==> forall id :: id in nodes ==> nodes[id].status !in {Ready, Retryable, Active, Pending}
      ensures next.Some? ==> IsNext(nodes, order, next.value)
    {
      var ids := PrioritizedOrder();
      next := if ids != [] then Some(ids[0]) else None;
      assert ids != [] ==> ids[0] in ids;
    }
  }

  /**
   The search from id, begun with `seen`, has come to `after` once it has looked at the nodes of
   `done`: it found only dependents, and with each new one all that depends directly on it.
   */
  ghost predicate Searched(g: Graph, id: string, seen: set<string>, after: set<string>, done: seq<string>) {
    && seen <= after <= g.Keys
    && (forall v :: v in after - seen ==> DependsOn(g, v, id))
    && (forall v :: v in done && Edge(g, v, id) ==> v in after)
    && (forall u, v :: u in after - seen && v in g && Edge(g, v, u) ==> v in after)
  }

  lemma SearchGrows(g: Graph, id: string, seen: set<string>, before: set<string>, other: string,
                    after: set<string>, done: seq<string>)
    requires Searched(g, id, seen, before, done) && Edge(g, other, id) && other in g
    requires before + {other} <= after <= g.Keys
    requires forall v :: v in after - (before + {other}) ==> DependsOn(g, v, other)
    requires forall v :: v in g && Edge(g, v, other) ==> v in after
    requires forall u, v :: u in after - (before + {other}) && v in g && Edge(g, v, u) ==> v in after
    ensures Searched(g, id, seen, after, done + [other])
  {
    EdgeDepends(g, other, id);
    forall v | v in after - seen ensures DependsOn(g, v, id) {
      if v !in before && v != other {
        DependsTransitive(g, v, other, id);
      }
    }
  }

  function Ids(s: seq<Entry>): seq<string> {
    if s == [] then [] else [s[0].id] + Ids(s[1..])
  }

  lemma {:induction false} IdsAt(s: seq<Entry>)
    ensures |Ids(s)| == |s| && forall i :: 0 <= i < |s| ==> Ids(s)[i] == s[i].id
  {
    if s != [] {
      IdsAt(s[1..]);
    }
  }

  lemma DistinctIds(s: seq<Entry>, nodes: Nodes, order: seq<string>)
    requires InOrder(s) && WellKeyed(nodes, order)
    requires forall e :: e in s ==> e.position < |order| && e == EntryOf(nodes, order, e.position)
    ensures Distinct(Ids(s))
  {
    IdsAt(s);
    forall i, j | 0 <= i < j < |s| ensures s[i].id != s[j].id {
      assert s[i] in s && s[j] in s && Before(s[i], s[j]);
      assert order[s[i].position] == s[i].id && order[s[j].position] == s[j].id;
      BeforeIsStrict(s[i], s[j]);
    }
  }

  lemma SortedMembers(nodes: Nodes, order: seq<string>)
    requires WellKeyed(nodes, order)
    ensures var all := Entries(nodes, order, |order|);
      InOrder(Sort(all)) && forall e :: e in Sort(all) <==> e in all
  {
    var all := Entries(nodes, order, |order|);
    EntriesMembers(nodes, order, |order|);
    SortProperties(all);
    SameBagSameMembers(Sort(all), all);
  }

  lemma OfferedIff(nodes: Nodes, order: seq<string>, id: string)
    requires WellKeyed(nodes, order)
    ensures id in Ids(Sort(Entries(nodes, order, |order|))) <==>
      id in nodes && nodes[id].status in {Ready, Retryable, Active, Pending}
  {
    var s := Sort(Entries(nodes, order, |order|));
    EntriesMembers(nodes, order, |order|);
    SortedMembers(nodes, order);
    IdsAt(s);
    if id in nodes && IsCandidate(nodes[id].status) {
      var k :| 0 <= k < |order| && order[k] == id;
      var e := EntryOf(nodes, order, k);
      assert e in s;
      var m :| 0 <= m < |s| && s[m] == e;
      assert Ids(s)[m] == id;
    }
    if id in Ids(s) {
      var m :| 0 <= m < |Ids(s)| && Ids(s)[m] == id;
      assert s[m] in s;
    }
  }

  /** What is offered: each ready, retryable, active or pending node once. */
  lemma OfferedAre(nodes: Nodes, order: seq<string>)
    requires WellKeyed(nodes, order)
    ensures var ids := Ids(Sort(Entries(nodes, order, |order|)));
      Distinct(ids) && forall id :: id in ids <==>
        id in nodes && nodes[id].status in {Ready, Retryable, Active, Pending}
  {
    var all := Entries(nodes, order, |order|);
    EntriesMembers(nodes, order, |order|);
    SortedMembers(nodes, order);
    DistinctIds(Sort(all), nodes, order);
    forall id ensures id in Ids(Sort(all)) <==>
      id in nodes && nodes[id].status in {Ready, Retryable, Active, Pending}
    {
      OfferedIff(nodes, order, id);
    }
  }

  lemma SmallerRest(all: set<string>, seen: set<string>, after: set<string>, other: string)
    requires seen <= after && other in all && other !in after
    ensures |all - (after + {other})| < |all - seen|
  {
    assert other in all - seen;
    ProperSubsetIsSmaller(all - (after + {other}), all - seen);
  }

  lemma SearchFindsDependents(g: Graph, id: string, found: set<string>)
    requires found <= g.Keys
    requires forall v :: v in found ==> DependsOn(g, v, id)
    requires forall v :: v in g && Edge(g, v, id) ==> v in found
    requires forall u, v :: u in found && v in g && Edge(g, v, u) ==> v in found
    ensures found == Dependents(g, id)
  {
    forall v | v in Dependents(g, id) ensures v in found {
      var w :| Joins(g, w, v, id);
      ClosedSetHoldsDependents(g, id, found, w);
    }
  }

  // ---------------------------------------------------------------- the two passes, half way

  ghost function FirstUpTo(was: Nodes, done: seq<string>): Nodes {
    map id | id in was :: if id in done then FirstPass(was, was[id]) else was[id]
  }

  ghost function SecondUpTo(was: Nodes, done: seq<string>): Nodes {
    map id | id in was ::
      var n := FirstPass(was, was[id]); if id in done then SecondPass(was, n) else n
  }

  lemma FirstStep(was: Nodes, order: seq<string>, k: nat)
    requires WellKeyed(was, order) && k < |order|
    ensures order[k] in FirstUpTo(was, order[..k])
    ensures var n := FirstUpTo(was, order[..k]);
            n[order[k] := FirstPass(n, n[order[k]])] == FirstUpTo(was, order[..k + 1])
  {
    var n := FirstUpTo(was, order[..k]);
    assert order[..k + 1] == order[..k] + [order[k]] && order[k] !in order[..k];
    SameDecidedSameTests(was, n, was[order[k]].dependsOn);
  }

  lemma SecondStep(was: Nodes, order: seq<string>, k: nat)
    requires WellKeyed(was, order) && k < |order|
    ensures order[k] in SecondUpTo(was, order[..k])
    ensures var n := SecondUpTo(was, order[..k]);
            n[order[k] := SecondPass(n, n[order[k]])] == SecondUpTo(was, order[..k + 1])
  {
    var n := SecondUpTo(was, order[..k]);
    assert order[..k + 1] == order[..k] + [order[k]] && order[k] !in order[..k];
    SameDecidedSameTests(was, n, was[order[k]].dependsOn);
  }

  lemma PassesStart(was: Nodes, order: seq<string>)
    requires WellKeyed(was, order)
    ensures FirstUpTo(was, order[..0]) == was
    ensures FirstUpTo(was, order[..|order|]) == SecondUpTo(was, order[..0])
    ensures SecondUpTo(was, order[..|order|]) == Recomputed(was) && WellKeyed(Recomputed(was), order)
  {
    assert order[..|order|] == order;
  }
}
