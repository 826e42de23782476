/**
 Finite dependency graphs, shared by the pipeline orchestrator and the task graph.
 A graph maps each node to the list of nodes it depends on; a list may repeat an entry
 and may name nodes the graph does not hold.
 */
module DependencyGraph {
  import opened Sequences

  type Graph = map<string, seq<string>>

  function DepsOf(g: Graph, n: string): seq<string> {
    if n in g then g[n] else []
  }

  predicate Edge(g: Graph, n: string, d: string) {
    d in DepsOf(g, n)
  }

  /** Every node of a walk depends on the next one. */
  ghost predicate IsWalk(g: Graph, w: seq<string>) {
    forall i, j :: 0 <= i < j < |w| && j == i + 1 ==> Edge(g, w[i], w[j])
  }

  ghost predicate Joins(g: Graph, w: seq<string>, a: string, b: string) {
    |w| >= 2 && IsWalk(g, w) && w[0] == a && w[|w| - 1] == b
  }

  /** a depends on b, through one edge or more. */
  ghost predicate DependsOn(g: Graph, a: string, b: string) {
    exists w :: Joins(g, w, a, b)
  }

  ghost predicate Acyclic(g: Graph) {
    forall n :: !DependsOn(g, n, n)
  }

  /** No dependency names a node outside the graph. */
  ghost predicate Closed(g: Graph) {
    forall n, d :: Edge(g, n, d) ==> d in g
  }

  // ---------------------------------------------------------------- walks

  lemma EdgeDepends(g: Graph, a: string, b: string)
    requires Edge(g, a, b)
    ensures DependsOn(g, a, b)
  {
    assert Joins(g, [a, b], a, b);
  }

  lemma DependsTransitive(g: Graph, a: string, b: string, c: string)
    requires DependsOn(g, a, b) && DependsOn(g, b, c)
    ensures DependsOn(g, a, c)
  {
    var v :| Joins(g, v, a, b);
    var w :| Joins(g, w, b, c);
    var u := v + w[1..];
    forall i, j | 0 <= i < j < |u| && j == i + 1
      ensures Edge(g, u[i], u[j])
    {
      if j >= |v| {
        assert u[j] == w[j - |v| + 1] && u[i] == w[i - |v| + 1];
      }
    }
    assert Joins(g, u, a, c);
  }

  // ---------------------------------------------------------------- cycles and orders

  /** `order` lists every node that has dependencies, after all of them. */
  ghost predicate IsTopological(g: Graph, order: seq<string>) {
    forall n, d :: Edge(g, n, d) ==> Precedes(order, d, n)
  }

  ghost predicate Precedes(order: seq<string>, a: string, b: string) {
    && a in order
    && b in order
    && forall i, j :: 0 <= i < |order| && 0 <= j < |order| && order[i] == a && order[j] == b ==> i < j
  }

  /** Every node of the order comes after all its dependencies. */
  ghost predicate OrdersItsOwn(g: Graph, order: seq<string>) {
    forall n, d :: n in order && Edge(g, n, d) ==> Precedes(order, d, n)
  }

  lemma {:induction false} PrecedesAlongWalk(g: Graph, order: seq<string>, w: seq<string>)
    requires OrdersItsOwn(g, order)
    requires |w| >= 2 && IsWalk(g, w) && w[0] in order
    ensures Precedes(order, w[|w| - 1], w[0])
    decreases |w|
  {
    assert Edge(g, w[0], w[1]);
    if |w| > 2 {
      var t := w[1..];
      assert t[|t| - 1] == w[|w| - 1];
      PrecedesAlongWalk(g, order, t);
      PrecedesTransitive(order, w[|w| - 1], w[1], w[0]);
    }
  }

  lemma PrecedesTransitive(order: seq<string>, a: string, b: string, c: string)
    requires Precedes(order, a, b) && Precedes(order, b, c)
    ensures Precedes(order, a, c)
  {
    var k :| 0 <= k < |order| && order[k] == b;
  }

  lemma TopologicalIsAcyclic(g: Graph, order: seq<string>)
    requires IsTopological(g, order)
    ensures Acyclic(g)
  {
    forall n ensures !DependsOn(g, n, n) {
      if DependsOn(g, n, n) {
        var w :| Joins(g, w, n, n);
        assert Edge(g, w[0], w[1]);
        PrecedesAlongWalk(g, order, w);
      }
    }
  }

  ghost predicate HasDepIn(g: Graph, n: string, s: set<string>) {
    exists d :: d in s && Edge(g, n, d)
  }

  /** A nonempty set in which every node depends on a member of the set holds a cycle. */
  lemma StuckSetHasCycle(g: Graph, stuck: set<string>) returns (n: string)
    requires stuck != {}
    requires forall n {:trigger HasDepIn(g, n, stuck)} :: n in stuck ==> HasDepIn(g, n, stuck)
    ensures n in stuck && DependsOn(g, n, n)
  {
    n :| n in stuck;
    n := ExtendStuckWalk(g, stuck, [n]);
  }

  /** Neither the node nor anything it depends on lies outside the graph or on a cycle. */
  ghost predicate Orderable(g: Graph, n: string) {
    n in g && !DependsOn(g, n, n) && forall d :: DependsOn(g, n, d) ==> d in g && !DependsOn(g, d, d)
  }

  /** The nodes of an order that puts each after its dependencies are orderable. */
  lemma OrderedIsOrderable(g: Graph, order: seq<string>, n: string)
    requires OrdersItsOwn(g, order) && n in order && forall x :: x in order ==> x in g
    ensures Orderable(g, n)
  {
    forall a, d | a in order && DependsOn(g, a, d) ensures Precedes(order, d, a) && a != d {
      var w :| Joins(g, w, a, d);
      PrecedesAlongWalk(g, order, w);
    }
  }

  /** A node that is not done, when each such node has a dependency that is not done, is not orderable. */
  lemma StuckIsNotOrderable(g: Graph, done: set<string>, n: string)
    requires n !in done
    requires forall x :: x in g && x !in done ==> exists d :: Edge(g, x, d) && d !in done
    ensures !Orderable(g, n)
  {
    if Orderable(g, n) {
      var stuck := set x | x in g && x !in done && (x == n || DependsOn(g, n, x));
      forall x | x in stuck ensures HasDepIn(g, x, stuck) {
        var d :| Edge(g, x, d) && d !in done;
        EdgeDepends(g, x, d);
        if x != n {
          DependsTransitive(g, n, x, d);
        }
        assert d in stuck;
      }
      assert n in stuck;
      var d := StuckSetHasCycle(g, stuck);
    }
  }

  lemma {:induction false} ExtendStuckWalk(g: Graph, stuck: set<string>, w: seq<string>) returns (c: string)
    requires forall n {:trigger HasDepIn(g, n, stuck)} :: n in stuck ==> HasDepIn(g, n, stuck)
    requires w != [] && Distinct(w) && IsWalk(g, w) && forall n :: n in w ==> n in stuck
    ensures c in stuck && DependsOn(g, c, c)
    decreases |stuck| - |w|
  {
    DistinctFits(w, stuck);
    var last := w[|w| - 1];
    assert last in w && HasDepIn(g, last, stuck);
    var d :| d in stuck && Edge(g, last, d);
    var u := w + [d];
    WalkExtends(g, w, d);
    if d in w {
      var k :| 0 <= k < |w| && w[k] == d;
      WalkFrom(g, u, k);
      c := d;
    } else {
      DistinctFits(u, stuck);
      c := ExtendStuckWalk(g, stuck, u);
    }
  }

  lemma WalkExtends(g: Graph, w: seq<string>, d: string)
    requires w != [] && IsWalk(g, w) && Edge(g, w[|w| - 1], d)
    ensures IsWalk(g, w + [d])
  {
  }

  lemma WalkFrom(g: Graph, w: seq<string>, k: nat)
    requires k < |w| - 1 && IsWalk(g, w)
    ensures Joins(g, w[k..], w[k], w[|w| - 1])
  {
  }

  // ---------------------------------------------------------------- dependents

  /** The nodes that depend, directly or not, on n. */
  ghost function Dependents(g: Graph, n: string): set<string> {
    set v | v in g && DependsOn(g, v, n)
  }

  lemma {:induction false} ClosedSetHoldsDependents(g: Graph, n: string, s: set<string>, w: seq<string>)
    requires forall v :: v in g && Edge(g, v, n) ==> v in s
    requires forall u, v :: u in s && v in g && Edge(g, v, u) ==> v in s
    requires |w| >= 2 && IsWalk(g, w) && w[|w| - 1] == n
    ensures w[0] in s
    decreases |w|
  {
    assert Edge(g, w[0], w[1]);
    if |w| > 2 {
      ClosedSetHoldsDependents(g, n, s, w[1..]);
    }
  }

  /** In an acyclic graph whatever a node depends on has strictly more dependents than the node. */
  lemma DependencyHasMoreDependents(g: Graph, n: string, d: string)
    requires Acyclic(g) && DependsOn(g, n, d)
    ensures Dependents(g, n) < Dependents(g, d)
    ensures |Dependents(g, n)| < |Dependents(g, d)|
  {
    forall v | v in Dependents(g, n) ensures v in Dependents(g, d) {
      DependsTransitive(g, v, n, d);
    }
    var w :| Joins(g, w, n, d);
    assert Edge(g, w[0], w[1]);
    assert n in Dependents(g, d) && n !in Dependents(g, n);
    ProperSubsetIsSmaller(Dependents(g, n), Dependents(g, d));
  }
}
