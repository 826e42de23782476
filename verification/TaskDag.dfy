/**
 The dependency-aware task graph (app/task_dag.py): node statuses, the guarded mutations,
 and the derived values. The functions on `Nodes` say what each method of TaskGraph does.
 */
module TaskDag {
  import opened Sequences
  import opened DependencyGraph

  datatype Status = Pending | Ready | Active | Completed | Failed | Retryable | Skipped | Blocked

  datatype TaskNode = TaskNode(id: string, title: string, status: Status, priority: int,
                               dependsOn: seq<string>, attempts: int, createdAt: int)

  type Nodes = map<string, TaskNode>

  function GraphOf(nodes: Nodes): Graph {
    map id | id in nodes :: nodes[id].dependsOn
  }

  /** Done for the purpose of a dependency: finished, or explicitly skipped. */
  predicate IsDone(s: Status) {
    s.Completed? || s.Skipped?
  }

  // ---------------------------------------------------------------- status recomputation

  predicate AllCompleted(nodes: Nodes, deps: seq<string>) {
    forall d :: d in deps ==> d in nodes && nodes[d].status.Completed?
  }

  predicate AnyFailed(nodes: Nodes, deps: seq<string>) {
    exists d :: d in deps && d in nodes && (nodes[d].status.Failed? || nodes[d].status.Skipped?)
  }

  function FirstPass(nodes: Nodes, n: TaskNode): TaskNode {
    if !n.status.Pending? then n
    else if AllCompleted(nodes, n.dependsOn) then n.(status := Ready)
    else if AnyFailed(nodes, n.dependsOn) then n.(status := Blocked)
    else n
  }

  function SecondPass(nodes: Nodes, n: TaskNode): TaskNode {
    if n.status.Blocked? && AllCompleted(nodes, n.dependsOn) then n.(status := Ready) else n
  }

  function Recomputed(nodes: Nodes): Nodes {
    map id | id in nodes :: SecondPass(nodes, FirstPass(nodes, nodes[id]))
  }

  /** The two maps agree on everything a recomputation can see of other nodes. */
  ghost predicate SameDecided(a: Nodes, b: Nodes) {
    && a.Keys == b.Keys
    && forall id :: id in a ==>
      && (a[id].status.Completed? <==> b[id].status.Completed?)
      && (a[id].status.Failed? <==> b[id].status.Failed?)
      && (a[id].status.Skipped? <==> b[id].status.Skipped?)
  }

  lemma SameDecidedSameTests(a: Nodes, b: Nodes, deps: seq<string>)
    requires SameDecided(a, b)
    ensures AllCompleted(a, deps) == AllCompleted(b, deps)
    ensures AnyFailed(a, deps) == AnyFailed(b, deps)
  {
    if AnyFailed(a, deps) {
      var d :| d in deps && d in a && (a[d].status.Failed? || a[d].status.Skipped?);
      assert d in b;
    }
    if AnyFailed(b, deps) {
      var d :| d in deps && d in b && (b[d].status.Failed? || b[d].status.Skipped?);
      assert d in a;
    }
  }

  /** One recomputation reaches the fixpoint: doing it again changes nothing. */
  lemma RecomputeOnce(nodes: Nodes)
    ensures SameDecided(nodes, Recomputed(nodes))
    ensures Recomputed(Recomputed(nodes)) == Recomputed(nodes)
  {
    var once := Recomputed(nodes);
    forall id | id in nodes ensures Recomputed(once)[id] == once[id] {
      SameDecidedSameTests(nodes, once, nodes[id].dependsOn);
    }
  }

  /**
   Ready means every dependency is completed, blocked that one failed or was skipped; other
   statuses, and everything but the status, stay.
   */
  lemma RecomputeMeaning(nodes: Nodes, id: string)
    requires id in nodes
    ensures var was, now := nodes[id], Recomputed(nodes)[id];
      && now == was.(status := now.status)
      && (!was.status.Pending? && !was.status.Blocked? ==> now == was)
      && (was.status.Pending? || was.status.Blocked? ==>
           && (now.status.Ready? <==>
                 forall d :: d in was.dependsOn ==> d in nodes && Recomputed(nodes)[d].status.Completed?)
           && (now.status.Blocked? <==>
                 !now.status.Ready? && (was.status.Blocked? ||
                   exists d :: d in was.dependsOn && d in nodes && Recomputed(nodes)[d].status in {Failed, Skipped}))
           && (now.status.Pending? <==> !now.status.Ready? && !now.status.Blocked?))
  {
    RecomputeOnce(nodes);
    SameDecidedSameTests(nodes, Recomputed(nodes), nodes[id].dependsOn);
  }

  // ---------------------------------------------------------------- mutations

  datatype Op =
    | Add(id: string, title: string, deps: seq<string>, priority: int, now: int)
    | Start(id: string)
    | Complete(id: string)
    | Fail(id: string, retryable: bool)
    | Skip(id: string)
    | Rewire(id: string, deps: seq<string>)   // update_node with depends_on

  function Without(deps: seq<string>, id: string): (r: seq<string>)
    ensures forall d :: d in r <==> d in deps && d != id
  {
    if deps == [] then []
    else
      assert deps == [deps[0]] + deps[1..];
      (if deps[0] == id then [] else [deps[0]]) + Without(deps[1..], id)
  }

  function Clamp(p: int): int {
    if p < 1 then 1 else if p > 7 then 7 else p
  }

  /** The dependencies that keep a node from being completed; a missing one does not. */
  predicate DepsDone(nodes: Nodes, deps: seq<string>) {
    forall d :: d in deps && d in nodes ==> IsDone(nodes[d].status)
  }

  predicate Startable(s: Status) {
    s.Pending? || s.Ready? || s.Retryable? || s.Active?
  }

  predicate Accepted(nodes: Nodes, op: Op) {
    match op
    case Add(_, _, _, _, _) => true
    case Start(id) => id in nodes && Startable(nodes[id].status)
    case Complete(id) => id in nodes && DepsDone(nodes, nodes[id].dependsOn)
    case Fail(id, _) => id in nodes
    case Skip(id) => id in nodes
    case Rewire(id, _) => id in nodes
  }

  function WithStatus(nodes: Nodes, id: string, s: Status): Nodes
    requires id in nodes
  {
    nodes[id := nodes[id].(status := s)]
  }

  function NewNode(id: string, title: string, deps: seq<string>, priority: int, now: int): TaskNode {
    TaskNode(id, title, Pending, Clamp(priority), Without(deps, id), 0, now)
  }

  /** The map as an accepted operation writes it. */
  function Written(nodes: Nodes, op: Op): Nodes
    requires Accepted(nodes, op)
  {
    match op
    case Add(id, title, deps, priority, now) => nodes[id := NewNode(id, title, deps, priority, now)]
    case Start(id) => nodes[id := nodes[id].(status := Active, attempts := nodes[id].attempts + 1)]
    case Complete(id) => WithStatus(nodes, id, Completed)
    case Fail(id, retryable) => WithStatus(nodes, id, if retryable then Retryable else Failed)
    case Skip(id) => WithStatus(nodes, id, Skipped)
    case Rewire(id, deps) => nodes[id := nodes[id].(dependsOn := Without(deps, id))]
  }

  /** Starting and rewiring a node do not recompute the statuses. */
  function Apply(nodes: Nodes, op: Op): Nodes {
    if !Accepted(nodes, op) then nodes
    else if op.Start? || op.Rewire? then Written(nodes, op)
    else Recomputed(Written(nodes, op))
  }

  /** When each operation is accepted, status by status. */
  lemma AcceptedIff(nodes: Nodes, op: Op)
    ensures op.Add? ==> Accepted(nodes, op)
    ensures !op.Add? && op.id !in nodes ==> !Accepted(nodes, op)
    ensures (op.Fail? || op.Skip? || op.Rewire?) && op.id in nodes ==> Accepted(nodes, op)
    ensures op.Start? && op.id in nodes ==>
      (Accepted(nodes, op) <==> nodes[op.id].status in {Pending, Ready, Active, Retryable})
    ensures op.Complete? && op.id in nodes ==>
      (Accepted(nodes, op) <==>
        forall d :: d in nodes[op.id].dependsOn && d in nodes ==> nodes[d].status in {Completed, Skipped})
    ensures !Accepted(nodes, op) ==> Apply(nodes, op) == nodes
  {
  }

  function OtherThan(id: string): string -> bool {
    d => d != id
  }

  lemma {:induction false} WithoutIs(deps: seq<string>, id: string)
    ensures Without(deps, id) == Filter(deps, OtherThan(id))
    ensures multiset(Without(deps, id)) == multiset(deps)[id := 0]
  {
    if deps != [] {
      WithoutIs(deps[1..], id);
      assert deps == [deps[0]] + deps[1..];
    }
  }

  /** The node an add leaves: as it was described, its dependencies in order but for itself. */
  ghost predicate IsAdded(n: TaskNode, id: string, title: string, deps: seq<string>, priority: int, now: int) {
    && n.id == id && n.title == title && n.attempts == 0 && n.createdAt == now
    && n.priority == (if priority < 1 then 1 else if priority <= 7 then priority else 7)
    && n.dependsOn == Filter(deps, OtherThan(id)) && multiset(n.dependsOn) == multiset(deps)[id := 0]
    && (n.status.Pending? || n.status.Ready? || n.status.Blocked?)
  }

  /**
   An accepted operation gives its node what it names and changes nothing else in it; of the other
   nodes it can only turn pending or blocked ones ready or blocked.
   */
  lemma OperationOutcome(nodes: Nodes, op: Op)
    requires Accepted(nodes, op)
    ensures var t := Apply(nodes, op);
      && t.Keys == nodes.Keys + {op.id}
      && (match op
          case Add(id, title, deps, priority, now) => IsAdded(t[id], id, title, deps, priority, now)
          case Start(id) => t[id] == nodes[id].(status := Active, attempts := nodes[id].attempts + 1)
          case Complete(id) => t[id] == nodes[id].(status := Completed)
          case Fail(id, retryable) => t[id] == nodes[id].(status := if retryable then Retryable else Failed)
          case Skip(id) => t[id] == nodes[id].(status := Skipped)
          case Rewire(id, deps) =>
            && t[id] == nodes[id].(dependsOn := Filter(deps, OtherThan(id)))
            && multiset(t[id].dependsOn) == multiset(deps)[id := 0])
      && forall v :: v in nodes && v != op.id ==> OnlyPromoted(nodes[v], t[v])
  {
    var before := Written(nodes, op);
    assert before.Keys == nodes.Keys + {op.id};
    if op.Add? || op.Rewire? {
      WithoutIs(op.deps, op.id);
    }
    if !(op.Start? || op.Rewire?) {
      forall v | v in before ensures OnlyPromoted(before[v], Recomputed(before)[v]) {
        RecomputedNode(before, v);
      }
    }
  }

  predicate OnlyPromoted(was: TaskNode, now: TaskNode) {
    now == was || ((was.status.Pending? || was.status.Blocked?) && (now.status.Ready? || now.status.Blocked?)
                   && now == was.(status := now.status))
  }

  lemma RecomputedNode(nodes: Nodes, id: string)
    requires id in nodes
    ensures OnlyPromoted(nodes[id], Recomputed(nodes)[id])
  {
  }

  /** The status cannot be promoted any further. */
  ghost predicate Settled(nodes: Nodes, n: TaskNode) {
    && (n.status.Pending? ==> !AllCompleted(nodes, n.dependsOn) && !AnyFailed(nodes, n.dependsOn))
    && (n.status.Blocked? ==> !AllCompleted(nodes, n.dependsOn))
  }

  /** If the node was promoted, the other nodes as they are now say why. */
  ghost predicate Justified(nodes: Nodes, was: TaskNode, now: TaskNode) {
    && OnlyPromoted(was, now)
    && (now != was && now.status.Ready? ==> AllCompleted(nodes, now.dependsOn))
    && (now != was && now.status.Blocked? ==> was.status.Pending? && AnyFailed(nodes, now.dependsOn))
  }

  /**
   After an accepted operation that recomputes the statuses no node of the graph is left pending
   or blocked without need, and every other node that was promoted was promoted for a reason that
   holds in the new graph.
   */
  lemma OperationSettles(nodes: Nodes, op: Op)
    requires Accepted(nodes, op) && !op.Start? && !op.Rewire?
    ensures var t := Apply(nodes, op);
      && (forall v :: v in t ==> Settled(t, t[v]))
      && (forall v :: v in nodes && v != op.id ==> v in t && Justified(t, nodes[v], t[v]))
  {
    var before, t := Written(nodes, op), Apply(nodes, op);
    assert forall v :: v in nodes && v != op.id ==> v in before && before[v] == nodes[v];
    forall v | v in before ensures Settled(t, t[v]) && Justified(t, before[v], t[v]) {
      RecomputedIsSettled(before, v);
    }
  }

  lemma RecomputedIsSettled(nodes: Nodes, id: string)
    requires id in nodes
    ensures var t := Recomputed(nodes); Settled(t, t[id]) && Justified(t, nodes[id], t[id])
  {
    RecomputeOnce(nodes);
    SameDecidedSameTests(nodes, Recomputed(nodes), nodes[id].dependsOn);
  }

  // ---------------------------------------------------------------- no fake completion

  /** Every completed node has each dependency the graph holds completed or skipped. */
  ghost predicate Honest(nodes: Nodes) {
    forall id :: id in nodes && nodes[id].status.Completed? ==> DepsDone(nodes, nodes[id].dependsOn)
  }

  ghost predicate NoCompletedDependent(nodes: Nodes, id: string) {
    forall v :: v in nodes && v != id && nodes[v].status.Completed? ==> id !in nodes[v].dependsOn
  }

  /** What an operation must leave alone; the code does not check it. */
  ghost predicate Guard(nodes: Nodes, op: Op) {
    match op
    case Add(id, _, _, _, _) => NoCompletedDependent(nodes, id)
    case Start(_) => true
    case Complete(_) => true
    case Fail(id, _) => NoCompletedDependent(nodes, id)
    case Skip(_) => true
    case Rewire(id, deps) =>
      id in nodes && nodes[id].status.Completed? ==> DepsDone(nodes, Without(deps, id))
  }

  lemma RecomputeKeepsHonest(nodes: Nodes)
    ensures Honest(Recomputed(nodes)) <==> Honest(nodes)
  {
    RecomputeOnce(nodes);
    var after := Recomputed(nodes);
    forall id | id in nodes ensures after[id].dependsOn == nodes[id].dependsOn {
    }
    forall id | id in nodes
      ensures DepsDone(after, nodes[id].dependsOn) <==> DepsDone(nodes, nodes[id].dependsOn)
    {
    }
  }

  /** A node that stops being done breaks exactly the completed nodes that depend on it. */
  lemma UndoneNode(nodes: Nodes, id: string, n: TaskNode)
    requires Honest(nodes) && !IsDone(n.status)
    ensures Honest(nodes[id := n]) <==> NoCompletedDependent(nodes, id)
  {
    var after := nodes[id := n];
    if !NoCompletedDependent(nodes, id) {
      var v :| v in nodes && v != id && nodes[v].status.Completed? && id in nodes[v].dependsOn;
      assert v in after && !DepsDone(after, after[v].dependsOn);
    }
  }

  lemma DoneNode(nodes: Nodes, id: string, n: TaskNode)
    requires Honest(nodes) && id in nodes && IsDone(n.status)
    requires n.status.Completed? ==> DepsDone(nodes, n.dependsOn)
    ensures Honest(nodes[id := n])
  {
  }

  /** Each operation keeps every completed node honest exactly when its guard holds. */
  lemma StepHonestIff(nodes: Nodes, op: Op)
    requires Honest(nodes) && Accepted(nodes, op)
    ensures Honest(Apply(nodes, op)) <==> Guard(nodes, op)
  {
    match op
    case Add(id, title, deps, priority, now) =>
      var n := NewNode(id, title, deps, priority, now);
      UndoneNode(nodes, id, n);
      RecomputeKeepsHonest(nodes[id := n]);
    case Start(id) =>
    case Complete(id) =>
      DoneNode(nodes, id, nodes[id].(status := Completed));
      RecomputeKeepsHonest(WithStatus(nodes, id, Completed));
    case Fail(id, retryable) =>
      var s := if retryable then Retryable else Failed;
      UndoneNode(nodes, id, nodes[id].(status := s));
      RecomputeKeepsHonest(WithStatus(nodes, id, s));
    case Skip(id) =>
      DoneNode(nodes, id, nodes[id].(status := Skipped));
      RecomputeKeepsHonest(WithStatus(nodes, id, Skipped));
    case Rewire(id, deps) =>
      RewiredNode(nodes, id, Without(deps, id));
  }

  lemma RewiredNode(nodes: Nodes, id: string, deps: seq<string>)
    requires Honest(nodes) && id in nodes
    ensures Honest(nodes[id := nodes[id].(dependsOn := deps)])
        <==> (nodes[id].status.Completed? ==> DepsDone(nodes, deps))
  {
    var after := nodes[id := nodes[id].(dependsOn := deps)];
    forall list ensures DepsDone(after, list) <==> DepsDone(nodes, list) {
    }
    assert after[id].status == nodes[id].status;
  }

  /** Failing a completed node below a completed one is accepted, and leaves a fake completion. */
  lemma FailCanBreakHonesty()
    ensures var nodes := map["a" := TaskNode("a", "", Completed, 5, [], 1, 0),
                             "b" := TaskNode("b", "", Completed, 5, ["a"], 1, 0)];
            Honest(nodes) && Accepted(nodes, Fail("a", true)) && !Honest(Apply(nodes, Fail("a", true)))
  {
    var nodes := map["a" := TaskNode("a", "", Completed, 5, [], 1, 0),
                     "b" := TaskNode("b", "", Completed, 5, ["a"], 1, 0)];
    assert "b" in nodes && "a" in nodes["b"].dependsOn;
    StepHonestIff(nodes, Fail("a", true));
  }

  function RunOps(nodes: Nodes, ops: seq<Op>): Nodes
    decreases |ops|
  {
    if ops == [] then nodes else RunOps(Apply(nodes, ops[0]), ops[1..])
  }

  ghost predicate Guarded(nodes: Nodes, ops: seq<Op>)
    decreases |ops|
  {
    ops == [] || (Guard(nodes, ops[0]) && Guarded(Apply(nodes, ops[0]), ops[1..]))
  }

  /** Over any run of guarded operations, refused ones included, no completion is fake. */
  lemma {:induction false} RunsStayHonest(nodes: Nodes, ops: seq<Op>)
    requires Honest(nodes) && Guarded(nodes, ops)
    ensures Honest(RunOps(nodes, ops))
    decreases |ops|
  {
    if ops != [] {
      if Accepted(nodes, ops[0]) {
        StepHonestIff(nodes, ops[0]);
      }
      RunsStayHonest(Apply(nodes, ops[0]), ops[1..]);
    }
  }
}
