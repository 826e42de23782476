/**
 Working a task graph off greedily: ask for the next node, start it, complete it, repeat.
 Neither start nor the offered order looks at dependencies; only complete does. Whether the
 driver is ever refused rests on the unlock value alone.
 */
module PlanDriver {
  import opened Sequences
  import opened DependencyGraph
  import opened TaskDag
  import opened TaskPriority

  /** What the driver needs of the graph: every dependency present, and no cycle. */
  ghost predicate WellFormed(nodes: Nodes, order: seq<string>) {
    WellKeyed(nodes, order) && Acyclic(GraphOf(nodes)) && Closed(GraphOf(nodes))
  }

  // ---------------------------------------------------------------- one round

  function Started(nodes: Nodes, id: string): Nodes {
    Apply(Recomputed(nodes), Start(id))
  }

  /** next_node recomputes the statuses; then the node is started and completed. */
  function AfterRound(nodes: Nodes, id: string): Nodes {
    Apply(Started(nodes, id), Complete(id))
  }

  predicate RoundAccepted(nodes: Nodes, id: string) {
    Accepted(Recomputed(nodes), Start(id)) && Accepted(Started(nodes, id), Complete(id))
  }

  ghost predicate DriverRun(nodes: Nodes, order: seq<string>, picks: seq<string>)
    decreases |picks|
  {
    picks == []
    || (WellKeyed(Recomputed(nodes), order) && IsNext(Recomputed(nodes), order, picks[0])
        && DriverRun(AfterRound(nodes, picks[0]), order, picks[1..]))
  }

  function AfterRun(nodes: Nodes, picks: seq<string>): Nodes
    decreases |picks|
  {
    if picks == [] then nodes else AfterRun(AfterRound(nodes, picks[0]), picks[1..])
  }

  predicate AllAccepted(nodes: Nodes, picks: seq<string>)
    decreases |picks|
  {
    picks == [] || (RoundAccepted(nodes, picks[0]) && AllAccepted(AfterRound(nodes, picks[0]), picks[1..]))
  }

  // ---------------------------------------------------------------- nodes that never get ready

  predicate IsDead(s: Status) {
    s.Failed? || s.Skipped?
  }

  predicate IsWaiting(s: Status) {
    s.Pending? || s.Blocked?
  }

  predicate IsOpen(s: Status) {
    s.Ready? || s.Retryable? || s.Active?
  }

  /** From waiting node to waiting node the walk leads to one that failed or was skipped. */
  ghost predicate WaitsAlong(nodes: Nodes, w: seq<string>) {
    && w != [] && IsWalk(GraphOf(nodes), w)
    && (forall i :: 0 <= i < |w| - 1 ==> w[i] in nodes && IsWaiting(nodes[w[i]].status))
    && w[|w| - 1] in nodes && IsDead(nodes[w[|w| - 1]].status)
  }

  /** The node failed or was skipped, or waits behind such a node. */
  ghost predicate Stuck(nodes: Nodes, v: string) {
    exists w :: WaitsAlong(nodes, w) && w[0] == v
  }

  lemma StuckIff(nodes: Nodes, v: string)
    ensures Stuck(nodes, v) <==>
      v in nodes && (IsDead(nodes[v].status)
                     || (IsWaiting(nodes[v].status) && exists d :: d in nodes[v].dependsOn && Stuck(nodes, d)))
  {
    if w :| WaitsAlong(nodes, w) && w[0] == v {
      if |w| > 1 {
        assert Edge(GraphOf(nodes), w[0], w[1]);
        assert WaitsAlong(nodes, w[1..]);
        assert Stuck(nodes, w[1]);
      }
    }
    if v in nodes && IsDead(nodes[v].status) {
      assert WaitsAlong(nodes, [v]);
    }
    if v in nodes && IsWaiting(nodes[v].status) {
      if d :| d in nodes[v].dependsOn && Stuck(nodes, d) {
        var w :| WaitsAlong(nodes, w) && w[0] == d;
        WalkGrows(nodes, v, w);
      }
    }
  }

  lemma WalkGrows(nodes: Nodes, v: string, w: seq<string>)
    requires v in nodes && IsWaiting(nodes[v].status) && WaitsAlong(nodes, w) && w[0] in nodes[v].dependsOn
    ensures Stuck(nodes, v)
  {
    var u := [v] + w;
    forall i, j | 0 <= i < j < |u| && j == i + 1 ensures Edge(GraphOf(nodes), u[i], u[j]) {
      if i > 0 {
        assert Edge(GraphOf(nodes), w[i - 1], w[j - 1]);
      }
    }
    assert WaitsAlong(nodes, u);
  }

  /** Only waiting nodes with every dependency completed have stopped waiting; no node has died or come back. */
  ghost predicate AlikeStuck(a: Nodes, b: Nodes) {
    && a.Keys == b.Keys && GraphOf(a) == GraphOf(b)
    && forall v :: v in a ==>
      && (IsDead(a[v].status) <==> IsDead(b[v].status))
      && (IsWaiting(a[v].status) && !IsWaiting(b[v].status) ==> AllCompleted(a, a[v].dependsOn))
  }

  lemma StuckCarries(a: Nodes, b: Nodes, v: string)
    requires AlikeStuck(a, b) && Stuck(a, v)
    ensures Stuck(b, v)
  {
    var w :| WaitsAlong(a, w) && w[0] == v;
    forall i | 0 <= i < |w| - 1 ensures IsWaiting(b[w[i]].status) {
      assert Edge(GraphOf(a), w[i], w[i + 1]);
      assert i + 1 < |w| - 1 ==> IsWaiting(a[w[i + 1]].status);
      assert !a[w[i + 1]].status.Completed?;
    }
    assert WaitsAlong(b, w);
  }

  /** What the driver can finish: the nodes that are neither completed nor stuck. */
  ghost function Finishable(nodes: Nodes): set<string> {
    set v | v in nodes && !nodes[v].status.Completed? && !Stuck(nodes, v)
  }

  // ---------------------------------------------------------------- what a round changes

  ghost predicate AllSettled(nodes: Nodes) {
    forall v :: v in nodes ==> Settled(nodes, nodes[v])
  }

  lemma OneRecomputed(nodes: Nodes, v: string)
    requires v in nodes
    ensures var m := Recomputed(nodes);
      && Settled(m, m[v]) && Justified(m, nodes[v], m[v])
      && m[v].id == nodes[v].id && m[v].dependsOn == nodes[v].dependsOn
      && AllCompleted(m, nodes[v].dependsOn) == AllCompleted(nodes, nodes[v].dependsOn)
      && AnyFailed(m, nodes[v].dependsOn) == AnyFailed(nodes, nodes[v].dependsOn)
  {
    RecomputedIsSettled(nodes, v);
    RecomputeOnce(nodes);
    SameDecidedSameTests(nodes, Recomputed(nodes), nodes[v].dependsOn);
  }

  /** Recomputing keeps the graph and who is stuck, and leaves no node that could be promoted. */
  lemma RecomputeKeeps(nodes: Nodes, order: seq<string>)
    ensures var m := Recomputed(nodes);
      && m.Keys == nodes.Keys && GraphOf(m) == GraphOf(nodes) && (WellKeyed(m, order) <==> WellKeyed(nodes, order))
      && AllSettled(m) && AlikeStuck(nodes, m) && AlikeStuck(m, nodes)
  {
    var m := Recomputed(nodes);
    forall v | v in m
      ensures Settled(m, m[v]) && m[v].id == nodes[v].id && m[v].dependsOn == nodes[v].dependsOn
      ensures IsDead(m[v].status) <==> IsDead(nodes[v].status)
      ensures IsWaiting(m[v].status) ==> IsWaiting(nodes[v].status)
      ensures IsWaiting(nodes[v].status) && !IsWaiting(m[v].status) ==> AllCompleted(nodes, nodes[v].dependsOn)
    {
      OneRecomputed(nodes, v);
    }
  }

  lemma SameStuck(a: Nodes, b: Nodes, v: string)
    requires AlikeStuck(a, b) && AlikeStuck(b, a)
    ensures Stuck(a, v) <==> Stuck(b, v)
  {
    if Stuck(a, v) {
      StuckCarries(a, b, v);
    }
    if Stuck(b, v) {
      StuckCarries(b, a, v);
    }
  }

  /** Start then complete, without the recomputation that follows. */
  function Finished(m: Nodes, id: string): Nodes
    requires id in m
  {
    m[id := m[id].(status := Completed, attempts := m[id].attempts + 1)]
  }

  lemma RoundForm(nodes: Nodes, id: string)
    requires id in nodes && IsCandidate(Recomputed(nodes)[id].status)
    ensures Accepted(Recomputed(nodes), Start(id))
    ensures RoundAccepted(nodes, id) <==> DepsDone(Started(nodes, id), nodes[id].dependsOn)
    ensures RoundAccepted(nodes, id) ==> AfterRound(nodes, id) == Recomputed(Finished(Recomputed(nodes), id))
    ensures RoundAccepted(nodes, id) ==>
      forall d :: d in nodes[id].dependsOn && d in nodes ==> d != id && IsDone(Recomputed(nodes)[d].status)
  {
    var m := Recomputed(nodes);
    RecomputeKeeps(nodes, []);
    assert GraphOf(m)[id] == GraphOf(nodes)[id];
    assert WithStatus(Started(nodes, id), id, Completed) == Finished(m, id);
    if RoundAccepted(nodes, id) {
      forall d | d in nodes[id].dependsOn && d in nodes ensures d != id && IsDone(m[d].status) {
        assert d in Started(nodes, id) && IsDone(Started(nodes, id)[d].status);
      }
    }
  }

  /** Only an open node is accepted: a pending one would have been promoted. */
  lemma AcceptedIsOpen(nodes: Nodes, id: string)
    requires Closed(GraphOf(nodes)) && id in nodes && IsCandidate(Recomputed(nodes)[id].status)
    requires RoundAccepted(nodes, id)
    ensures IsOpen(Recomputed(nodes)[id].status)
  {
    var m := Recomputed(nodes);
    RecomputeKeeps(nodes, []);
    RoundForm(nodes, id);
    assert GraphOf(m)[id] == GraphOf(nodes)[id] == m[id].dependsOn;
    forall d | d in m[id].dependsOn ensures d in m && IsDone(m[d].status) {
      assert Edge(GraphOf(nodes), id, d);
    }
    assert !AnyFailed(m, m[id].dependsOn) ==> AllCompleted(m, m[id].dependsOn);
  }

  lemma FinishKeeps(m: Nodes, order: seq<string>, id: string)
    requires id in m && IsOpen(m[id].status)
    ensures var t := Finished(m, id);
      && t.Keys == m.Keys && GraphOf(t) == GraphOf(m) && (WellKeyed(t, order) <==> WellKeyed(m, order))
      && AlikeStuck(m, t) && AlikeStuck(t, m)
  {
  }

  lemma OpenIsNotStuck(nodes: Nodes, v: string)
    requires v in nodes && !IsDead(nodes[v].status) && !IsWaiting(nodes[v].status)
    ensures !Stuck(nodes, v)
  {
    StuckIff(nodes, v);
  }

  lemma RoundKeepsStuck(nodes: Nodes, id: string, v: string)
    requires id in nodes && IsOpen(Recomputed(nodes)[id].status)
    ensures Stuck(Recomputed(Finished(Recomputed(nodes), id)), v) <==> Stuck(nodes, v)
  {
    var m := Recomputed(nodes);
    var f := Finished(m, id);
    RecomputeKeeps(nodes, []);
    FinishKeeps(m, [], id);
    RecomputeKeeps(f, []);
    SameStuck(nodes, m, v);
    SameStuck(m, f, v);
    SameStuck(f, Recomputed(f), v);
  }

  lemma RoundCompletes(nodes: Nodes, id: string, v: string)
    requires id in nodes && v in nodes
    ensures Recomputed(Finished(Recomputed(nodes), id))[v].status.Completed? <==> nodes[v].status.Completed? || v == id
  {
    RecomputeOnce(nodes);
    RecomputeOnce(Finished(Recomputed(nodes), id));
  }

  /** An accepted round finishes its node and no other, and sticks or frees none. */
  lemma AcceptedRound(nodes: Nodes, order: seq<string>, id: string)
    requires WellFormed(nodes, order) && id in nodes && IsCandidate(Recomputed(nodes)[id].status)
    requires RoundAccepted(nodes, id)
    ensures WellFormed(AfterRound(nodes, id), order) && AfterRound(nodes, id).Keys == nodes.Keys
    ensures forall v :: Stuck(AfterRound(nodes, id), v) <==> Stuck(nodes, v)
    ensures forall v :: v in nodes ==>
      (AfterRound(nodes, id)[v].status.Completed? <==> nodes[v].status.Completed? || v == id)
    ensures !Stuck(nodes, id) && !nodes[id].status.Completed?
  {
    var m := Recomputed(nodes);
    RoundForm(nodes, id);
    AcceptedIsOpen(nodes, id);
    RecomputeKeeps(nodes, order);
    FinishKeeps(m, order, id);
    RecomputeKeeps(Finished(m, id), order);
    forall v ensures Stuck(AfterRound(nodes, id), v) <==> Stuck(nodes, v) {
      RoundKeepsStuck(nodes, id, v);
    }
    forall v | v in nodes
      ensures AfterRound(nodes, id)[v].status.Completed? <==> nodes[v].status.Completed? || v == id
    {
      RoundCompletes(nodes, id, v);
    }
    OpenIsNotStuck(m, id);
    SameStuck(nodes, m, id);
    OneRecomputed(nodes, id);
  }

  lemma RoundShrinks(nodes: Nodes, order: seq<string>, id: string)
    requires WellFormed(nodes, order) && id in nodes && IsCandidate(Recomputed(nodes)[id].status)
    requires RoundAccepted(nodes, id)
    ensures id in Finishable(nodes) && Finishable(AfterRound(nodes, id)) == Finishable(nodes) - {id}
    ensures |Finishable(AfterRound(nodes, id))| == |Finishable(nodes)| - 1
  {
    AcceptedRound(nodes, order, id);
    OneLess(nodes, AfterRound(nodes, id), id);
  }

  lemma OneLess(nodes: Nodes, t: Nodes, id: string)
    requires t.Keys == nodes.Keys && id in nodes && !Stuck(nodes, id) && !nodes[id].status.Completed?
    requires forall v :: Stuck(t, v) <==> Stuck(nodes, v)
    requires forall v :: v in nodes ==> (t[v].status.Completed? <==> nodes[v].status.Completed? || v == id)
    ensures id in Finishable(nodes) && Finishable(t) == Finishable(nodes) - {id}
  {
  }

  // ---------------------------------------------------------------- what gets the driver refused

  /**
   v will be offered, or is, while its dependency d cannot be done before: v is active and d is
   neither active nor done; or d is stuck, other than by having been skipped, and v is not kept
   back by a dependency of its own that failed or was skipped.
   */
  ghost predicate Offends(nodes: Nodes, v: string, d: string) {
    && v in nodes && d in nodes[v].dependsOn && d in nodes
    && if nodes[v].status.Active? then !nodes[d].status.Active? && !IsDone(nodes[d].status)
       else IsCandidate(nodes[v].status) && Stuck(nodes, d) && !nodes[d].status.Skipped?
            && (nodes[v].status.Pending? ==> !AnyFailed(nodes, nodes[v].dependsOn))
  }

  ghost predicate Orderly(nodes: Nodes) {
    forall v, d :: !Offends(nodes, v, d)
  }

  lemma RecomputeOffends(nodes: Nodes, v: string, d: string)
    ensures Offends(Recomputed(nodes), v, d) <==> Offends(nodes, v, d)
  {
    if v in nodes && d in nodes {
      OneRecomputed(nodes, v);
      OneRecomputed(nodes, d);
      RecomputeKeeps(nodes, []);
      SameStuck(nodes, Recomputed(nodes), d);
      StuckIff(nodes, d);
    }
  }

  /** Finishing another open node neither makes nor mends an offence; an active d would be another matter. */
  lemma FinishOffends(m: Nodes, id: string, v: string, d: string)
    requires id in m && IsOpen(m[id].status) && v != id
    ensures Offends(Finished(m, id), v, d) ==> Offends(m, v, d)
    ensures Offends(m, v, d) && (m[v].status.Active? ==> d != id) ==> Offends(Finished(m, id), v, d)
  {
    var f := Finished(m, id);
    FinishKeeps(m, [], id);
    SameStuck(m, f, d);
    if v in m {
      assert AnyFailed(f, m[v].dependsOn) == AnyFailed(m, m[v].dependsOn) by {
        FinishSameFailed(m, id, m[v].dependsOn);
      }
    }
    OpenIsNotStuck(m, id);
  }

  lemma FinishSameFailed(m: Nodes, id: string, deps: seq<string>)
    requires id in m && IsOpen(m[id].status)
    ensures AnyFailed(Finished(m, id), deps) == AnyFailed(m, deps)
  {
    var f := Finished(m, id);
    if d :| d in deps && d in m && IsDead(m[d].status) {
      assert d in f && IsDead(f[d].status);
    }
    if d :| d in deps && d in f && IsDead(f[d].status) {
      assert d in m && IsDead(m[d].status);
    }
  }

  lemma RoundKeepsOrderly(nodes: Nodes, id: string)
    requires Orderly(nodes) && id in nodes && IsOpen(Recomputed(nodes)[id].status)
    ensures Orderly(Recomputed(Finished(Recomputed(nodes), id)))
  {
    var m := Recomputed(nodes);
    var f := Finished(m, id);
    forall v, d ensures !Offends(Recomputed(f), v, d) {
      RecomputeOffends(f, v, d);
      RecomputeOffends(nodes, v, d);
      if v != id {
        FinishOffends(m, id, v, d);
      }
    }
  }

  // ---------------------------------------------------------------- the node offered first

  lemma KeysDiffer(n: TaskNode, d: TaskNode, un: nat, ud: nat)
    requires un < ud && (n.status.Active? ==> d.status.Active?)
    ensures Less(KeyOf(d, ud), KeyOf(n, un))
  {
    var kd, kn := KeyOf(d, ud), KeyOf(n, un);
    assert kd[1..][0] < kn[1..][0];
  }

  /** Whatever the first node depends on is no candidate, unless the first node is active and that one is not. */
  lemma NothingBefore(m: Nodes, order: seq<string>, id: string, u: string)
    requires WellFormed(m, order) && IsNext(m, order, id)
    requires u in m && DependsOn(GraphOf(m), id, u) && IsCandidate(m[u].status)
    ensures m[id].status.Active? && !m[u].status.Active?
  {
    DependencyHasMoreDependents(GraphOf(m), id, u);
    if !(m[id].status.Active? && !m[u].status.Active?) {
      KeysDiffer(m[id], m[u], Unlock(m, id), Unlock(m, u));
      LessIsStrict(KeyOf(m[u], Unlock(m, u)), KeyOf(m[id], Unlock(m, id)));
      assert false;
    }
  }

  lemma ActiveIsOfferedFirst(m: Nodes, order: seq<string>, a: string, id: string)
    requires WellKeyed(m, order) && a in m && m[a].status.Active? && IsNext(m, order, id)
    ensures m[id].status.Active?
  {
    if !m[id].status.Active? {
      var j :| 0 <= j < |order| && order[j] == a;
      LessIsStrict(KeyOf(m[a], Unlock(m, a)), KeyOf(m[id], Unlock(m, id)));
      assert false;
    }
  }

  /** What keeps an unfinished node waiting that is not stuck: an open node it depends on, if not itself. */
  lemma {:induction false} OpenBelow(m: Nodes, v: string) returns (u: string)
    requires Acyclic(GraphOf(m)) && Closed(GraphOf(m)) && AllSettled(m)
    requires v in m && !m[v].status.Completed? && !Stuck(m, v)
    ensures u in m && IsOpen(m[u].status) && (u == v || DependsOn(GraphOf(m), v, u))
    decreases |m| - |Dependents(GraphOf(m), v)|
  {
    StuckIff(m, v);
    u := v;
    if !IsOpen(m[v].status) {
      assert IsWaiting(m[v].status) && Settled(m, m[v]);
      var d :| d in m[v].dependsOn && !(d in m && m[d].status.Completed?);
      assert Edge(GraphOf(m), v, d);
      EdgeDepends(GraphOf(m), v, d);
      DependencyHasMoreDependents(GraphOf(m), v, d);
      DependentsFit(m, d);
      u := OpenBelow(m, d);
      if u != d {
        DependsTransitive(GraphOf(m), v, d, u);
      }
    }
  }

  lemma DependentsFit(m: Nodes, v: string)
    ensures |Dependents(GraphOf(m), v)| <= |m|
  {
    assert Dependents(GraphOf(m), v) <= m.Keys;
    SubsetFits(Dependents(GraphOf(m), v), m.Keys);
    assert |m.Keys| == |m|;
  }

  /** In an orderly graph the node offered first has every dependency done. */
  lemma NextIsDone(m: Nodes, order: seq<string>, id: string)
    requires WellFormed(m, order) && AllSettled(m) && Orderly(m) && IsNext(m, order, id)
    ensures forall d :: d in m[id].dependsOn ==> d in m && IsDone(m[d].status)
  {
    forall d | d in m[id].dependsOn ensures d in m && IsDone(m[d].status) {
      assert Edge(GraphOf(m), id, d) && !Offends(m, id, d) && Settled(m, m[id]);
      EdgeDepends(GraphOf(m), id, d);
      if !IsDone(m[d].status) {
        if m[id].status.Active? {
          NothingBefore(m, order, id, d);
        } else {
          assert !Stuck(m, d);
          var u := OpenBelow(m, d);
          if u != d {
            DependsTransitive(GraphOf(m), id, d, u);
          }
          NothingBefore(m, order, id, u);
        }
        assert false;
      }
    }
  }

  lemma PickIsGood(nodes: Nodes, order: seq<string>, id: string)
    requires WellFormed(nodes, order) && Orderly(nodes)
    requires WellKeyed(Recomputed(nodes), order) && IsNext(Recomputed(nodes), order, id)
    ensures id in nodes && IsCandidate(Recomputed(nodes)[id].status) && RoundAccepted(nodes, id)
  {
    var m := Recomputed(nodes);
    RecomputeKeeps(nodes, order);
    forall v, d ensures !Offends(m, v, d) {
      RecomputeOffends(nodes, v, d);
    }
    NextIsDone(m, order, id);
    RoundForm(nodes, id);
    assert GraphOf(m)[id] == GraphOf(nodes)[id];
    forall d | d in nodes[id].dependsOn && d in m ensures IsDone(Started(nodes, id)[d].status) {
      assert d in m[id].dependsOn;
    }
  }

  // ---------------------------------------------------------------- whole runs

  /** In an orderly graph every round is accepted and finishes one node that is not stuck. */
  lemma {:induction false} OrderlyRun(nodes: Nodes, order: seq<string>, picks: seq<string>)
    requires WellFormed(nodes, order) && Orderly(nodes) && DriverRun(nodes, order, picks)
    ensures AllAccepted(nodes, picks)
    ensures WellFormed(AfterRun(nodes, picks), order) && Orderly(AfterRun(nodes, picks))
    ensures AfterRun(nodes, picks).Keys == nodes.Keys
    ensures forall v :: Stuck(AfterRun(nodes, picks), v) <==> Stuck(nodes, v)
    ensures |Finishable(AfterRun(nodes, picks))| + |picks| == |Finishable(nodes)|
    decreases |picks|
  {
    if picks != [] {
      var id := picks[0];
      PickIsGood(nodes, order, id);
      AcceptedIsOpen(nodes, id);
      AcceptedRound(nodes, order, id);
      RoundShrinks(nodes, order, id);
      RoundForm(nodes, id);
      RoundKeepsOrderly(nodes, id);
      OrderlyRun(AfterRound(nodes, id), order, picks[1..]);
    }
  }

  /** Nothing is offered any more exactly when every node is completed or stuck. */
  lemma NoneLeftIff(t: Nodes, order: seq<string>)
    requires WellFormed(t, order) && Orderly(t)
    ensures NoCandidate(Recomputed(t)) <==> Finishable(t) == {}
  {
    var m := Recomputed(t);
    RecomputeKeeps(t, order);
    if v :| v in Finishable(t) {
      SameStuck(t, m, v);
      OneRecomputed(t, v);
      var u := OpenBelow(m, v);
      assert IsCandidate(m[u].status);
    } else {
      forall v | v in m ensures !IsCandidate(m[v].status) {
        assert v !in Finishable(t);
        SameStuck(t, m, v);
        OneRecomputed(t, v);
        if IsCandidate(m[v].status) {
          StuckCandidateOffends(m, v);
          var d :| Offends(m, v, d);
          RecomputeOffends(t, v, d);
        }
      }
    }
  }

  lemma StuckCandidateOffends(m: Nodes, v: string)
    requires AllSettled(m) && v in m && IsCandidate(m[v].status) && Stuck(m, v)
    ensures exists d :: Offends(m, v, d)
  {
    StuckIff(m, v);
    var d :| d in m[v].dependsOn && Stuck(m, d);
    StuckIff(m, d);
    assert Settled(m, m[v]);
    assert Offends(m, v, d);
  }

  /**
   An orderly graph, whatever has failed, been skipped or blocked in it, is worked off without a
   refusal; the driver stops after exactly one round for each node that is neither completed nor
   stuck, and then exactly the nodes that were not stuck are completed.
   */
  lemma DriverFinishesExactly(nodes: Nodes, order: seq<string>, picks: seq<string>)
    requires WellFormed(nodes, order) && Orderly(nodes) && DriverRun(nodes, order, picks)
    ensures AllAccepted(nodes, picks)
    ensures NoCandidate(Recomputed(AfterRun(nodes, picks))) <==> |picks| == |Finishable(nodes)|
    ensures |picks| == |Finishable(nodes)| ==>
      forall v :: v in nodes ==>
        v in AfterRun(nodes, picks) && (AfterRun(nodes, picks)[v].status.Completed? <==> !Stuck(nodes, v))
  {
    var t := AfterRun(nodes, picks);
    OrderlyRun(nodes, order, picks);
    NoneLeftIff(t, order);
    if Finishable(t) == {} {
      forall v | v in nodes ensures t[v].status.Completed? <==> !Stuck(nodes, v) {
        assert v !in Finishable(t);
        StuckIff(t, v);
      }
    }
  }

  // ---------------------------------------------------------------- when it is refused

  /** An offence outlasts every accepted round of another node. */
  lemma OffenceStays(nodes: Nodes, order: seq<string>, id: string, v: string, d: string)
    requires WellKeyed(nodes, order) && Closed(GraphOf(nodes)) && Offends(nodes, v, d)
    requires IsNext(Recomputed(nodes), order, id) && WellKeyed(Recomputed(nodes), order)
    requires id in nodes && IsCandidate(Recomputed(nodes)[id].status) && RoundAccepted(nodes, id)
    ensures Offends(AfterRound(nodes, id), v, d)
  {
    var m := Recomputed(nodes);
    RecomputeKeeps(nodes, order);
    RoundForm(nodes, id);
    AcceptedIsOpen(nodes, id);
    RecomputeOffends(nodes, v, d);
    assert v != id by {
      if v == id {
        OneRecomputed(nodes, id);
        StuckIff(m, d);
      }
    }
    if m[v].status.Active? {
      ActiveIsOfferedFirst(m, order, v, id);
    }
    FinishOffends(m, id, v, d);
    RecomputeOffends(Finished(m, id), v, d);
  }

  /** Where a node offends, the driver is refused in the end. */
  lemma {:induction false} RefusalFound(nodes: Nodes, order: seq<string>, v: string, d: string)
    returns (picks: seq<string>)
    requires WellFormed(nodes, order) && Offends(nodes, v, d)
    ensures DriverRun(nodes, order, picks) && !AllAccepted(nodes, picks)
    decreases |Finishable(nodes)|
  {
    var m := Recomputed(nodes);
    RecomputeKeeps(nodes, order);
    RecomputeOffends(nodes, v, d);
    var id := FirstOffered(m, order, v);
    if RoundAccepted(nodes, id) {
      AcceptedRound(nodes, order, id);
      RoundShrinks(nodes, order, id);
      OffenceStays(nodes, order, id, v, d);
      var rest := RefusalFound(AfterRound(nodes, id), order, v, d);
      picks := [id] + rest;
      OneRoundMore(nodes, order, id, rest);
    } else {
      picks := [id] + [];
      OneRoundMore(nodes, order, id, []);
    }
  }

  lemma OneRoundMore(nodes: Nodes, order: seq<string>, id: string, rest: seq<string>)
    requires WellKeyed(Recomputed(nodes), order) && IsNext(Recomputed(nodes), order, id)
    requires DriverRun(AfterRound(nodes, id), order, rest)
    ensures DriverRun(nodes, order, [id] + rest)
    ensures AllAccepted(nodes, [id] + rest) <==> RoundAccepted(nodes, id) && AllAccepted(AfterRound(nodes, id), rest)
  {
    var picks := [id] + rest;
    assert picks[0] == id && picks[1..] == rest;
  }

  lemma FirstOffered(m: Nodes, order: seq<string>, v: string) returns (id: string)
    requires WellKeyed(m, order) && v in m && IsCandidate(m[v].status)
    ensures IsNext(m, order, id) && id in m && IsCandidate(m[id].status)
  {
    NextExists(m, order);
    id := Sort(Entries(m, order, |order|))[0].id;
  }

  /** On any closed acyclic graph: no run is ever refused exactly when no node offends. */
  lemma RefusedIffOffends(nodes: Nodes, order: seq<string>)
    requires WellFormed(nodes, order)
    ensures Orderly(nodes) <==> forall picks :: DriverRun(nodes, order, picks) ==> AllAccepted(nodes, picks)
  {
    if Orderly(nodes) {
      forall picks | DriverRun(nodes, order, picks) ensures AllAccepted(nodes, picks) {
        OrderlyRun(nodes, order, picks);
      }
    } else {
      var v, d :| Offends(nodes, v, d);
      var picks := RefusalFound(nodes, order, v, d);
    }
  }

  // ---------------------------------------------------------------- graphs in which nothing went wrong

  ghost predicate Runnable(nodes: Nodes) {
    forall id :: id in nodes ==> IsCandidate(nodes[id].status) || nodes[id].status.Completed?
  }

  /** Every dependency present, no cycle, nothing failed, skipped or blocked. */
  ghost predicate Workable(nodes: Nodes, order: seq<string>) {
    WellFormed(nodes, order) && Runnable(nodes)
  }

  /** A node already active has only active or completed dependencies. */
  ghost predicate ActiveFirst(nodes: Nodes) {
    forall id, d :: id in nodes && nodes[id].status.Active? && d in nodes[id].dependsOn && d in nodes ==>
      nodes[d].status.Active? || nodes[d].status.Completed?
  }

  ghost function Unfinished(nodes: Nodes): set<string> {
    set id | id in nodes && !nodes[id].status.Completed?
  }

  lemma NothingStuck(nodes: Nodes)
    requires Runnable(nodes)
    ensures forall v :: !Stuck(nodes, v)
    ensures Finishable(nodes) == Unfinished(nodes)
    ensures Orderly(nodes) <==> ActiveFirst(nodes)
  {
    forall w ensures !WaitsAlong(nodes, w) {
    }
    if !ActiveFirst(nodes) {
      var id, d :| id in nodes && nodes[id].status.Active? && d in nodes[id].dependsOn && d in nodes
        && !(nodes[d].status.Active? || nodes[d].status.Completed?);
      assert Offends(nodes, id, d);
    }
  }

  /** The node offered first has every dependency completed, whatever its own status says. */
  lemma NextHasDepsCompleted(nodes: Nodes, order: seq<string>, id: string)
    requires Workable(nodes, order) && ActiveFirst(nodes) && IsNext(nodes, order, id)
    ensures AllCompleted(nodes, nodes[id].dependsOn)
  {
    forall d | d in nodes[id].dependsOn ensures d in nodes && nodes[d].status.Completed? {
      assert Edge(GraphOf(nodes), id, d);
      if !nodes[d].status.Completed? {
        EdgeDepends(GraphOf(nodes), id, d);
        NothingBefore(nodes, order, id, d);
      }
    }
  }

  /** Every round is accepted and finishes one more node. */
  lemma DriverIsNeverRefused(nodes: Nodes, order: seq<string>, picks: seq<string>)
    requires Workable(nodes, order) && ActiveFirst(nodes) && DriverRun(nodes, order, picks)
    ensures AllAccepted(nodes, picks)
    ensures Workable(AfterRun(nodes, picks), order)
    ensures |Unfinished(AfterRun(nodes, picks))| + |picks| == |Unfinished(nodes)|
  {
    NothingStuck(nodes);
    OrderlyRun(nodes, order, picks);
    StaysRunnable(nodes, order, picks);
    NothingStuck(AfterRun(nodes, picks));
  }

  lemma {:induction false} StaysRunnable(nodes: Nodes, order: seq<string>, picks: seq<string>)
    requires Workable(nodes, order) && Orderly(nodes) && DriverRun(nodes, order, picks)
    ensures Runnable(AfterRun(nodes, picks))
    decreases |picks|
  {
    if picks != [] {
      var id := picks[0];
      PickIsGood(nodes, order, id);
      AcceptedIsOpen(nodes, id);
      AcceptedRound(nodes, order, id);
      RoundForm(nodes, id);
      RoundKeepsOrderly(nodes, id);
      RunnableRecomputed(nodes);
      RunnableRecomputed(Finished(Recomputed(nodes), id));
      StaysRunnable(AfterRound(nodes, id), order, picks[1..]);
    }
  }

  lemma RunnableRecomputed(nodes: Nodes)
    requires Runnable(nodes)
    ensures Runnable(Recomputed(nodes))
  {
    forall v | v in nodes
      ensures IsCandidate(Recomputed(nodes)[v].status) || Recomputed(nodes)[v].status.Completed?
    {
      OneRecomputed(nodes, v);
      assert !AnyFailed(nodes, nodes[v].dependsOn);
    }
  }

  /** The driver stops, having no node to offer, after exactly one round per unfinished node. */
  lemma DriverFinishesEverything(nodes: Nodes, order: seq<string>, picks: seq<string>)
    requires Workable(nodes, order) && ActiveFirst(nodes) && DriverRun(nodes, order, picks)
    ensures NoCandidate(Recomputed(AfterRun(nodes, picks))) <==> |picks| == |Unfinished(nodes)|
    ensures |picks| == |Unfinished(nodes)| ==>
      forall id :: id in AfterRun(nodes, picks) ==> AfterRun(nodes, picks)[id].status.Completed?
  {
    NothingStuck(nodes);
    OrderlyRun(nodes, order, picks);
    DriverFinishesExactly(nodes, order, picks);
  }

  /** The driver is never refused exactly when every active node has only active or completed dependencies. */
  lemma NeverRefusedIff(nodes: Nodes, order: seq<string>)
    requires Workable(nodes, order)
    ensures ActiveFirst(nodes) <==>
      forall picks :: DriverRun(nodes, order, picks) ==> AllAccepted(nodes, picks)
  {
    NothingStuck(nodes);
    RefusedIffOffends(nodes, order);
  }

  // ---------------------------------------------------------------- refused graphs

  /** Three nodes, each after the one before. */
  function Chain(first: Status, second: Status, third: Status): Nodes {
    map["a" := TaskNode("a", "", first, 5, [], 0, 0), "b" := TaskNode("b", "", second, 5, ["a"], 0, 0),
        "c" := TaskNode("c", "", third, 5, ["b"], 0, 0)]
  }

  lemma ChainIsWellFormed(first: Status, second: Status, third: Status)
    ensures WellFormed(Chain(first, second, third), ["a", "b", "c"])
  {
    var g, order := GraphOf(Chain(first, second, third)), ["a", "b", "c"];
    ChainEdges(first, second, third);
    ChainIsKeyed(first, second, third);
    Ordered();
    TopologicalIsAcyclic(g, order);
  }

  lemma Ordered()
    ensures Precedes(["a", "b", "c"], "a", "b") && Precedes(["a", "b", "c"], "b", "c")
  {
    var order := ["a", "b", "c"];
    assert order[0] == "a" && order[1] == "b" && order[2] == "c";
  }

  lemma ChainIsKeyed(first: Status, second: Status, third: Status)
    ensures WellKeyed(Chain(first, second, third), ["a", "b", "c"])
  {
  }

  lemma ChainEdges(first: Status, second: Status, third: Status)
    ensures forall n, d :: Edge(GraphOf(Chain(first, second, third)), n, d) ==>
      (n == "b" && d == "a") || (n == "c" && d == "b")
  {
  }

  /** A node behind a blocked one is not blocked itself: it stays pending, is offered, and is refused. */
  lemma RefusedBehindBlocked() returns (picks: seq<string>)
    ensures DriverRun(Chain(Failed, Blocked, Pending), ["a", "b", "c"], picks)
    ensures !AllAccepted(Chain(Failed, Blocked, Pending), picks)
  {
    var nodes := Chain(Failed, Blocked, Pending);
    ChainIsWellFormed(Failed, Blocked, Pending);
    StuckIff(nodes, "a");
    StuckIff(nodes, "b");
    assert "a" in nodes["b"].dependsOn && "b" in nodes["c"].dependsOn;
    assert Offends(nodes, "c", "b");
    picks := RefusalFound(nodes, ["a", "b", "c"], "c", "b");
  }

  /** So is a node that was started before what it depends on. */
  lemma RefusedWhenStartedEarly() returns (picks: seq<string>)
    ensures Workable(Chain(Completed, Ready, Active), ["a", "b", "c"])
    ensures DriverRun(Chain(Completed, Ready, Active), ["a", "b", "c"], picks)
    ensures !AllAccepted(Chain(Completed, Ready, Active), picks)
  {
    var nodes := Chain(Completed, Ready, Active);
    ChainIsWellFormed(Completed, Ready, Active);
    assert "b" in nodes["c"].dependsOn;
    assert Offends(nodes, "c", "b");
    picks := RefusalFound(nodes, ["a", "b", "c"], "c", "b");
  }
}
