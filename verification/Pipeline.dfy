/**
 The orchestrator's execution order (app/agent/orchestrator.py): Kahn's algorithm over the
 roles of a pipeline, which must raise exactly when no order exists.
 */
module Pipeline {
  import opened Sequences
  import opened DependencyGraph

  /** KeyError: a role outside the pipeline, which was never counted, is to be decremented. */
  datatype SortResult = Order(roles: seq<string>) | CycleError | KeyError

  /** The dependencies of the pipeline's own roles. */
  function PipelineGraph(pipeline: seq<string>, deps: Graph): Graph {
    map r | r in pipeline :: DepsOf(deps, r)
  }

  /** Entries of s outside `done`, with repetitions. */
  function Outstanding(s: seq<string>, done: seq<string>): nat {
    if s == [] then 0
    else (if s[0] in done then 0 else 1) + Outstanding(s[1..], done)
  }

  lemma {:induction false} OutstandingAfter(s: seq<string>, done: seq<string>, x: string)
    requires x !in done
    ensures Outstanding(s, done) == Outstanding(s, done + [x]) + multiset(s)[x]
  {
    if s != [] {
      OutstandingAfter(s[1..], done, x);
      assert s == [s[0]] + s[1..];
    }
  }

  lemma {:induction false} OutstandingIsZero(s: seq<string>, done: seq<string>)
    ensures Outstanding(s, done) == 0 <==> forall d :: d in s ==> d in done
  {
    if s != [] {
      OutstandingIsZero(s[1..], done);
      assert s == [s[0]] + s[1..];
    }
  }

  lemma {:induction false} OutstandingAtFirst(s: seq<string>)
    ensures Outstanding(s, []) == |s|
  {
    if s != [] {
      OutstandingAtFirst(s[1..]);
    }
  }

  function WithDegreeZero(roles: seq<string>, inDegree: map<string, int>): (q: seq<string>)
    requires forall r :: r in roles ==> r in inDegree
    ensures forall r :: r in q <==> r in roles && inDegree[r] == 0
    ensures Distinct(roles) ==> Distinct(q)
  {
    if roles == [] then []
    else
      assert forall r :: r in roles[1..] ==> r in roles;
      (if inDegree[roles[0]] == 0 then [roles[0]] else []) + WithDegreeZero(roles[1..], inDegree)
  }

  /** A role outside the pipeline names this one. */
  ghost predicate HasStray(pipeline: seq<string>, deps: Graph, role: string) {
    exists n :: n !in pipeline && Edge(deps, n, role)
  }

  ghost predicate NoneStray(pipeline: seq<string>, deps: Graph, roles: seq<string>) {
    forall r :: r in roles ==> !HasStray(pipeline, deps, r)
  }

  /** Some role that can be ordered has such a dependent. */
  ghost predicate StrayIsReached(pipeline: seq<string>, deps: Graph) {
    exists r :: Orderable(PipelineGraph(pipeline, deps), r) && HasStray(pipeline, deps, r)
  }

  /** Each role lists r exactly as often as r, one of the first keys, names the role. */
  ghost predicate CountsDependents(deps: Graph, keys: seq<string>, dependents: map<string, seq<string>>) {
    forall d, r :: d in dependents ==>
      multiset(dependents[d])[r] == if r in keys then multiset(DepsOf(deps, r))[d] else 0
  }

  /** `after` is `before` with r appended once for each entry of `part`. */
  ghost predicate AppendedFor(before: map<string, seq<string>>, after: map<string, seq<string>>,
                              r: string, part: seq<string>) {
    && after.Keys == before.Keys
    && forall d, x :: d in after ==>
      multiset(after[d])[x] == multiset(before[d])[x] + if x == r then multiset(part)[d] else 0
  }

  function AppendFor(dependents: map<string, seq<string>>, d: string, r: string): map<string, seq<string>> {
    if d in dependents then dependents[d := dependents[d] + [r]] else dependents
  }

  lemma AppendOne(before: map<string, seq<string>>, now: map<string, seq<string>>, r: string,
                  list: seq<string>, i: nat)
    requires i < |list| && AppendedFor(before, now, r, list[..i])
    ensures AppendedFor(before, AppendFor(now, list[i], r), r, list[..i + 1])
  {
    assert list[..i + 1] == list[..i] + [list[i]];
  }

  lemma KeyCollected(deps: Graph, keys: seq<string>, k: nat, before: map<string, seq<string>>,
                     after: map<string, seq<string>>)
    requires k < |keys| && Distinct(keys)
    requires CountsDependents(deps, keys[..k], before)
    requires AppendedFor(before, after, keys[k], DepsOf(deps, keys[k]))
    ensures CountsDependents(deps, keys[..k + 1], after)
  {
    assert keys[..k + 1] == keys[..k] + [keys[k]];
    assert keys[k] !in keys[..k];
    forall d, r | d in after
      ensures multiset(after[d])[r] == if r in keys[..k + 1] then multiset(DepsOf(deps, r))[d] else 0
    {
      assert multiset(before[d])[r] == if r in keys[..k] then multiset(DepsOf(deps, r))[d] else 0;
    }
  }

  /** The reversed edges: each role's dependents, repeated as often as they name it. */
  method CollectDependents(pipeline: seq<string>, deps: Graph, keys: seq<string>)
    returns (dependents: map<string, seq<string>>)
    requires Distinct(keys)
    ensures dependents.Keys == Elements(pipeline)
    ensures CountsDependents(deps, keys, dependents)
  {
    dependents := map r | r in pipeline :: [];
    for k := 0 to |keys|
      invariant dependents.Keys == Elements(pipeline)
      invariant CountsDependents(deps, keys[..k], dependents)
    {
      var r, list := keys[k], DepsOf(deps, keys[k]);
      ghost var before := dependents;
      for i := 0 to |list|
        invariant AppendedFor(before, dependents, r, list[..i])
      {
        AppendOne(before, dependents, r, list, i);
        dependents := AppendFor(dependents, list[i], r);
      }
      assert list[..|list|] == list;
      KeyCollected(deps, keys, k, before, dependents);
    }
    assert keys[..|keys|] == keys;
  }

  /** `seen`, the order so far and the queue behind it, holds each role of degree zero once. */
  ghost predicate Queued(g: Graph, seen: seq<string>, inDegree: map<string, int>) {
    && inDegree.Keys == g.Keys
    && Distinct(seen)
    && forall r :: r in seen <==> r in g && inDegree[r] == 0
  }

  /** What the main loop keeps while `done` lists the roles whose dependents were served. */
  ghost predicate KahnInvariant(g: Graph, done: seq<string>, queue: seq<string>, inDegree: map<string, int>) {
    && inDegree.Keys == g.Keys
    && (forall r :: r in g ==> inDegree[r] == Outstanding(g[r], done))
    && Queued(g, done + queue, inDegree)
    && OrdersItsOwn(g, done)
  }

  ghost predicate ListsDependents(g: Graph, role: string, list: seq<string>) {
    && (forall r :: r in g ==> multiset(list)[r] == multiset(g[r])[role])
    && (forall r :: r in list ==> r in g)
  }

  ghost predicate DegreeOf(g: Graph, done: seq<string>, served: seq<string>, inDegree: map<string, int>,
                           r: string) {
    r in g && r in inDegree && inDegree[r] == Outstanding(g[r], done) - multiset(served)[r]
  }

  /** Between two dependents of `role`: the degrees count `done`, less the copies in `served`. */
  ghost predicate Serving(g: Graph, done: seq<string>, served: seq<string>, inDegree: map<string, int>) {
    && inDegree.Keys == g.Keys
    && forall r {:trigger DegreeOf(g, done, served, inDegree, r)} :: r in g ==>
      DegreeOf(g, done, served, inDegree, r)
  }

  lemma CountSoFar(list: seq<string>, k: nat)
    requires k < |list|
    ensures multiset(list[..k + 1]) == multiset(list[..k]) + multiset{list[k]}
    ensures multiset(list[..k])[list[k]] < multiset(list)[list[k]]
  {
    assert list[..k + 1] == list[..k] + [list[k]];
    assert list == list[..k] + [list[k]] + list[k + 1..];
  }

  lemma DependentIsCounted(g: Graph, done: seq<string>, role: string, list: seq<string>, k: nat,
                           inDegree: map<string, int>)
    requires role !in done && k < |list|
    requires ListsDependents(g, role, list)
    requires Serving(g, done, list[..k], inDegree)
    ensures list[k] in inDegree && inDegree[list[k]] > 0
    ensures Serving(g, done, list[..k + 1], inDegree[list[k] := inDegree[list[k]] - 1])
  {
    var r := list[k];
    assert r in list && r in g;
    assert DegreeOf(g, done, list[..k], inDegree, r);
    OutstandingAfter(g[r], done, role);
    CountSoFar(list, k);
    var after := inDegree[r := inDegree[r] - 1];
    forall x | x in g ensures DegreeOf(g, done, list[..k + 1], after, x) {
      assert DegreeOf(g, done, list[..k], inDegree, x);
    }
  }

  lemma DecrementKeepsQueued(g: Graph, seen: seq<string>, inDegree: map<string, int>, r: string)
    requires Queued(g, seen, inDegree) && r in g && inDegree[r] > 0
    ensures var d := inDegree[r := inDegree[r] - 1];
            Queued(g, if d[r] == 0 then seen + [r] else seen, d)
  {
  }

  lemma RoleJoinsOrder(g: Graph, done: seq<string>, queue: seq<string>, inDegree: map<string, int>)
    requires KahnInvariant(g, done, queue, inDegree) && queue != []
    ensures queue[0] in g && queue[0] !in done && |done| < |g|
    ensures OrdersItsOwn(g, done + [queue[0]])
  {
    var role := queue[0];
    var all := done + queue;
    assert all[|done|] == role;
    assert role in all;
    assert forall i :: 0 <= i < |done| ==> all[i] == done[i];
    DistinctFits(done + queue, g.Keys);
    OutstandingIsZero(g[role], done);
  }

  /** With the queue empty, the roles left out depend on one another or on an outside role. */
  lemma LeftOut(g: Graph, done: seq<string>, inDegree: map<string, int>)
    requires KahnInvariant(g, done, [], inDegree)
    ensures Elements(done) <= g.Keys
    ensures Elements(done) != g.Keys && Closed(g) ==> !Acyclic(g)
    ensures Elements(done) == g.Keys ==> IsTopological(g, done) && Closed(g)
  {
    assert done + [] == done;
    assert Elements(done) <= g.Keys by {
      forall r | r in done ensures r in g.Keys { assert r in done + []; }
    }
    var stuck := g.Keys - Elements(done);
    if stuck == {} {
      forall x | x in g.Keys ensures x in Elements(done) {
        assert x !in stuck;
      }
    }
    if stuck != {} && Closed(g) {
      forall r | r in stuck ensures HasDepIn(g, r, stuck) {
        OutstandingIsZero(g[r], done);
        var d :| d in g[r] && d !in done;
        assert Edge(g, r, d);
      }
      var c := StuckSetHasCycle(g, stuck);
    }
    if stuck == {} {
      forall n, d | Edge(g, n, d) ensures Precedes(done, d, n) && d in g {
        assert n in g.Keys && n !in stuck;
        assert n in done;
      }
    }
  }

  lemma RoleServed(g: Graph, done: seq<string>, role: string, list: seq<string>, queue: seq<string>,
                   inDegree: map<string, int>)
    requires role !in done && ListsDependents(g, role, list)
    requires Serving(g, done, list, inDegree)
    requires Queued(g, done + [role] + queue, inDegree)
    requires OrdersItsOwn(g, done + [role])
    ensures KahnInvariant(g, done + [role], queue, inDegree)
  {
    forall r | r in g ensures inDegree[r] == Outstanding(g[r], done + [role]) {
      assert DegreeOf(g, done, list, inDegree, r);
      OutstandingAfter(g[r], done, role);
    }
  }

  /** The degrees and the queue while the dependents of one role are served. */
  datatype Work = Work(inDegree: map<string, int>, queue: seq<string>)

  function Serve(w: Work, dep: string): Work {
    var left := (if dep in w.inDegree then w.inDegree[dep] else 0) - 1;
    Work(w.inDegree[dep := left], if left == 0 then w.queue + [dep] else w.queue)
  }

  function ServeFirst(w: Work, list: seq<string>, k: nat): Work
    requires k <= |list|
  {
    if k == 0 then w else Serve(ServeFirst(w, list, k - 1), list[k - 1])
  }

  /** One turn of the inner loop for every dependent of the role just ordered. */
  method ServeDependents(w: Work, list: seq<string>) returns (known: bool, done: Work)
    ensures known <==> forall r :: r in list ==> r in w.inDegree
    ensures known ==> done == ServeFirst(w, list, |list|)
  {
    var inDegree, queue := w.inDegree, w.queue;
    for k := 0 to |list|
      invariant Work(inDegree, queue) == ServeFirst(w, list, k)
      invariant inDegree.Keys == w.inDegree.Keys
      invariant forall i :: 0 <= i < k ==> list[i] in inDegree
    {
      var dep := list[k];
      if dep !in inDegree {
        return false, Work(inDegree, queue);
      }
      inDegree := inDegree[dep := inDegree[dep] - 1];
      if inDegree[dep] == 0 {
        queue := queue + [dep];
      }
    }
    return true, Work(inDegree, queue);
  }

  /** `head` is the order so far, the role included. */
  lemma {:induction false} ServedSoFar(g: Graph, done: seq<string>, head: seq<string>, role: string,
                                       list: seq<string>, k: nat, w: Work)
    requires role !in done && k <= |list| && ListsDependents(g, role, list)
    requires Serving(g, done, [], w.inDegree) && Queued(g, head + w.queue, w.inDegree)
    ensures var v := ServeFirst(w, list, k);
      Serving(g, done, list[..k], v.inDegree) && Queued(g, head + v.queue, v.inDegree)
  {
    if k == 0 {
      assert list[..0] == [];
      assert ServeFirst(w, list, 0) == w;
    } else {
      ServedSoFar(g, done, head, role, list, k - 1, w);
      var v := ServeFirst(w, list, k - 1);
      DependentIsCounted(g, done, role, list, k - 1, v.inDegree);
      ServeKeepsQueued(g, head, v, list[k - 1]);
    }
  }

  lemma ServeKeepsQueued(g: Graph, head: seq<string>, w: Work, r: string)
    requires Queued(g, head + w.queue, w.inDegree) && r in w.inDegree && w.inDegree[r] > 0
    ensures Queued(g, head + Serve(w, r).queue, Serve(w, r).inDegree)
    ensures Serve(w, r).inDegree == w.inDegree[r := w.inDegree[r] - 1]
  {
    DecrementKeepsQueued(g, head + w.queue, w.inDegree, r);
    Regroup(head, w.queue, [r]);
  }

  lemma Served(g: Graph, done: seq<string>, role: string, list: seq<string>, w: Work)
    requires role !in done && ListsDependents(g, role, list)
    requires Serving(g, done, [], w.inDegree) && Queued(g, done + [role] + w.queue, w.inDegree)
    requires OrdersItsOwn(g, done + [role])
    ensures var v := ServeFirst(w, list, |list|); KahnInvariant(g, done + [role], v.queue, v.inDegree)
  {
    ServedSoFar(g, done, done + [role], role, list, |list|, w);
    assert list[..|list|] == list;
    var v := ServeFirst(w, list, |list|);
    RoleServed(g, done, role, list, v.queue, v.inDegree);
  }

  method TopologicalSort(pipeline: seq<string>, deps: Graph, keys: seq<string>) returns (result: SortResult)
    requires Distinct(pipeline)
    requires Distinct(keys) && forall r :: r in keys <==> r in deps
    ensures result.KeyError? <==> StrayIsReached(pipeline, deps)
    ensures result.Order? <==> Acyclic(PipelineGraph(pipeline, deps)) && Closed(PipelineGraph(pipeline, deps))
                               && !StrayIsReached(pipeline, deps)
    ensures result.Order? ==> multiset(result.roles) == multiset(pipeline)
    ensures result.Order? ==> IsTopological(PipelineGraph(pipeline, deps), result.roles)
    ensures result.Order? ==> exists level :: Levelled(PipelineGraph(pipeline, deps), level, result.roles)
  {
    ghost var g := PipelineGraph(pipeline, deps);
    var inDegree := map r | r in pipeline :: |DepsOf(deps, r)|;
    var queue := WithDegreeZero(pipeline, inDegree);
    var order := [];
    var dependents := CollectDependents(pipeline, deps, keys);
    ghost var level := Starts(pipeline, deps, queue, inDegree);
    while queue != []
      invariant Going(pipeline, deps, level, order, queue, inDegree)
      decreases |g| - |order|
    {
      var role := queue[0];
      ghost var higher := TurnTaken(pipeline, deps, keys, dependents, level, order, queue, inDegree);
      var known, w := ServeDependents(Work(inDegree, queue[1..]), dependents[role]);
      if !known {
        return KeyError;
      }
      level, order := higher, order + [role];
      inDegree, queue := w.inDegree, w.queue;
    }
    Ends(pipeline, deps, level, order, inDegree);
    result := if |order| != |pipeline| then CycleError else Order(order);
  }

  /** What the main loop keeps. */
  ghost predicate Going(pipeline: seq<string>, deps: Graph, level: map<string, nat>, order: seq<string>,
                        queue: seq<string>, inDegree: map<string, int>) {
    var g := PipelineGraph(pipeline, deps);
    KahnInvariant(g, order, queue, inDegree) && NoneStray(pipeline, deps, order) && LevelsAt(g, level, order, queue)
  }

  lemma Starts(pipeline: seq<string>, deps: Graph, queue: seq<string>, inDegree: map<string, int>)
    returns (level: map<string, nat>)
    requires inDegree == (map r | r in pipeline :: |DepsOf(deps, r)|) && Distinct(queue)
    requires forall r :: r in queue <==> r in pipeline && inDegree[r] == 0
    ensures Going(pipeline, deps, level, [], queue, inDegree)
  {
    var g := PipelineGraph(pipeline, deps);
    KahnStarts(g, pipeline, queue, inDegree);
    level := LevelsStart(g, queue, inDegree);
  }

  /** One turn of the main loop: the first of the queue is ordered unless it has a stray dependent. */
  lemma TurnTaken(pipeline: seq<string>, deps: Graph, keys: seq<string>, dependents: map<string, seq<string>>,
                  level: map<string, nat>, order: seq<string>, queue: seq<string>, inDegree: map<string, int>)
    returns (higher: map<string, nat>)
    requires queue != [] && Going(pipeline, deps, level, order, queue, inDegree)
    requires forall r :: r in keys <==> r in deps
    requires dependents.Keys == Elements(pipeline) && CountsDependents(deps, keys, dependents)
    ensures queue[0] in dependents && |order| < |PipelineGraph(pipeline, deps)|
    ensures var list := dependents[queue[0]];
      if forall r :: r in list ==> r in inDegree then
        var v := ServeFirst(Work(inDegree, queue[1..]), list, |list|);
        Going(pipeline, deps, higher, order + [queue[0]], v.queue, v.inDegree)
      else StrayIsReached(pipeline, deps)
  {
    var g, role := PipelineGraph(pipeline, deps), queue[0];
    Turn(g, order, queue, inDegree);
    assert role in pipeline && role in Elements(pipeline);
    ListCountsRole(pipeline, deps, keys, dependents, role);
    if HasStray(pipeline, deps, role) {
      OrderedIsOrderable(g, order + [role], role);
      higher := level;
    } else {
      higher := RoleDone(g, level, order, queue, dependents[role], inDegree);
    }
  }

  lemma Ends(pipeline: seq<string>, deps: Graph, level: map<string, nat>, order: seq<string>,
             inDegree: map<string, int>)
    requires Distinct(pipeline) && Going(pipeline, deps, level, order, [], inDegree)
    ensures var g := PipelineGraph(pipeline, deps);
      && !StrayIsReached(pipeline, deps) && (|order| == |pipeline| <==> Acyclic(g) && Closed(g))
      && (|order| == |pipeline| ==>
           IsTopological(g, order) && multiset(order) == multiset(pipeline) && Levelled(g, level, order))
  {
    assert order + [] == order;
    StrayIsNotReached(pipeline, deps, order, inDegree);
    Verdict(pipeline, deps, order, inDegree);
  }

  // ---------------------------------------------------------------- level by level

  /** A role without dependencies is on level 0, any other one level above its highest dependency. */
  ghost predicate IsLevel(g: Graph, level: map<string, nat>, r: string) {
    && r in g && r in level
    && (g[r] == [] ==> level[r] == 0)
    && (forall d :: d in g[r] ==> d in level && level[d] < level[r])
    && (g[r] != [] ==> exists d :: d in g[r] && d in level && level[d] + 1 == level[r])
  }

  predicate NoHigher(level: map<string, nat>, r: string, x: string) {
    r in level && x in level && level[r] <= level[x]
  }

  ghost predicate Rising(level: map<string, nat>, order: seq<string>) {
    forall i, j {:trigger NoHigher(level, order[i], order[j])} :: 0 <= i < j < |order| ==>
      NoHigher(level, order[i], order[j])
  }

  /** The order goes level by level. */
  ghost predicate Levelled(g: Graph, level: map<string, nat>, order: seq<string>) {
    (forall r :: r in order ==> IsLevel(g, level, r)) && Rising(level, order)
  }

  /** The order so far and the queue behind it, in which at most two levels stand. */
  ghost predicate LevelsAt(g: Graph, level: map<string, nat>, done: seq<string>, queue: seq<string>) {
    && Levelled(g, level, done + queue) && (forall r :: r in level <==> r in done + queue)
    && forall r :: r in queue ==> r in level && queue[0] in level && level[r] <= level[queue[0]] + 1
  }

  lemma LevelsStart(g: Graph, queue: seq<string>, inDegree: map<string, int>) returns (level: map<string, nat>)
    requires KahnInvariant(g, [], queue, inDegree)
    ensures LevelsAt(g, level, [], queue)
  {
    assert [] + queue == queue;
    forall r | r in queue ensures r in g && g[r] == [] {
      OutstandingAtFirst(g[r]);
    }
    level := OneLevel(g, queue);
  }

  lemma OneLevel(g: Graph, roles: seq<string>) returns (level: map<string, nat>)
    requires forall r :: r in roles ==> r in g && g[r] == []
    ensures LevelsAt(g, level, [], roles)
  {
    level := map r | r in roles :: 0;
    assert [] + roles == roles;
    assert roles != [] ==> roles[0] in roles;
    forall i, j | 0 <= i < j < |roles| ensures NoHigher(level, roles[i], roles[j]) {
    }
  }

  lemma {:induction false} QueueGrows(w: Work, list: seq<string>, k: nat) returns (added: seq<string>)
    requires k <= |list|
    ensures ServeFirst(w, list, k).queue == w.queue + added && forall r :: r in added ==> r in list
  {
    if k == 0 {
      added := [];
      assert w.queue + [] == w.queue;
    } else {
      added := QueueGrows(w, list, k - 1);
      var v := ServeFirst(w, list, k - 1);
      if Serve(v, list[k - 1]).queue != v.queue {
        Regroup(w.queue, added, [list[k - 1]]);
        added := added + [list[k - 1]];
      }
    }
  }

  /** The levels when `added` has been queued after serving a role. */
  ghost function Higher(level: map<string, nat>, role: string, added: seq<string>): map<string, nat>
    requires role in level
  {
    map r | r in level.Keys + Elements(added) :: if r in level then level[r] else level[role] + 1
  }

  lemma OldLevel(g: Graph, level: map<string, nat>, role: string, added: seq<string>, r: string)
    requires role in level && IsLevel(g, level, r)
    ensures IsLevel(g, Higher(level, role, added), r)
  {
    if g[r] != [] {
      var d :| d in g[r] && d in level && level[d] + 1 == level[r];
      assert Higher(level, role, added)[d] + 1 == level[r];
    }
  }

  lemma AddedLevel(g: Graph, level: map<string, nat>, done: seq<string>, role: string, added: seq<string>,
                   inDegree: map<string, int>, queue: seq<string>, r: string)
    requires KahnInvariant(g, done + [role], queue, inDegree) && r in queue && r in added && r !in level
    requires role in level && r in g && role in g[r]
    requires forall d :: d in done + [role] ==> d in level && level[d] <= level[role]
    ensures IsLevel(g, Higher(level, role, added), r)
  {
    assert r in done + [role] + queue;
    OutstandingIsZero(g[r], done + [role]);
    assert Higher(level, role, added)[role] + 1 == Higher(level, role, added)[r];
  }

  /** Nothing behind stands higher than one level above the role just served, nothing in front above it. */
  ghost predicate Brackets(level: map<string, nat>, role: string, done: seq<string>, behind: seq<string>) {
    && role in level
    && (forall d :: d in done ==> d in level && level[d] <= level[role])
    && forall r :: r in behind ==> r in level && level[role] <= level[r] <= level[role] + 1
  }

  lemma RoleAround(g: Graph, level: map<string, nat>, done: seq<string>, queue: seq<string>)
    requires queue != [] && LevelsAt(g, level, done, queue)
    ensures Brackets(level, queue[0], done + [queue[0]], queue[1..])
  {
    var role, rest := queue[0], queue[1..];
    HeadMoves(done, queue);
    assert role in done + queue && role in level;
    RisingSplits(level, done, role, rest);
    forall r | r in rest ensures level[r] <= level[role] + 1 {
      assert r in queue;
    }
  }

  lemma RisingSplits(level: map<string, nat>, done: seq<string>, role: string, rest: seq<string>)
    requires Rising(level, done + [role] + rest) && role in level
    ensures forall d :: d in done + [role] ==> NoHigher(level, d, role)
    ensures forall r :: r in rest ==> NoHigher(level, role, r)
  {
    var seen, n := done + [role] + rest, |done|;
    assert seen[n] == role;
    forall d | d in done ensures NoHigher(level, d, role) {
      var i :| 0 <= i < n && done[i] == d;
      assert seen[i] == d && NoHigher(level, seen[i], seen[n]);
    }
    forall r | r in rest ensures NoHigher(level, role, r) {
      var i :| 0 <= i < |rest| && rest[i] == r;
      assert seen[n + 1 + i] == r && NoHigher(level, seen[n], seen[n + 1 + i]);
    }
  }

  lemma RisingJoin(level: map<string, nat>, seen: seq<string>, added: seq<string>, top: nat)
    requires Rising(level, seen)
    requires forall r :: r in seen ==> r in level && level[r] <= top
    requires forall r :: r in added ==> r in level && level[r] == top
    ensures Rising(level, seen + added)
  {
    var all := seen + added;
    forall i, j | 0 <= i < j < |all| ensures NoHigher(level, all[i], all[j]) {
      if j < |seen| {
        assert all[i] == seen[i] && all[j] == seen[j] && NoHigher(level, seen[i], seen[j]);
      } else {
        assert all[j] in added && all[i] in all;
      }
    }
  }

  lemma RisingHigher(level: map<string, nat>, role: string, added: seq<string>, seen: seq<string>)
    requires Rising(level, seen) && role in level && forall r :: r in seen ==> r in level
    ensures Rising(Higher(level, role, added), seen)
  {
    forall i, j | 0 <= i < j < |seen| ensures NoHigher(Higher(level, role, added), seen[i], seen[j]) {
      assert seen[i] in seen && seen[j] in seen && NoHigher(level, seen[i], seen[j]);
    }
  }

  /** At most two levels stand in the queue. */
  lemma TwoLevels(level: map<string, nat>, role: string, rest: seq<string>, added: seq<string>)
    requires role in level && forall r :: r in rest ==> r in level && level[role] <= level[r] <= level[role] + 1
    requires forall r :: r in added ==> r !in level
    ensures var queue, higher := rest + added, Higher(level, role, added);
      forall r :: r in queue ==> r in higher && queue[0] in higher && higher[r] <= higher[queue[0]] + 1
  {
    var queue, higher := rest + added, Higher(level, role, added);
    forall r | r in queue ensures r in higher && level[role] <= higher[r] <= level[role] + 1 {
    }
    assert queue != [] ==> queue[0] in queue;
  }

  /** Appending what the role freed keeps the order level by level. */
  lemma LevelsJoin(g: Graph, level: map<string, nat>, done: seq<string>, role: string, rest: seq<string>,
                   added: seq<string>)
    requires Levelled(g, level, done + [role] + rest) && Brackets(level, role, done + [role], rest)
    requires forall r :: r in level <==> r in done + [role] + rest
    requires forall r :: r in added ==> r !in level && IsLevel(g, Higher(level, role, added), r)
    ensures LevelsAt(g, Higher(level, role, added), done + [role], rest + added)
  {
    var seen, higher := done + [role] + rest, Higher(level, role, added);
    Regroup(done + [role], rest, added);
    forall r | r in seen ensures IsLevel(g, higher, r) && higher[r] <= level[role] + 1 {
      OldLevel(g, level, role, added, r);
    }
    RisingHigher(level, role, added, seen);
    RisingJoin(higher, seen, added, level[role] + 1);
    TwoLevels(level, role, rest, added);
  }

  lemma LevelsNext(g: Graph, level: map<string, nat>, done: seq<string>, queue: seq<string>, list: seq<string>,
                   inDegree: map<string, int>) returns (higher: map<string, nat>)
    requires queue != [] && LevelsAt(g, level, done, queue) && ListsDependents(g, queue[0], list)
    requires var v := ServeFirst(Work(inDegree, queue[1..]), list, |list|);
      KahnInvariant(g, done + [queue[0]], v.queue, v.inDegree)
    ensures var v := ServeFirst(Work(inDegree, queue[1..]), list, |list|);
      LevelsAt(g, higher, done + [queue[0]], v.queue)
  {
    var role, rest := queue[0], queue[1..];
    var v := ServeFirst(Work(inDegree, rest), list, |list|);
    var added := QueueGrows(Work(inDegree, rest), list, |list|);
    RoleAround(g, level, done, queue);
    HeadMoves(done, queue);
    higher := Higher(level, role, added);
    forall r | r in added ensures r !in level && IsLevel(g, higher, r) {
      AddedIsNew(done + [role], rest, added, r);
      assert r in list && multiset(list)[r] > 0 && multiset(g[r])[role] > 0;
      AddedLevel(g, level, done, role, added, v.inDegree, v.queue, r);
    }
    LevelsJoin(g, level, done, role, rest, added);
  }

  /** One turn of the main loop keeps its invariants. */
  lemma RoleDone(g: Graph, level: map<string, nat>, done: seq<string>, queue: seq<string>, list: seq<string>,
                 inDegree: map<string, int>) returns (higher: map<string, nat>)
    requires queue != [] && KahnInvariant(g, done, queue, inDegree) && LevelsAt(g, level, done, queue)
    requires ListsDependents(g, queue[0], list)
    ensures var v := ServeFirst(Work(inDegree, queue[1..]), list, |list|);
      KahnInvariant(g, done + [queue[0]], v.queue, v.inDegree) && LevelsAt(g, higher, done + [queue[0]], v.queue)
  {
    Turn(g, done, queue, inDegree);
    Served(g, done, queue[0], list, Work(inDegree, queue[1..]));
    higher := LevelsNext(g, level, done, queue, list, inDegree);
  }

  lemma AddedIsNew(done: seq<string>, rest: seq<string>, added: seq<string>, r: string)
    requires Distinct(done + (rest + added)) && r in added
    ensures r !in done + rest && r in rest + added
  {
    var all := done + (rest + added);
    var j :| 0 <= j < |added| && added[j] == r;
    assert all[|done| + |rest| + j] == r;
    forall i | 0 <= i < |done + rest| ensures (done + rest)[i] != r {
      assert all[i] == (done + rest)[i];
    }
  }

  /** With the queue empty, every orderable role has been served, so none of them has a stray dependent. */
  lemma StrayIsNotReached(pipeline: seq<string>, deps: Graph, order: seq<string>, inDegree: map<string, int>)
    requires KahnInvariant(PipelineGraph(pipeline, deps), order, [], inDegree)
    requires NoneStray(pipeline, deps, order)
    ensures !StrayIsReached(pipeline, deps)
  {
    var g := PipelineGraph(pipeline, deps);
    assert order + [] == order;
    forall r | Orderable(g, r) ensures r in order {
      if r !in order {
        forall x | x in g && x !in Elements(order) ensures exists d :: Edge(g, x, d) && d !in Elements(order) {
          OutstandingIsZero(g[x], order);
          var d :| d in g[x] && d !in order;
          assert Edge(g, x, d);
        }
        StuckIsNotOrderable(g, Elements(order), r);
      }
    }
  }

  /** The first of the queue is ready to have its dependents served. */
  lemma Turn(g: Graph, done: seq<string>, queue: seq<string>, inDegree: map<string, int>)
    requires KahnInvariant(g, done, queue, inDegree) && queue != []
    ensures queue[0] in g && queue[0] !in done && |done| < |g| && inDegree.Keys == g.Keys
    ensures Serving(g, done, [], inDegree) && Queued(g, done + [queue[0]] + queue[1..], inDegree)
    ensures OrdersItsOwn(g, done + [queue[0]]) && forall x :: x in done + [queue[0]] ==> x in g
  {
    RoleJoinsOrder(g, done, queue, inDegree);
    HeadMoves(done, queue);
    forall x | x in done ensures x in g {
      assert x in done + queue;
    }
    forall r | r in g ensures DegreeOf(g, done, [], inDegree, r) {
    }
  }

  lemma KahnStarts(g: Graph, pipeline: seq<string>, queue: seq<string>, inDegree: map<string, int>)
    requires inDegree.Keys == g.Keys == Elements(pipeline) && Distinct(queue)
    requires forall r :: r in g ==> inDegree[r] == |g[r]|
    requires forall r :: r in queue <==> r in pipeline && inDegree[r] == 0
    ensures KahnInvariant(g, [], queue, inDegree)
  {
    assert [] + queue == queue;
    forall r | r in g ensures inDegree[r] == Outstanding(g[r], []) {
      OutstandingAtFirst(g[r]);
    }
    forall r ensures r in queue <==> r in g && inDegree[r] == 0 {
      assert r in pipeline <==> r in Elements(pipeline);
    }
  }

  lemma Verdict(pipeline: seq<string>, deps: Graph, order: seq<string>, inDegree: map<string, int>)
    requires Distinct(pipeline) && KahnInvariant(PipelineGraph(pipeline, deps), order, [], inDegree)
    ensures var g := PipelineGraph(pipeline, deps);
            && (|order| == |pipeline| <==> Acyclic(g) && Closed(g))
            && (|order| == |pipeline| ==> IsTopological(g, order) && multiset(order) == multiset(pipeline))
  {
    var g := PipelineGraph(pipeline, deps);
    LeftOut(g, order, inDegree);
    assert order + [] == order;
    assert g.Keys == Elements(pipeline);
    DistinctCardinality(pipeline);
    DistinctCardinality(order);
    if |order| == |pipeline| {
      DistinctCovers(order, g.Keys);
      DistinctPermutation(order, pipeline);
      TopologicalIsAcyclic(g, order);
    }
  }

  /** The list counts the pipeline's dependents of the role, and holds another name just if there is a stray one. */
  lemma ListCountsRole(pipeline: seq<string>, deps: Graph, keys: seq<string>,
                       dependents: map<string, seq<string>>, role: string)
    requires forall r :: r in keys <==> r in deps
    requires role in pipeline && role in dependents && CountsDependents(deps, keys, dependents)
    ensures (forall r :: r in dependents[role] ==> r in PipelineGraph(pipeline, deps))
      <==> !HasStray(pipeline, deps, role)
    ensures !HasStray(pipeline, deps, role) ==> ListsDependents(PipelineGraph(pipeline, deps), role, dependents[role])
  {
    forall r ensures r in dependents[role] <==> Edge(deps, r, role) {
      assert r in dependents[role] <==> multiset(dependents[role])[r] > 0;
      assert role in DepsOf(deps, r) <==> multiset(DepsOf(deps, r))[role] > 0;
    }
  }

  /** A lone role whose dependent is not in the pipeline ends in a KeyError. */
  lemma StrayCanBeReached()
    ensures StrayIsReached(["a"], map["x" := ["a"]])
  {
    var pipeline, deps := ["a"], map["x" := ["a"]];
    var g := PipelineGraph(pipeline, deps);
    assert forall n, d :: !Edge(g, n, d);
    forall d, w ensures !Joins(g, w, "a", d) {
      assert |w| >= 2 ==> !Edge(g, w[0], w[1]);
    }
    assert Edge(deps, "x", "a") && "x" !in pipeline;
    assert Orderable(g, "a") && HasStray(pipeline, deps, "a");
  }
}
