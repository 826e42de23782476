/**
 The concurrent stage tasks of run_pipeline (app/agent/orchestrator.py) as a step system.
 Every role is one task; a step moves one task from one await to the next, and any enabled
 task may move. What the roles do is an oracle fixed before the run, so a statement about
 every oracle and every schedule speaks of every run.
 */
module PipelineStages {
  import opened Sequences
  import opened DependencyGraph
  import opened Pipeline

  /** What a role does when it runs: it returns, it raises, or logging its output raises. */
  datatype Outcome = Output(text: string) | Raised(error: string) | LogRaised(text: string, error: string)

  datatype Status = Completed | Error | Skipped

  datatype Phase =
    | Waiting(next: nat)                       // awaiting the event of its dependency number `next`
    | Running
    | Recording(status: Status, text: string)  // result written, stage entry and event still to come
    | Done(status: Status)

  datatype Stage = Stage(role: string, status: Status, text: string)

  datatype State = State(phase: map<string, Phase>, results: map<string, string>,
                         events: set<string>, stages: seq<Stage>)

  type Oracle = map<string, Outcome>

  predicate IsError(text: string) {
    "ERROR:" <= text
  }

  function FinalText(outcome: Outcome): string {
    match outcome
    case Output(text) => text
    case Raised(error) => "ERROR: " + error
    case LogRaised(_, error) => "ERROR: " + error
  }

  /** Whatever it returned or raised, the stage's result begins with "ERROR:". */
  predicate Errs(outcome: Outcome) {
    match outcome
    case Output(text) => |text| >= 6 && text[..6] == "ERROR:"
    case Raised(_) => true
    case LogRaised(_, _) => true
  }

  lemma ErrsIff(outcome: Outcome)
    ensures IsError(FinalText(outcome)) <==> Errs(outcome)
  {
    if outcome.Output? && |outcome.text| >= 6 && outcome.text[..6] == "ERROR:" {
      assert outcome.text == "ERROR:" + outcome.text[6..];
    }
  }

  function FinalStatus(outcome: Outcome): Status {
    if outcome.Output? then Completed else Error
  }

  function Join(names: seq<string>): string {
    if names == [] then "" else if |names| == 1 then names[0] else names[0] + ", " + Join(names[1..])
  }

  function SkipText(failed: seq<string>): string {
    "SKIPPED: upstream stage(s) " + Join(failed) + " failed; no valid input to process."
  }

  /** The dependencies whose result is an error, in the order they are listed. */
  function FailedDeps(deps: seq<string>, results: map<string, string>): seq<string> {
    if deps == [] then []
    else (if deps[0] in results && IsError(results[deps[0]]) then [deps[0]] else [])
         + FailedDeps(deps[1..], results)
  }

  // ---------------------------------------------------------------- steps

  function Initial(g: Graph): State {
    State(map r | r in g :: Waiting(0), map[], {}, [])
  }

  predicate Enabled(g: Graph, s: State, r: string) {
    && r in g && r in s.phase
    && match s.phase[r]
       case Waiting(i) => i < |g[r]| ==> g[r][i] !in g || g[r][i] in s.events
       case Running => true
       case Recording(_, _) => true
       case Done(_) => false
  }

  function Record(s: State, r: string, status: Status, text: string): State {
    s.(phase := s.phase[r := Recording(status, text)], results := s.results[r := text])
  }

  /** One move of the task of role r. A skipped stage returns without setting its event. */
  function Step(g: Graph, oracle: Oracle, s: State, r: string): State
    requires Enabled(g, s, r) && r in oracle
  {
    match s.phase[r]
    case Waiting(i) =>
      var failed := FailedDeps(g[r], s.results);
      if i < |g[r]| then s.(phase := s.phase[r := Waiting(i + 1)])
      else if failed != [] then
        State(s.phase[r := Done(Skipped)], s.results[r := SkipText(failed)], s.events,
              s.stages + [Stage(r, Skipped, SkipText(failed))])
      else s.(phase := s.phase[r := Running])
    case Running =>
      if oracle[r].Raised? then Record(s, r, Error, FinalText(oracle[r]))
      else Record(s, r, Completed, oracle[r].text)
    case Recording(status, text) =>
      if status.Completed? && oracle[r].LogRaised? then Record(s, r, Error, FinalText(oracle[r]))
      else State(s.phase[r := Done(status)], s.results, s.events + {r}, s.stages + [Stage(r, status, text)])
    case Done(_) => s
  }

  /** The state after the given schedule, or None when it moves a task that cannot move. */
  function Run(g: Graph, oracle: Oracle, s: State, schedule: seq<string>): RunResult
    decreases |schedule|
  {
    if schedule == [] then Reached(s)
    else if Enabled(g, s, schedule[0]) && schedule[0] in oracle
    then Run(g, oracle, Step(g, oracle, s, schedule[0]), schedule[1..])
    else Refused
  }

  datatype RunResult = Refused | Reached(state: State)

  /** No task can move: the run is over, or it hangs until the global timeout. */
  ghost predicate Quiescent(g: Graph, s: State) {
    forall r :: r in g ==> !Enabled(g, s, r)
  }

  // ---------------------------------------------------------------- the sequential reference

  /** How a stage ends: with a result, skipped, or waiting for ever. */
  datatype Fate = Ends(status: Status, text: string) | Hangs

  predicate SetsEvent(f: Fate) {
    f.Ends? && !f.status.Skipped?
  }

  function FateTexts(fates: map<string, Fate>): map<string, string> {
    map r | r in fates && fates[r].Ends? :: fates[r].text
  }

  function FateOf(deps: seq<string>, outcome: Outcome, before: map<string, Fate>): Fate {
    if exists d :: d in deps && d in before && !SetsEvent(before[d]) then Hangs
    else
      var failed := FailedDeps(deps, FateTexts(before));
      if failed != [] then Ends(Skipped, SkipText(failed))
      else Ends(FinalStatus(outcome), FinalText(outcome))
  }

  /** The stages run one at a time, in the sorted order. */
  function Fates(g: Graph, oracle: Oracle, order: seq<string>): (fates: map<string, Fate>)
    requires forall r :: r in order ==> r in g && r in oracle
    ensures fates.Keys == set r | r in order
  {
    if order == [] then map[]
    else
      var r := order[|order| - 1];
      var before := Fates(g, oracle, order[..|order| - 1]);
      assert order == order[..|order| - 1] + [r];
      before[r := FateOf(g[r], oracle[r], before)]
  }

  // ---------------------------------------------------------------- what every step keeps

  function FinalTexts(oracle: Oracle): map<string, string> {
    map r | r in oracle :: FinalText(oracle[r])
  }

  ghost predicate DepsFinished(g: Graph, s: State, r: string, count: nat)
    requires r in g && count <= |g[r]|
  {
    forall j :: 0 <= j < count ==> g[r][j] in s.events
  }

  function Failures(g: Graph, oracle: Oracle, r: string): seq<string>
    requires r in g
  {
    FailedDeps(g[r], FinalTexts(oracle))
  }

  ghost predicate RoleInvariant(g: Graph, oracle: Oracle, s: State, r: string)
    requires r in g && r in oracle && r in s.phase
  {
    match s.phase[r]
    case Waiting(i) => i <= |g[r]| && DepsFinished(g, s, r, i) && r !in s.events && r !in s.results
    case Running =>
      && DepsFinished(g, s, r, |g[r]|) && Failures(g, oracle, r) == []
      && r !in s.events && r !in s.results
    case Recording(status, text) =>
      && DepsFinished(g, s, r, |g[r]|) && Failures(g, oracle, r) == []
      && r !in s.events && r in s.results && s.results[r] == text
      && (if status.Completed? then !oracle[r].Raised? && text == oracle[r].text
          else status.Error? && !oracle[r].Output? && text == FinalText(oracle[r]))
    case Done(status) =>
      && DepsFinished(g, s, r, |g[r]|) && r in s.results
      && (r in s.events <==> !status.Skipped?)
      && (status.Skipped? <==> Failures(g, oracle, r) != [])
      && s.results[r] == (if status.Skipped? then SkipText(Failures(g, oracle, r)) else FinalText(oracle[r]))
      && (!status.Skipped? ==> status == FinalStatus(oracle[r]))
  }

  ghost predicate Invariant(g: Graph, oracle: Oracle, s: State) {
    && s.phase.Keys == g.Keys == oracle.Keys
    && s.events <= g.Keys
    && forall r :: r in g ==> RoleInvariant(g, oracle, s, r)
  }

  lemma {:induction false} SameFailures(deps: seq<string>, a: map<string, string>, b: map<string, string>)
    requires forall d :: d in deps ==> d in a && d in b && a[d] == b[d]
    ensures FailedDeps(deps, a) == FailedDeps(deps, b)
  {
    if deps != [] {
      SameFailures(deps[1..], a, b);
    }
  }

  /** Once its dependencies are finished, a task sees the failures the oracle decides. */
  lemma SeesFailures(g: Graph, oracle: Oracle, s: State, r: string)
    requires Closed(g) && Invariant(g, oracle, s) && r in g && DepsFinished(g, s, r, |g[r]|)
    ensures FailedDeps(g[r], s.results) == Failures(g, oracle, r)
  {
    forall d | d in g[r] ensures d in s.results && d in oracle && s.results[d] == FinalText(oracle[d]) {
      assert d in s.events;
      assert RoleInvariant(g, oracle, s, d);
    }
    SameFailures(g[r], s.results, FinalTexts(oracle));
  }

  lemma OthersKeepInvariant(g: Graph, oracle: Oracle, s: State, t: State, r: string, q: string)
    requires q in g && q in oracle && q in s.phase && q in t.phase && q != r
    requires t.phase[q] == s.phase[q] && s.events <= t.events <= s.events + {r}
    requires q in t.results <==> q in s.results
    requires q in s.results ==> t.results[q] == s.results[q]
    requires RoleInvariant(g, oracle, s, q)
    ensures RoleInvariant(g, oracle, t, q)
  {
  }

  lemma OthersStay(g: Graph, oracle: Oracle, s: State, r: string, q: string)
    requires Enabled(g, s, r) && r in oracle && q != r
    ensures var t := Step(g, oracle, s, r);
      && (q in t.phase <==> q in s.phase) && (q in s.phase ==> t.phase[q] == s.phase[q])
      && (q in t.results <==> q in s.results) && (q in s.results ==> t.results[q] == s.results[q])
      && s.events <= t.events <= s.events + {r}
  {
  }

  /** A task past its dependencies moves on: only its own state matters. */
  lemma WorkerKeepsInvariant(g: Graph, oracle: Oracle, s: State, r: string)
    requires r in g && r in oracle && r in s.phase && RoleInvariant(g, oracle, s, r)
    requires s.phase[r].Running? || s.phase[r].Recording?
    ensures RoleInvariant(g, oracle, Step(g, oracle, s, r), r)
  {
  }

  lemma AwaitKeepsInvariant(g: Graph, oracle: Oracle, s: State, r: string)
    requires r in oracle && Enabled(g, s, r) && RoleInvariant(g, oracle, s, r) && s.phase[r].Waiting?
    requires forall d :: d in g[r] ==> d in g
    requires s.phase[r].next == |g[r]| ==> FailedDeps(g[r], s.results) == Failures(g, oracle, r)
    ensures RoleInvariant(g, oracle, Step(g, oracle, s, r), r)
  {
  }

  lemma MoverKeepsInvariant(g: Graph, oracle: Oracle, s: State, r: string)
    requires Closed(g) && Invariant(g, oracle, s) && Enabled(g, s, r)
    ensures RoleInvariant(g, oracle, Step(g, oracle, s, r), r)
  {
    assert RoleInvariant(g, oracle, s, r);
    if s.phase[r].Waiting? {
      if s.phase[r].next == |g[r]| {
        SeesFailures(g, oracle, s, r);
      }
      forall d | d in g[r] ensures d in g {
        assert Edge(g, r, d);
      }
      AwaitKeepsInvariant(g, oracle, s, r);
    } else {
      WorkerKeepsInvariant(g, oracle, s, r);
    }
  }

  lemma OtherKeepsInvariant(g: Graph, oracle: Oracle, s: State, r: string, q: string)
    requires Invariant(g, oracle, s) && Enabled(g, s, r) && q in g && q != r
    ensures q in Step(g, oracle, s, r).phase && RoleInvariant(g, oracle, Step(g, oracle, s, r), q)
  {
    assert RoleInvariant(g, oracle, s, q);
    OthersStay(g, oracle, s, r, q);
    OthersKeepInvariant(g, oracle, s, Step(g, oracle, s, r), r, q);
  }

  lemma StepKeepsKeys(g: Graph, oracle: Oracle, s: State, r: string)
    requires Enabled(g, s, r) && r in oracle
    ensures Step(g, oracle, s, r).phase.Keys == s.phase.Keys
    ensures Step(g, oracle, s, r).events <= s.events + {r}
  {
  }

  lemma StepKeepsInvariant(g: Graph, oracle: Oracle, s: State, r: string)
    requires Closed(g) && Invariant(g, oracle, s) && Enabled(g, s, r)
    ensures Invariant(g, oracle, Step(g, oracle, s, r))
  {
    var t := Step(g, oracle, s, r);
    StepKeepsKeys(g, oracle, s, r);
    forall q | q in g ensures RoleInvariant(g, oracle, t, q) {
      if q == r {
        MoverKeepsInvariant(g, oracle, s, r);
      } else {
        OtherKeepsInvariant(g, oracle, s, r, q);
      }
    }
  }

  lemma {:induction false} RunKeepsInvariant(g: Graph, oracle: Oracle, s: State, schedule: seq<string>)
    requires Closed(g) && Invariant(g, oracle, s) && Run(g, oracle, s, schedule).Reached?
    ensures Invariant(g, oracle, Run(g, oracle, s, schedule).state)
    decreases |schedule|
  {
    if schedule != [] {
      StepKeepsInvariant(g, oracle, s, schedule[0]);
      RunKeepsInvariant(g, oracle, Step(g, oracle, s, schedule[0]), schedule[1..]);
    }
  }

  // ---------------------------------------------------------------- every schedule, one ending

  ghost predicate Matches(s: State, r: string, fate: Fate) {
    && r in s.phase
    && if fate.Hangs? then s.phase[r].Waiting?
       else s.phase[r] == Done(fate.status) && r in s.results && s.results[r] == fate.text
  }

  ghost predicate OrdersAll(g: Graph, order: seq<string>) {
    IsTopological(g, order) && forall r :: r in order <==> r in g
  }

  /** The order the sort has produced for this pipeline. */
  ghost predicate Sorted(g: Graph, oracle: Oracle, order: seq<string>) {
    Closed(g) && OrdersAll(g, order) && Distinct(order) && oracle.Keys == g.Keys
  }

  /** The schedule leads from the start to t, and there no task can move. */
  ghost predicate EndsIn(g: Graph, oracle: Oracle, schedule: seq<string>, t: State) {
    Run(g, oracle, Initial(g), schedule) == Reached(t) && Quiescent(g, t)
  }

  /** What the orchestrator's sort returns is such an order. */
  lemma SortIsSorted(pipeline: seq<string>, deps: Graph, oracle: Oracle, order: seq<string>)
    requires Distinct(pipeline) && oracle.Keys == Elements(pipeline)
    requires Closed(PipelineGraph(pipeline, deps)) && IsTopological(PipelineGraph(pipeline, deps), order)
    requires multiset(order) == multiset(pipeline)
    ensures Sorted(PipelineGraph(pipeline, deps), oracle, order)
  {
    forall r ensures r in order <==> r in pipeline {
      assert r in order <==> r in multiset(order);
      assert r in pipeline <==> r in multiset(pipeline);
    }
    PermutationOfDistinct(pipeline, order);
  }

  lemma DepsComeEarlier(g: Graph, order: seq<string>, k: nat)
    requires OrdersAll(g, order) && k < |order|
    ensures order[k] in g && forall d :: d in g[order[k]] ==> d in order[..k]
  {
    forall d | d in g[order[k]] ensures d in order[..k] {
      assert Edge(g, order[k], d);
      var i :| 0 <= i < |order| && order[i] == d;
      assert order[..k][i] == d;
    }
  }

  lemma QuiescentRoleMatches(g: Graph, oracle: Oracle, s: State, r: string, before: map<string, Fate>)
    requires Closed(g) && Invariant(g, oracle, s) && Quiescent(g, s) && r in g
    requires forall d :: d in g[r] ==> d in before && Matches(s, d, before[d])
    ensures Matches(s, r, FateOf(g[r], oracle[r], before))
  {
    assert RoleInvariant(g, oracle, s, r) && !Enabled(g, s, r);
    forall d | d in g[r] ensures d in g && (SetsEvent(before[d]) <==> d in s.events) {
      assert Edge(g, r, d);
      assert RoleInvariant(g, oracle, s, d);
    }
    if d :| d in g[r] && !SetsEvent(before[d]) {
      assert d !in s.events;
    } else {
      SeesFate(g, oracle, s, r, before);
    }
  }

  /** With all its dependencies finished, a role that cannot move has ended as they decide. */
  lemma SeesFate(g: Graph, oracle: Oracle, s: State, r: string, before: map<string, Fate>)
    requires Closed(g) && Invariant(g, oracle, s) && r in g && !Enabled(g, s, r)
    requires forall d :: d in g[r] ==> d in before && Matches(s, d, before[d]) && SetsEvent(before[d]) && d in s.events
    ensures Matches(s, r, FateOf(g[r], oracle[r], before))
  {
    assert RoleInvariant(g, oracle, s, r);
    SeesFailures(g, oracle, s, r);
    SameFailures(g[r], FateTexts(before), s.results);
  }

  lemma {:induction false} PrefixMatches(g: Graph, oracle: Oracle, order: seq<string>, s: State, k: nat)
    requires Closed(g) && Invariant(g, oracle, s) && Quiescent(g, s)
    requires OrdersAll(g, order) && k <= |order|
    ensures forall r :: r in order[..k] ==> Matches(s, r, Fates(g, oracle, order[..k])[r])
    decreases k
  {
    if k > 0 {
      var r := order[k - 1];
      assert order[..k] == order[..k - 1] + [r];
      assert order[..k][..k - 1] == order[..k - 1];
      PrefixMatches(g, oracle, order, s, k - 1);
      DepsComeEarlier(g, order, k - 1);
      QuiescentRoleMatches(g, oracle, s, r, Fates(g, oracle, order[..k - 1]));
    }
  }

  /**
   Whatever the schedule, when no task can move any more every stage has ended as it does
   when the stages run one at a time in the sorted order.
   */
  lemma EveryScheduleEndsAlike(g: Graph, oracle: Oracle, order: seq<string>, schedule: seq<string>, t: State)
    requires Sorted(g, oracle, order) && EndsIn(g, oracle, schedule, t)
    ensures forall r :: r in g ==> Matches(t, r, Fates(g, oracle, order)[r])
  {
    StartsInvariant(g, oracle);
    RunKeepsInvariant(g, oracle, Initial(g), schedule);
    assert order[..|order|] == order;
    PrefixMatches(g, oracle, order, t, |order|);
  }

  lemma StartsInvariant(g: Graph, oracle: Oracle)
    requires oracle.Keys == g.Keys
    ensures Invariant(g, oracle, Initial(g))
  {
  }

  // ---------------------------------------------------------------- who hangs, who completes

  lemma OneMoreRole(g: Graph, oracle: Oracle, order: seq<string>, k: nat)
    requires Distinct(order) && forall r :: r in order ==> r in g && r in oracle
    requires k < |order|
    ensures order[k] !in order[..k]
    ensures forall r :: r in order[..k] ==>
      r in order[..k + 1] && Fates(g, oracle, order[..k + 1])[r] == Fates(g, oracle, order[..k])[r]
  {
    assert order[..k + 1] == order[..k] + [order[k]];
    assert order[..k + 1][..k] == order[..k];
  }

  lemma {:induction false} FatesFollowDeps(g: Graph, oracle: Oracle, order: seq<string>, k: nat, r: string)
    requires Distinct(order) && forall r :: r in order ==> r in g && r in oracle
    requires k <= |order| && r in order[..k]
    ensures Fates(g, oracle, order[..k])[r] == Fates(g, oracle, order)[r]
    decreases |order| - k
  {
    if k < |order| {
      OneMoreRole(g, oracle, order, k);
      FatesFollowDeps(g, oracle, order, k + 1, r);
    } else {
      assert order[..k] == order;
    }
  }

  lemma SameFate(deps: seq<string>, outcome: Outcome, a: map<string, Fate>, b: map<string, Fate>)
    requires forall d :: d in deps ==> d in a && d in b && a[d] == b[d]
    ensures FateOf(deps, outcome, a) == FateOf(deps, outcome, b)
  {
    if forall d :: d in deps ==> SetsEvent(a[d]) {
      SameFailures(deps, FateTexts(a), FateTexts(b));
    }
  }

  lemma {:induction false} PrefixFate(g: Graph, oracle: Oracle, order: seq<string>, k: nat)
    requires Sorted(g, oracle, order) && k < |order|
    ensures Fates(g, oracle, order[..k + 1])[order[k]]
         == FateOf(g[order[k]], oracle[order[k]], Fates(g, oracle, order[..k]))
  {
    assert order[..k + 1] == order[..k] + [order[k]] && order[..k + 1][..k] == order[..k];
  }

  /** The reference meets the equation that decides each fate from those of the dependencies. */
  lemma FateEquation(g: Graph, oracle: Oracle, order: seq<string>, r: string)
    requires Sorted(g, oracle, order) && r in g
    ensures Fates(g, oracle, order)[r] == FateOf(g[r], oracle[r], Fates(g, oracle, order))
    ensures forall d :: d in g[r] ==> d in Fates(g, oracle, order)
  {
    var all := Fates(g, oracle, order);
    var k :| 0 <= k < |order| && order[k] == r;
    var before := Fates(g, oracle, order[..k]);
    PrefixFate(g, oracle, order, k);
    assert order[..k + 1][k] == r;
    FatesFollowDeps(g, oracle, order, k + 1, r);
    DepsComeEarlier(g, order, k);
    forall d | d in g[r] ensures d in before && d in all && before[d] == all[d] {
      FatesFollowDeps(g, oracle, order, k, d);
    }
    SameFate(g[r], oracle[r], before, all);
  }

  ghost predicate ReferenceFor(g: Graph, oracle: Oracle, order: seq<string>, fates: map<string, Fate>) {
    Sorted(g, oracle, order) && fates == Fates(g, oracle, order)
  }

  predicate IsSkip(f: Fate) {
    f.Ends? && f.status.Skipped?
  }

  lemma {:induction false} NoneFailed(deps: seq<string>, texts: map<string, string>)
    ensures FailedDeps(deps, texts) == [] <==> forall d :: d in deps && d in texts ==> !IsError(texts[d])
  {
    if deps != [] {
      NoneFailed(deps[1..], texts);
      assert deps == [deps[0]] + deps[1..];
    }
  }

  lemma {:induction false} HangsBehind(g: Graph, oracle: Oracle, order: seq<string>, fates: map<string, Fate>,
                                       w: seq<string>)
    requires ReferenceFor(g, oracle, order, fates)
    requires |w| >= 2 && IsWalk(g, w) && w[|w| - 1] in fates && !SetsEvent(fates[w[|w| - 1]])
    ensures w[0] in g && fates[w[0]].Hangs?
    decreases |w|
  {
    assert Edge(g, w[0], w[1]);
    if |w| > 2 {
      HangsBehind(g, oracle, order, fates, w[1..]);
    }
    FateEquation(g, oracle, order, w[0]);
  }

  lemma {:induction false} HangsForASkip(g: Graph, oracle: Oracle, order: seq<string>, fates: map<string, Fate>,
                                         k: nat) returns (cause: string)
    requires ReferenceFor(g, oracle, order, fates)
    requires k < |order| && fates[order[k]].Hangs?
    ensures cause in g && DependsOn(g, order[k], cause) && IsSkip(fates[cause])
    decreases k
  {
    var r := order[k];
    FateEquation(g, oracle, order, r);
    var d :| d in g[r] && d in fates && !SetsEvent(fates[d]);
    assert Edge(g, r, d);
    EdgeDepends(g, r, d);
    cause := d;
    if fates[d].Hangs? {
      var i :| 0 <= i < |order| && order[i] == d;
      cause := HangsForASkip(g, oracle, order, fates, i);
      DependsTransitive(g, r, d, cause);
    }
  }

  /** r depends, through any number of steps, on one of the given roles. */
  ghost predicate BehindAny(g: Graph, r: string, roles: set<string>) {
    exists k :: k in roles && DependsOn(g, r, k)
  }

  lemma HangsIffBehindASkip(g: Graph, oracle: Oracle, order: seq<string>, fates: map<string, Fate>, r: string)
    requires ReferenceFor(g, oracle, order, fates) && r in g
    ensures fates[r].Hangs? <==> BehindAny(g, r, set k | k in fates && IsSkip(fates[k]))
  {
    var skipped := set k | k in fates && IsSkip(fates[k]);
    if fates[r].Hangs? {
      var i :| 0 <= i < |order| && order[i] == r;
      var k := HangsForASkip(g, oracle, order, fates, i);
      assert k in skipped;
    }
    if k :| k in skipped && DependsOn(g, r, k) {
      var w :| Joins(g, w, r, k);
      HangsBehind(g, oracle, order, fates, w);
    }
  }

  /**
   When no task can move, the stages still waiting are exactly those that depend, through any
   number of steps, on a skipped stage. They wait for ever: only the global timeout ends the run.
   */
  lemma WaitsExactlyBehindSkipped(g: Graph, oracle: Oracle, order: seq<string>, schedule: seq<string>,
                                  t: State, r: string)
    requires Sorted(g, oracle, order) && EndsIn(g, oracle, schedule, t) && r in g
    ensures r in t.phase
    ensures t.phase[r].Waiting? <==> BehindAny(g, r, SkippedStages(t))
  {
    var fates := Fates(g, oracle, order);
    HangsIffBehindASkip(g, oracle, order, fates, r);
    EveryScheduleEndsAlike(g, oracle, order, schedule, t);
    SkipsAgree(g, oracle, order, schedule, t);
    assert Matches(t, r, fates[r]);
  }

  ghost function SkippedStages(t: State): set<string> {
    set k | k in t.phase && t.phase[k] == Done(Skipped)
  }

  lemma EndHasPhases(g: Graph, oracle: Oracle, schedule: seq<string>, t: State)
    requires Closed(g) && oracle.Keys == g.Keys && EndsIn(g, oracle, schedule, t)
    ensures t.phase.Keys == g.Keys
  {
    StartsInvariant(g, oracle);
    RunKeepsInvariant(g, oracle, Initial(g), schedule);
  }

  lemma SkipsAgree(g: Graph, oracle: Oracle, order: seq<string>, schedule: seq<string>, t: State)
    requires Sorted(g, oracle, order) && EndsIn(g, oracle, schedule, t)
    ensures var fates := Fates(g, oracle, order);
            SkippedStages(t) == set k | k in fates && IsSkip(fates[k])
  {
    var fates := Fates(g, oracle, order);
    EndHasPhases(g, oracle, schedule, t);
    assert fates.Keys == g.Keys;
    forall k | k in g ensures IsSkip(fates[k]) <==> t.phase[k] == Done(Skipped) {
      SkipAgrees(g, oracle, order, schedule, t, k);
    }
    SameSkips(t, fates);
  }

  lemma SameSkips(t: State, fates: map<string, Fate>)
    requires t.phase.Keys == fates.Keys
    requires forall k :: k in fates ==> (IsSkip(fates[k]) <==> t.phase[k] == Done(Skipped))
    ensures SkippedStages(t) == set k | k in fates && IsSkip(fates[k])
  {
  }

  lemma SkipAgrees(g: Graph, oracle: Oracle, order: seq<string>, schedule: seq<string>, t: State, k: string)
    requires Sorted(g, oracle, order) && EndsIn(g, oracle, schedule, t) && k in g
    ensures k in t.phase && k in Fates(g, oracle, order)
    ensures IsSkip(Fates(g, oracle, order)[k]) <==> t.phase[k] == Done(Skipped)
  {
    EveryScheduleEndsAlike(g, oracle, order, schedule, t);
    assert Matches(t, k, Fates(g, oracle, order)[k]);
  }

  /** No role raises, and none that another depends on returns an error text. */
  ghost predicate AllGood(g: Graph, oracle: Oracle) {
    && (forall r :: r in oracle ==> oracle[r].Output?)
    && (forall r, d :: Edge(g, r, d) && d in oracle ==> !Errs(oracle[d]))
  }

  predicate Completes(f: Fate) {
    f.Ends? && f.status.Completed?
  }

  lemma FateTextIsFinal(g: Graph, oracle: Oracle, order: seq<string>, fates: map<string, Fate>, r: string)
    requires ReferenceFor(g, oracle, order, fates) && r in g
    ensures SetsEvent(fates[r]) ==> fates[r] == Ends(FinalStatus(oracle[r]), FinalText(oracle[r]))
  {
    FateEquation(g, oracle, order, r);
  }

  lemma {:induction false} GoodRunCompletes(g: Graph, oracle: Oracle, order: seq<string>, fates: map<string, Fate>,
                                            k: nat)
    requires ReferenceFor(g, oracle, order, fates) && AllGood(g, oracle) && k < |order|
    ensures Completes(fates[order[k]])
    decreases k
  {
    var r := order[k];
    FateEquation(g, oracle, order, r);
    forall d | d in g[r] ensures SetsEvent(fates[d]) && !IsError(FateTexts(fates)[d]) {
      assert Edge(g, r, d);
      var i :| 0 <= i < |order| && order[i] == d;
      GoodRunCompletes(g, oracle, order, fates, i);
      FateTextIsFinal(g, oracle, order, fates, d);
      ErrsIff(oracle[d]);
    }
    NoneFailed(g[r], FateTexts(fates));
  }

  lemma CompletedNeedsGoodDeps(g: Graph, oracle: Oracle, order: seq<string>, fates: map<string, Fate>,
                               r: string, d: string)
    requires ReferenceFor(g, oracle, order, fates)
    requires r in g && Edge(g, r, d) && Completes(fates[r])
    ensures d in oracle && oracle[r].Output? && !Errs(oracle[d])
  {
    FateEquation(g, oracle, order, r);
    NoneFailed(g[r], FateTexts(fates));
    ErrsIff(oracle[d]);
    FateTextIsFinal(g, oracle, order, fates, d);
  }

  lemma AllCompleteMeansAllGood(g: Graph, oracle: Oracle, order: seq<string>, fates: map<string, Fate>)
    requires ReferenceFor(g, oracle, order, fates)
    requires forall r :: r in g ==> Completes(fates[r])
    ensures AllGood(g, oracle)
  {
    forall r | r in oracle ensures oracle[r].Output? {
      FateEquation(g, oracle, order, r);
    }
    forall r, d | Edge(g, r, d) && d in oracle ensures !Errs(oracle[d]) {
      CompletedNeedsGoodDeps(g, oracle, order, fates, r, d);
    }
  }

  lemma AllGoodMeansAllComplete(g: Graph, oracle: Oracle, order: seq<string>, fates: map<string, Fate>)
    requires ReferenceFor(g, oracle, order, fates) && AllGood(g, oracle)
    ensures forall r :: r in g ==> Completes(fates[r])
  {
    forall r | r in g ensures Completes(fates[r]) {
      var i :| 0 <= i < |order| && order[i] == r;
      GoodRunCompletes(g, oracle, order, fates, i);
    }
  }

  /** A run that hangs nowhere, skips nothing and fails nothing: exactly when all roles are good. */
  lemma AllCompleteIffAllGood(g: Graph, oracle: Oracle, order: seq<string>, schedule: seq<string>, t: State)
    requires Sorted(g, oracle, order) && EndsIn(g, oracle, schedule, t)
    ensures (forall r :: r in g ==> r in t.phase && t.phase[r] == Done(Completed)) <==> AllGood(g, oracle)
  {
    var fates := Fates(g, oracle, order);
    EveryScheduleEndsAlike(g, oracle, order, schedule, t);
    forall r | r in g ensures r in t.phase && (t.phase[r] == Done(Completed) <==> Completes(fates[r])) {
      assert Matches(t, r, fates[r]);
    }
    if AllGood(g, oracle) {
      AllGoodMeansAllComplete(g, oracle, order, fates);
    } else if forall r :: r in g ==> Completes(fates[r]) {
      AllCompleteMeansAllGood(g, oracle, order, fates);
    }
  }

  // ---------------------------------------------------------------- the outcome, from roles and dependencies alone

  /** Some dependency of k is bound to end with an error text, if it ends. */
  ghost predicate MeetsError(g: Graph, oracle: Oracle, k: string) {
    exists d :: Edge(g, k, d) && d in oracle && Errs(oracle[d])
  }

  /** r depends, through any number of steps, on a stage with such a dependency. */
  ghost predicate BehindError(g: Graph, oracle: Oracle, r: string) {
    exists k :: DependsOn(g, r, k) && MeetsError(g, oracle, k)
  }

  lemma SkipMeetsError(g: Graph, oracle: Oracle, order: seq<string>, fates: map<string, Fate>, k: string)
    requires ReferenceFor(g, oracle, order, fates) && k in g && IsSkip(fates[k])
    ensures MeetsError(g, oracle, k)
  {
    FateEquation(g, oracle, order, k);
    NoneFailed(g[k], FateTexts(fates));
    var d :| d in g[k] && d in FateTexts(fates) && IsError(FateTexts(fates)[d]);
    FateTextIsFinal(g, oracle, order, fates, d);
    ErrsIff(oracle[d]);
    assert Edge(g, k, d);
  }

  lemma ErrorStopsIt(g: Graph, oracle: Oracle, order: seq<string>, fates: map<string, Fate>, k: string)
    requires ReferenceFor(g, oracle, order, fates) && k in g && MeetsError(g, oracle, k)
    ensures fates[k].Hangs? || IsSkip(fates[k])
  {
    var d :| Edge(g, k, d) && d in oracle && Errs(oracle[d]);
    ErrsIff(oracle[d]);
    FateEquation(g, oracle, order, k);
    NoneFailed(g[k], FateTexts(fates));
    FateTextIsFinal(g, oracle, order, fates, d);
  }

  lemma HangsIffBehindError(g: Graph, oracle: Oracle, order: seq<string>, fates: map<string, Fate>, r: string)
    requires ReferenceFor(g, oracle, order, fates) && r in g
    ensures fates[r].Hangs? <==> BehindError(g, oracle, r)
  {
    if fates[r].Hangs? {
      var i :| 0 <= i < |order| && order[i] == r;
      var k := HangsForASkip(g, oracle, order, fates, i);
      SkipMeetsError(g, oracle, order, fates, k);
    }
    if k :| DependsOn(g, r, k) && MeetsError(g, oracle, k) {
      ErrorStopsIt(g, oracle, order, fates, k);
      var w :| Joins(g, w, r, k);
      HangsBehind(g, oracle, order, fates, w);
    }
  }

  lemma FateIs(g: Graph, oracle: Oracle, order: seq<string>, fates: map<string, Fate>, r: string)
    requires ReferenceFor(g, oracle, order, fates) && r in g
    ensures fates[r].Hangs? <==> BehindError(g, oracle, r)
    ensures IsSkip(fates[r]) <==> !BehindError(g, oracle, r) && MeetsError(g, oracle, r)
    ensures SetsEvent(fates[r]) ==> fates[r] == Ends(FinalStatus(oracle[r]), FinalText(oracle[r]))
  {
    HangsIffBehindError(g, oracle, order, fates, r);
    if IsSkip(fates[r]) {
      SkipMeetsError(g, oracle, order, fates, r);
    }
    if MeetsError(g, oracle, r) {
      ErrorStopsIt(g, oracle, order, fates, r);
    }
    FateTextIsFinal(g, oracle, order, fates, r);
  }

  function ErringIn(oracle: Oracle): string -> bool {
    d => d in oracle && Errs(oracle[d])
  }

  lemma {:induction false} FailedDepsAre(deps: seq<string>, oracle: Oracle)
    requires forall d :: d in deps ==> d in oracle
    ensures FailedDeps(deps, FinalTexts(oracle)) == Filter(deps, ErringIn(oracle))
  {
    if deps != [] {
      ErrsIff(oracle[deps[0]]);
      FailedDepsAre(deps[1..], oracle);
    }
  }

  /** Names are joined by a comma and a blank. */
  lemma {:induction false} JoinIs(names: seq<string>, last: string)
    ensures Join(names + [last]) == if names == [] then last else Join(names) + ", " + last
  {
    if names == [] {
      assert names + [last] == [last];
    } else {
      assert (names + [last])[1..] == names[1..] + [last];
      JoinIs(names[1..], last);
      if |names| > 1 {
        assert names[0] + ", " + (Join(names[1..]) + ", " + last) == names[0] + ", " + Join(names[1..]) + ", " + last;
      } else {
        assert names == [names[0]] && names[1..] == [];
      }
    }
  }

  /** The stage was skipped for these dependencies. */
  ghost predicate ReportsSkip(t: State, r: string, names: seq<string>) {
    r in t.results
    && t.results[r] == "SKIPPED: upstream stage(s) " + Join(names) + " failed; no valid input to process."
  }

  /** The stage ended with what its role returned, or with the error that was raised. */
  ghost predicate HasRun(t: State, r: string, outcome: Outcome) {
    && r in t.phase && r in t.results
    && match outcome
       case Output(text) => t.phase[r] == Done(Completed) && t.results[r] == text
       case Raised(error) => t.phase[r] == Done(Error) && t.results[r] == "ERROR: " + error
       case LogRaised(_, error) => t.phase[r] == Done(Error) && t.results[r] == "ERROR: " + error
  }

  /**
   How each stage ends under every schedule, read off the dependencies and what the roles do:
   waiting for ever behind a stage that meets an error, skipped when it meets one itself,
   and otherwise run to the end its role decides.
   */
  lemma StageEndsAs(g: Graph, oracle: Oracle, order: seq<string>, schedule: seq<string>, t: State, r: string)
    requires Sorted(g, oracle, order) && EndsIn(g, oracle, schedule, t) && r in g
    ensures r in t.phase
    ensures t.phase[r].Waiting? <==> BehindError(g, oracle, r)
    ensures t.phase[r] == Done(Skipped) <==> !BehindError(g, oracle, r) && MeetsError(g, oracle, r)
    ensures t.phase[r] == Done(Skipped) ==> ReportsSkip(t, r, Filter(g[r], ErringIn(oracle)))
    ensures !BehindError(g, oracle, r) && !MeetsError(g, oracle, r) ==> HasRun(t, r, oracle[r])
  {
    EndIsInvariant(g, oracle, schedule, t);
    SkipIsReported(g, oracle, t, r);
    EveryScheduleEndsAlike(g, oracle, order, schedule, t);
    FateIs(g, oracle, order, Fates(g, oracle, order), r);
    EndShows(t, r, Fates(g, oracle, order)[r], oracle[r]);
  }

  lemma EndIsInvariant(g: Graph, oracle: Oracle, schedule: seq<string>, t: State)
    requires Closed(g) && oracle.Keys == g.Keys && EndsIn(g, oracle, schedule, t)
    ensures Invariant(g, oracle, t)
  {
    StartsInvariant(g, oracle);
    RunKeepsInvariant(g, oracle, Initial(g), schedule);
  }

  lemma EndShows(t: State, r: string, fate: Fate, outcome: Outcome)
    requires Matches(t, r, fate) && (SetsEvent(fate) ==> fate == Ends(FinalStatus(outcome), FinalText(outcome)))
    ensures t.phase[r].Waiting? <==> fate.Hangs?
    ensures t.phase[r] == Done(Skipped) <==> IsSkip(fate)
    ensures SetsEvent(fate) ==> HasRun(t, r, outcome)
  {
  }

  lemma SkipIsReported(g: Graph, oracle: Oracle, s: State, r: string)
    requires Closed(g) && Invariant(g, oracle, s) && r in g
    ensures s.phase[r] == Done(Skipped) ==> ReportsSkip(s, r, Filter(g[r], ErringIn(oracle)))
  {
    assert RoleInvariant(g, oracle, s, r);
    forall d | d in g[r] ensures d in oracle {
      assert Edge(g, r, d);
    }
    FailedDepsAre(g[r], oracle);
  }

  /** Some stage waits for ever exactly when a stage depends on one that meets an error. */
  lemma HangsIff(g: Graph, oracle: Oracle, order: seq<string>, schedule: seq<string>, t: State)
    requires Sorted(g, oracle, order) && EndsIn(g, oracle, schedule, t)
    ensures (exists r :: r in g && r in t.phase && t.phase[r].Waiting?) <==>
      exists r, k :: Edge(g, r, k) && MeetsError(g, oracle, k)
  {
    if r :| r in g && r in t.phase && t.phase[r].Waiting? {
      StageEndsAs(g, oracle, order, schedule, t, r);
      var k :| DependsOn(g, r, k) && MeetsError(g, oracle, k);
      var w :| Joins(g, w, r, k);
      assert Edge(g, w[|w| - 2], w[|w| - 1]);
    }
    if r, k :| Edge(g, r, k) && MeetsError(g, oracle, k) {
      EdgeDepends(g, r, k);
      StageEndsAs(g, oracle, order, schedule, t, r);
      assert r in t.phase && t.phase[r].Waiting?;
    }
  }

  // ---------------------------------------------------------------- at every moment of every run

  lemma {:induction false} CompletedAlongWalk(g: Graph, oracle: Oracle, s: State, w: seq<string>)
    requires Closed(g) && Invariant(g, oracle, s)
    requires |w| >= 2 && IsWalk(g, w) && w[0] in g && s.phase[w[0]] == Done(Completed)
    ensures w[|w| - 1] in g && s.phase[w[|w| - 1]] == Done(Completed)
    decreases |w|
  {
    var r, d := w[0], w[1];
    assert Edge(g, r, d);
    assert RoleInvariant(g, oracle, s, r);
    assert d in s.events && RoleInvariant(g, oracle, s, d);
    NoneFailed(g[r], FinalTexts(oracle));
    assert !IsError(FinalText(oracle[d]));
    if |w| > 2 {
      CompletedAlongWalk(g, oracle, s, w[1..]);
    }
  }

  /** A completed stage has all it depends on, through any number of steps, completed. */
  lemma CompletedOnlyAfterDeps(g: Graph, oracle: Oracle, schedule: seq<string>, r: string, d: string)
    requires Closed(g) && oracle.Keys == g.Keys
    requires Run(g, oracle, Initial(g), schedule).Reached?
    requires var t := Run(g, oracle, Initial(g), schedule).state; r in t.phase && t.phase[r] == Done(Completed)
    requires DependsOn(g, r, d)
    ensures var t := Run(g, oracle, Initial(g), schedule).state; d in t.phase && t.phase[d] == Done(Completed)
  {
    RunKeepsInvariant(g, oracle, Initial(g), schedule);
    var w :| Joins(g, w, r, d);
    CompletedAlongWalk(g, oracle, Run(g, oracle, Initial(g), schedule).state, w);
  }

  // ---------------------------------------------------------------- runs are finite

  function RoleWork(g: Graph, s: State, r: string): nat {
    if r !in g || r !in s.phase then 0
    else match s.phase[r]
      case Waiting(i) => (if i <= |g[r]| then |g[r]| - i else 0) + 4
      case Running => 3
      case Recording(status, _) => if status.Completed? then 2 else 1
      case Done(_) => 0
  }

  function TotalWork(g: Graph, s: State, roles: seq<string>): nat {
    if roles == [] then 0 else RoleWork(g, s, roles[0]) + TotalWork(g, s, roles[1..])
  }

  lemma {:induction false} WorkElsewhere(g: Graph, s: State, t: State, roles: seq<string>)
    requires forall q :: q in roles ==> RoleWork(g, s, q) == RoleWork(g, t, q)
    ensures TotalWork(g, s, roles) == TotalWork(g, t, roles)
  {
    if roles != [] {
      WorkElsewhere(g, s, t, roles[1..]);
    }
  }

  lemma {:induction false} OneWorksLess(g: Graph, s: State, t: State, roles: seq<string>, r: string)
    requires r in roles && Distinct(roles)
    requires forall q :: q in roles && q != r ==> RoleWork(g, s, q) == RoleWork(g, t, q)
    requires RoleWork(g, t, r) < RoleWork(g, s, r)
    ensures TotalWork(g, t, roles) < TotalWork(g, s, roles)
  {
    if roles[0] == r {
      WorkElsewhere(g, s, t, roles[1..]);
    } else {
      OneWorksLess(g, s, t, roles[1..], r);
    }
  }

  lemma StepUsesWork(g: Graph, oracle: Oracle, order: seq<string>, s: State, r: string)
    requires Invariant(g, oracle, s) && Enabled(g, s, r) && Distinct(order) && r in order
    ensures TotalWork(g, Step(g, oracle, s, r), order) < TotalWork(g, s, order)
  {
    var t := Step(g, oracle, s, r);
    assert RoleInvariant(g, oracle, s, r);
    MoverWorksLess(g, oracle, s, r);
    forall q | q in order && q != r ensures RoleWork(g, s, q) == RoleWork(g, t, q) {
      OthersStay(g, oracle, s, r, q);
    }
    OneWorksLess(g, s, t, order, r);
  }

  lemma MoverWorksLess(g: Graph, oracle: Oracle, s: State, r: string)
    requires r in oracle && Enabled(g, s, r) && RoleInvariant(g, oracle, s, r)
    ensures RoleWork(g, Step(g, oracle, s, r), r) < RoleWork(g, s, r)
  {
  }

  /** Every run is finite: each move uses up work, and a role starts with its dependencies plus four. */
  lemma {:induction false} RunsAreBounded(g: Graph, oracle: Oracle, order: seq<string>, s: State, schedule: seq<string>)
    requires Closed(g) && Invariant(g, oracle, s) && Distinct(order) && forall r :: r in g ==> r in order
    requires Run(g, oracle, s, schedule).Reached?
    ensures |schedule| + TotalWork(g, Run(g, oracle, s, schedule).state, order) <= TotalWork(g, s, order)
    decreases |schedule|
  {
    if schedule != [] {
      var r := schedule[0];
      StepUsesWork(g, oracle, order, s, r);
      StepKeepsInvariant(g, oracle, s, r);
      RunsAreBounded(g, oracle, order, Step(g, oracle, s, r), schedule[1..]);
    }
  }

  /** Any state of a run can be run on until no task can move. */
  lemma {:induction false} RunEnds(g: Graph, oracle: Oracle, order: seq<string>, s: State)
    returns (schedule: seq<string>, t: State)
    requires Closed(g) && Invariant(g, oracle, s) && Distinct(order) && forall r :: r in g ==> r in order
    ensures Run(g, oracle, s, schedule) == Reached(t) && Quiescent(g, t)
    decreases TotalWork(g, s, order)
  {
    if Quiescent(g, s) {
      schedule, t := [], s;
    } else {
      var r :| r in g && Enabled(g, s, r);
      StepUsesWork(g, oracle, order, s, r);
      StepKeepsInvariant(g, oracle, s, r);
      var rest;
      rest, t := RunEnds(g, oracle, order, Step(g, oracle, s, r));
      schedule := [r] + rest;
      assert schedule[1..] == rest;
    }
  }

  function Row(): Graph {
    map["a" := [], "b" := ["a"], "c" := ["b"]]
  }

  lemma RowIsSorted(oracle: Oracle)
    requires oracle.Keys == {"a", "b", "c"}
    ensures Sorted(Row(), oracle, ["a", "b", "c"])
    ensures Edge(Row(), "b", "a") && Edge(Row(), "c", "b")
  {
    var order := ["a", "b", "c"];
    forall n, d | Edge(Row(), n, d) ensures Precedes(order, d, n) && d in Row() {
      assert (n == "b" && d == "a") || (n == "c" && d == "b");
      assert order[0] == "a" && order[1] == "b" && order[2] == "c";
    }
  }

  /** A run of a sorted pipeline ends with every stage waiting that lies behind an error. */
  lemma EndingRun(g: Graph, oracle: Oracle, order: seq<string>, r: string) returns (schedule: seq<string>, t: State)
    requires Sorted(g, oracle, order) && r in g && BehindError(g, oracle, r)
    ensures EndsIn(g, oracle, schedule, t) && r in t.phase && t.phase[r].Waiting?
  {
    StartsInvariant(g, oracle);
    schedule, t := RunEnds(g, oracle, order, Initial(g));
    StageEndsAs(g, oracle, order, schedule, t, r);
  }

  /** Three roles in a row, the first of which raises: the run ends with the third waiting. */
  lemma HangingRun() returns (schedule: seq<string>, t: State)
    ensures var oracle := map["a" := Raised("x"), "b" := Output("y"), "c" := Output("z")];
            EndsIn(Row(), oracle, schedule, t) && "c" in t.phase && t.phase["c"].Waiting?
  {
    var oracle := map["a" := Raised("x"), "b" := Output("y"), "c" := Output("z")];
    RowIsSorted(oracle);
    assert MeetsError(Row(), oracle, "b");
    EdgeDepends(Row(), "c", "b");
    schedule, t := EndingRun(Row(), oracle, ["a", "b", "c"], "c");
  }

  // ---------------------------------------------------------------- the stage log

  function RolesOf(stages: seq<Stage>): seq<string> {
    seq(|stages|, i requires 0 <= i < |stages| => stages[i].role)
  }

  /** Each finished stage is logged once, with its final status and result, and no other is. */
  ghost predicate LogMatches(s: State) {
    && Distinct(RolesOf(s.stages))
    && (forall e :: e in s.stages ==>
         e.role in s.phase && s.phase[e.role] == Done(e.status) && e.role in s.results && s.results[e.role] == e.text)
    && (forall r :: r in s.phase && s.phase[r].Done? ==> r in RolesOf(s.stages))
  }

  lemma StepKeepsLog(g: Graph, oracle: Oracle, s: State, r: string)
    requires LogMatches(s) && Enabled(g, s, r) && r in oracle
    requires s.phase[r].Recording? ==> r in s.results && s.results[r] == s.phase[r].text
    ensures LogMatches(Step(g, oracle, s, r))
  {
    var t := Step(g, oracle, s, r);
    assert forall i :: 0 <= i < |s.stages| ==> s.stages[i] in s.stages && s.stages[i].role != r;
    if t.phase[r].Done? {
      var stage := t.stages[|s.stages|];
      assert t.stages == s.stages + [stage] && stage.role == r;
      LogGrows(s.stages, stage);
    }
  }

  lemma LogGrows(stages: seq<Stage>, stage: Stage)
    requires Distinct(RolesOf(stages)) && forall i :: 0 <= i < |stages| ==> stages[i].role != stage.role
    ensures RolesOf(stages + [stage]) == RolesOf(stages) + [stage.role] && Distinct(RolesOf(stages + [stage]))
  {
  }

  lemma {:induction false} RunKeepsLog(g: Graph, oracle: Oracle, s: State, schedule: seq<string>)
    requires Closed(g) && Invariant(g, oracle, s) && LogMatches(s) && Run(g, oracle, s, schedule).Reached?
    ensures LogMatches(Run(g, oracle, s, schedule).state)
    decreases |schedule|
  {
    if schedule != [] {
      assert RoleInvariant(g, oracle, s, schedule[0]);
      StepKeepsInvariant(g, oracle, s, schedule[0]);
      StepKeepsLog(g, oracle, s, schedule[0]);
      RunKeepsLog(g, oracle, Step(g, oracle, s, schedule[0]), schedule[1..]);
    }
  }
}
