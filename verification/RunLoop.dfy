/**
 The agent's run loop (app/agent/base.py): step and token budgets, and the one verdict that
 reaches the journal. What each step does, and what it costs, is given from outside.
 */
module RunLoop {
  import opened Options

  datatype AgentState = Idle | Running | Finished | Errored

  /** Why a run stopped. The first three are set by a step that claims the task is finished. */
  datatype Reason = Unknown | FinalAnswer | Terminate | DonePattern | MaxSteps | TokenBudget | Denied | Failure

  predicate ClaimsDone(r: Reason) {
    r.FinalAnswer? || r.Terminate? || r.DonePattern?
  }

  /** How a step is left: normally, through an exception, or by cancellation. */
  datatype Exit = Normal | PermissionDenied | Raised | Cancelled

  /**
   What a step does to the run: it may claim the task is done, it may be left early, and it asks
   the model any number of times, each time for so many tokens.
   */
  datatype Outcome = Outcome(claim: Option<Reason>, exit: Exit, asks: seq<nat>)

  datatype Verdict = TaskComplete | TaskPartial(reason: Reason) | TaskFailed | TaskPaused

  function JournalVerdict(state: AgentState, reason: Reason): Verdict {
    match state
    case Finished => if ClaimsDone(reason) then TaskComplete else TaskPartial(reason)
    case Errored => TaskFailed   // or blocked, when the error needs the user
    case Idle => TaskPaused
    case Running => TaskPaused
  }

  /** The step ends the loop. */
  predicate Ends(o: Outcome) {
    o.claim.Some? || !o.exit.Normal?
  }

  // ---------------------------------------------------------------- tokens

  predicate Exhausted(limit: int, used: nat) {
    limit > 0 && used >= limit
  }

  function Total(asks: seq<nat>): nat {
    if asks == [] then 0 else Total(asks[..|asks| - 1]) + asks[|asks| - 1]
  }

  /** One of these asks, begun with so many tokens used, comes when the budget is exhausted. */
  predicate AsksExhausted(limit: int, used: nat, asks: seq<nat>) {
    asks != [] && (AsksExhausted(limit, used, asks[..|asks| - 1]) || Exhausted(limit, used + Total(asks[..|asks| - 1])))
  }

  /** That is so just when the last one does. */
  lemma {:induction false} AsksExhaustedIff(limit: int, used: nat, asks: seq<nat>)
    ensures AsksExhausted(limit, used, asks) <==>
      asks != [] && Exhausted(limit, used + Total(asks[..|asks| - 1]))
  {
    if asks != [] {
      AsksExhaustedIff(limit, used, asks[..|asks| - 1]);
    }
  }

  /** The budget of the model client (app/llm/token_tracker.py), shared by the loop and every ask. */
  class Budget {
    const limit: int
    var used: nat
    var graceUsed: bool

    constructor (limit: int)
      ensures this.limit == limit && used == 0 && !graceUsed
    {
      this.limit, used, graceUsed := limit, 0, false;
    }

    predicate IsExhausted()
      reads this
    {
      Exhausted(limit, used)
    }

    method UseGrace()
      modifies this`graceUsed
      ensures graceUsed == (old(graceUsed) || limit > 0)
    {
      if limit > 0 {
        graceUsed := true;
      }
    }

    /** An exhausted budget spends its grace on the next ask, if nobody has before. */
    method Ask(tokens: nat)
      modifies this
      ensures used == old(used) + tokens
      ensures graceUsed == (old(graceUsed) || old(used) >= limit > 0)
    {
      if IsExhausted() && !graceUsed {
        UseGrace();
      }
      used := used + tokens;
    }

    method AskAll(asks: seq<nat>)
      modifies this
      ensures used == old(used) + Total(asks)
      ensures graceUsed == (old(graceUsed) || AsksExhausted(limit, old(used), asks))
    {
      for i := 0 to |asks|
        invariant used == old(used) + Total(asks[..i])
        invariant graceUsed == (old(graceUsed) || AsksExhausted(limit, old(used), asks[..i]))
      {
        assert asks[..i + 1][..i] == asks[..i];
        Ask(asks[i]);
      }
      assert asks[..|asks|] == asks;
    }
  }

  // ---------------------------------------------------------------- the run

  /** The limits of a run, the budget as the run finds it, and how its steps behave, one after the other. */
  datatype Setting = Setting(maxSteps: int, limit: int, used: nat, grace: bool, outcomes: seq<Outcome>)

  /** How step k, from 1, behaves; a step past the list does nothing. */
  function Behaviour(outcomes: seq<Outcome>, k: nat): Outcome {
    if 1 <= k <= |outcomes| then outcomes[k - 1] else Outcome(None, Normal, [])
  }

  function StepOf(c: Setting, k: nat): Outcome {
    Behaviour(c.outcomes, k)
  }

  /** The tokens used, and whether the grace is spent, when k steps have been taken. */
  function UsedAfter(c: Setting, k: nat): nat {
    if k == 0 then c.used else UsedAfter(c, k - 1) + Total(StepOf(c, k).asks)
  }

  predicate ExhaustedAfter(c: Setting, k: nat) {
    Exhausted(c.limit, UsedAfter(c, k))
  }

  /** Step k asks the model once more after using up the tokens. */
  predicate Overdraws(c: Setting, k: nat)
    requires k > 0
  {
    AsksExhausted(c.limit, UsedAfter(c, k - 1), StepOf(c, k).asks)
  }

  predicate GraceAfter(c: Setting, k: nat) {
    if k == 0 then c.grace else GraceAfter(c, k - 1) || ExhaustedAfter(c, k - 1) || Overdraws(c, k)
  }

  class BaseAgent {
    const budget: Budget
    var state: AgentState
    var stepCount: nat
    var finishReason: Reason

    constructor (budget: Budget)
      ensures state == Idle && this.budget == budget
    {
      this.budget := budget;
      state, stepCount, finishReason := Idle, 0, Unknown;
    }

    /** One step: the claim, if any, is set before the step is left. */
    method Step(o: Outcome)
      requires state == Running && (o.claim.Some? ==> o.claim.value in {FinalAnswer, Terminate, DonePattern})
      modifies this`state, this`finishReason, budget
      ensures o.claim.Some? && (o.exit.Normal? || o.exit.Cancelled?) ==>
        state == Finished && finishReason == o.claim.value
      ensures o.claim.None? && (o.exit.Normal? || o.exit.Cancelled?) ==>
        state == Running && finishReason == old(finishReason)
      ensures o.exit.PermissionDenied? ==> state == Errored && finishReason == Denied
      ensures o.exit.Raised? ==> state == Errored && finishReason == Failure
      ensures AtTop(o, state.Running? && !o.exit.Cancelled?, JournalVerdict(state, finishReason))
      ensures budget.used == old(budget.used) + Total(o.asks)
      ensures budget.graceUsed == (old(budget.graceUsed) || AsksExhausted(budget.limit, old(budget.used), o.asks))
    {
      budget.AskAll(o.asks);
      if o.claim.Some? {
        finishReason, state := o.claim.value, Finished;
      }
      if o.exit.PermissionDenied? {
        finishReason, state := Denied, Errored;
      } else if o.exit.Raised? {
        finishReason, state := Failure, Errored;
      }
    }

    /** One turn of the loop, the next step behaving as o; the run may be found at its end instead. */
    method Turn(o: Outcome) returns (stopped: bool)
      requires state == Running && (o.claim.Some? ==> o.claim.value in {FinalAnswer, Terminate, DonePattern})
      modifies this, budget
      ensures stopped <==> Exhausted(budget.limit, old(budget.used)) && old(budget.graceUsed)
      ensures stopped ==> state == Finished && finishReason == TokenBudget && stepCount == old(stepCount)
      ensures !stopped ==> stepCount == old(stepCount) + 1
      ensures !stopped ==> AtTop(o, state.Running? && !o.exit.Cancelled?, JournalVerdict(state, finishReason))
      ensures !stopped ==> budget.used == old(budget.used) + Total(o.asks)
      ensures !stopped ==> budget.graceUsed == (old(budget.graceUsed) || Exhausted(budget.limit, old(budget.used))
                                                || AsksExhausted(budget.limit, old(budget.used), o.asks))
    {
      if budget.IsExhausted() {
        if budget.graceUsed {
          finishReason, state := TokenBudget, Finished;
          return true;
        }
        budget.UseGrace();
      }
      stepCount := stepCount + 1;
      Step(o);
      return false;
    }

    /** The run; returns the verdict the journal is given. */
    method Run(maxSteps: int, outcomes: seq<Outcome>) returns (verdict: Verdict)
      requires state == Idle
      requires forall o :: o in outcomes && o.claim.Some? ==> o.claim.value in {FinalAnswer, Terminate, DonePattern}
      modifies this, budget
      ensures Ended(Setting(maxSteps, budget.limit, old(budget.used), old(budget.graceUsed), outcomes),
                    stepCount, verdict)
      ensures verdict == JournalVerdict(state, finishReason)
    {
      ghost var c := Setting(maxSteps, budget.limit, budget.used, budget.graceUsed, outcomes);
      state, stepCount, finishReason := Running, 0, Unknown;
      var cancelled, stopped := false, false;
      while state == Running && stepCount < maxSteps && !cancelled && !stopped
        invariant Underway(c, stepCount)
        invariant stopped ==> state == Finished && finishReason == TokenBudget && StopsAt(c, stepCount)
        invariant !stopped ==> budget.used == UsedAfter(c, stepCount) && budget.graceUsed == GraceAfter(c, stepCount)
        invariant stepCount == 0 && !stopped ==> state == Running && !cancelled
        invariant stepCount > 0 && !stopped ==>
          AtTop(Behaviour(outcomes, stepCount), state.Running? && !cancelled, JournalVerdict(state, finishReason))
        decreases maxSteps - stepCount, !stopped
      {
        ghost var k := stepCount;
        stopped := Turn(Behaviour(outcomes, stepCount + 1));
        if !stopped {
          NextUnderway(c, k);
          cancelled := Behaviour(outcomes, stepCount).exit.Cancelled?;
        }
      }
      Concludes(c, stepCount, stopped, state.Running? && !cancelled, JournalVerdict(state, finishReason));
      if stepCount >= maxSteps && state == Running && !cancelled {
        finishReason, state := MaxSteps, Finished;
      }
      verdict := JournalVerdict(state, finishReason);
    }
  }

  /** The loop goes on after this step, or the step ended it with this verdict. */
  predicate AtTop(o: Outcome, going: bool, verdict: Verdict) {
    (going <==> !Ends(o)) && (Ends(o) ==> verdict == VerdictOf(o))
  }

  /** The verdict a step that ends the loop leads to. */
  function VerdictOf(o: Outcome): Verdict {
    if o.exit.PermissionDenied? || o.exit.Raised? then TaskFailed
    else if o.claim.Some? then TaskComplete
    else TaskPaused
  }

  /** Neither the limits nor an outcome has stopped the run before its step k. */
  ghost predicate Underway(c: Setting, k: nat) {
    && (k <= c.maxSteps || k == 0)
    && (forall i :: 1 <= i < k ==> !Ends(StepOf(c, i)))
    && (forall n :: 0 <= n < k ==> !(ExhaustedAfter(c, n) && GraceAfter(c, n)))
  }

  /** After k steps the run is found to have used up tokens and grace. */
  ghost predicate StopsAt(c: Setting, k: nat) {
    k < c.maxSteps && (k > 0 ==> !Ends(StepOf(c, k))) && ExhaustedAfter(c, k) && GraceAfter(c, k)
  }

  /** How the run stands when the loop is left. */
  lemma Concludes(c: Setting, steps: nat, stopped: bool, going: bool, verdict: Verdict)
    requires Underway(c, steps) && (going ==> !stopped && steps >= c.maxSteps)
    requires if stopped then StopsAt(c, steps) && verdict == TaskPartial(TokenBudget)
             else if steps > 0 then AtTop(StepOf(c, steps), going, verdict) else going
    ensures Ended(c, steps, if going then TaskPartial(MaxSteps) else verdict)
  {
  }

  lemma NextUnderway(c: Setting, k: nat)
    requires Underway(c, k) && k < c.maxSteps && (k > 0 ==> !Ends(StepOf(c, k)))
    requires !(ExhaustedAfter(c, k) && GraceAfter(c, k))
    ensures Underway(c, k + 1)
  {
  }

  /** What is true of a run that has taken `steps` steps and reached this verdict. */
  ghost predicate Ended(c: Setting, steps: nat, verdict: Verdict) {
    && Underway(c, steps)
    && if steps > 0 && Ends(StepOf(c, steps)) then verdict == VerdictOf(StepOf(c, steps))
       else if steps >= c.maxSteps then verdict == TaskPartial(MaxSteps)
       else verdict == TaskPartial(TokenBudget) && ExhaustedAfter(c, steps) && GraceAfter(c, steps)
  }

  // ---------------------------------------------------------------- when the grace is spent

  lemma {:induction false} StaysExhausted(c: Setting, m: nat, n: nat)
    requires m <= n && ExhaustedAfter(c, m)
    ensures ExhaustedAfter(c, n)
    decreases n
  {
    if m < n {
      StaysExhausted(c, m, n - 1);
    }
  }

  lemma OverdrawingExhausts(c: Setting, k: nat)
    requires k > 0 && Overdraws(c, k)
    ensures ExhaustedAfter(c, k)
  {
    AsksExhaustedIff(c.limit, UsedAfter(c, k - 1), StepOf(c, k).asks);
  }

  /** Tokens and grace are both gone after step n: nothing is asked of any step but the last. */
  predicate SpentAfter(c: Setting, n: nat) {
    ExhaustedAfter(c, n) && (c.grace || (n > 0 && (ExhaustedAfter(c, n - 1) || Overdraws(c, n))))
  }

  lemma {:induction false} SpentAfterIff(c: Setting, n: nat)
    ensures SpentAfter(c, n) <==> ExhaustedAfter(c, n) && GraceAfter(c, n)
    ensures GraceAfter(c, n) <==> c.grace || (n > 0 && (ExhaustedAfter(c, n - 1) || Overdraws(c, n)))
    decreases n
  {
    if n > 0 {
      SpentAfterIff(c, n - 1);
      if n > 1 && ExhaustedAfter(c, n - 2) {
        StaysExhausted(c, n - 2, n - 1);
      }
      if n > 1 && Overdraws(c, n - 1) {
        OverdrawingExhausts(c, n - 1);
      }
    }
  }

  lemma StaysSpent(c: Setting, m: nat, n: nat)
    requires m <= n && SpentAfter(c, m)
    ensures SpentAfter(c, n)
  {
    StaysExhausted(c, m, n);
    if m < n {
      StaysExhausted(c, m, n - 1);
    }
  }

  // ---------------------------------------------------------------- consequences

  /** Step k is taken: no earlier step ends the run, and tokens or grace last until then. */
  ghost predicate Taken(c: Setting, k: nat) {
    1 <= k <= c.maxSteps && (forall i :: 1 <= i < k ==> !Ends(StepOf(c, i))) && !SpentAfter(c, k - 1)
  }

  /** The steps of a run are exactly the steps that can be taken. */
  lemma TakenIff(c: Setting, steps: nat, verdict: Verdict, k: nat)
    requires Ended(c, steps, verdict)
    ensures Taken(c, k) <==> 1 <= k <= steps
  {
    if 1 <= k {
      SpentAfterIff(c, k - 1);
      if steps < k && SpentAfter(c, steps) {
        StaysSpent(c, steps, k - 1);
      }
    }
    SpentAfterIff(c, steps);
  }

  /** Step k claims that the task is done, and no exception follows. */
  ghost predicate ClaimStands(o: Outcome) {
    o.claim.Some? && (o.exit.Normal? || o.exit.Cancelled?)
  }

  /**
   A run is journaled as complete exactly when a step it can take claims the task is done and no
   exception follows in that step; never for want of steps or tokens. A claim made before a
   cancellation stands.
   */
  lemma CompleteIffClaimed(c: Setting, steps: nat, verdict: Verdict)
    requires Ended(c, steps, verdict)
    ensures verdict == TaskComplete <==> exists k: nat :: Taken(c, k) && ClaimStands(StepOf(c, k))
  {
    if verdict == TaskComplete {
      TakenIff(c, steps, verdict, steps);
      assert ClaimStands(StepOf(c, steps));
    }
    if k: nat :| Taken(c, k) && ClaimStands(StepOf(c, k)) {
      TakenIff(c, steps, verdict, k);
      assert k == steps;
    }
  }

  /** A run cancelled in the step that claims completion is journaled as complete. */
  lemma CancelledCanBeComplete()
    ensures Ended(Setting(5, 0, 0, false, [Outcome(Some(Terminate), Cancelled, [])]), 1, TaskComplete)
  {
    var c := Setting(5, 0, 0, false, [Outcome(Some(Terminate), Cancelled, [])]);
    assert Ends(StepOf(c, 1)) && VerdictOf(StepOf(c, 1)) == TaskComplete;
  }

  /**
   It is journaled as failed (or as blocked, when the error needs the user) exactly when a step it
   can take raises, and as paused exactly when one is cancelled without having claimed anything.
   */
  lemma FailedOrPausedIff(c: Setting, steps: nat, verdict: Verdict)
    requires Ended(c, steps, verdict)
    ensures verdict == TaskFailed <==>
      exists k: nat :: Taken(c, k) && (StepOf(c, k).exit.PermissionDenied? || StepOf(c, k).exit.Raised?)
    ensures verdict == TaskPaused <==>
      exists k: nat :: Taken(c, k) && StepOf(c, k).exit.Cancelled? && StepOf(c, k).claim.None?
  {
    TakenIff(c, steps, verdict, steps);
    if k: nat :| Taken(c, k) && (StepOf(c, k).exit.PermissionDenied? || StepOf(c, k).exit.Raised?) {
      TakenIff(c, steps, verdict, k);
      assert k == steps;
    }
    if k: nat :| Taken(c, k) && StepOf(c, k).exit.Cancelled? && StepOf(c, k).claim.None? {
      TakenIff(c, steps, verdict, k);
      assert k == steps;
    }
  }

  /** Step k can be taken and leaves the run going; 0 is the start. */
  ghost predicate GoesOnAfter(c: Setting, k: nat) {
    k == 0 || (Taken(c, k) && !Ends(StepOf(c, k)))
  }

  /** It is partial exactly when the steps, or the tokens and the grace, are used up with no step ending it. */
  lemma PartialIffSpent(c: Setting, steps: nat, verdict: Verdict)
    requires Ended(c, steps, verdict)
    ensures verdict == TaskPartial(MaxSteps) <==> exists k: nat :: c.maxSteps <= k && GoesOnAfter(c, k)
    ensures verdict == TaskPartial(TokenBudget) <==>
      exists k: nat :: k < c.maxSteps && GoesOnAfter(c, k) && SpentAfter(c, k)
  {
    TakenIff(c, steps, verdict, steps);
    SpentAfterIff(c, steps);
    if verdict.TaskPartial? {
      assert GoesOnAfter(c, steps);
    }
    if k: nat :| c.maxSteps <= k && GoesOnAfter(c, k) {
      TakenIff(c, steps, verdict, k);
    }
    if k: nat :| k < c.maxSteps && GoesOnAfter(c, k) && SpentAfter(c, k) {
      TakenIff(c, steps, verdict, k);
      TakenIff(c, steps, verdict, k + 1);
      assert k == steps;
    }
  }

  /** Once the tokens are used up at most one more step is taken, and none if the grace was spent before. */
  lemma AtMostOneStepAfterExhaustion(c: Setting, steps: nat, verdict: Verdict, n: nat)
    requires Ended(c, steps, verdict) && ExhaustedAfter(c, n)
    ensures steps <= if c.grace then n else n + 1
  {
    var last := if c.grace then n else n + 1;
    StaysExhausted(c, n, last);
    SpentAfterIff(c, last);
  }

  /** The tokens are first used up after step n, or were before the run when n is 0. */
  predicate FirstExhausted(c: Setting, n: nat) {
    ExhaustedAfter(c, n) && (n > 0 ==> !ExhaustedAfter(c, n - 1))
  }

  /**
   The promised step after the tokens are used up is taken exactly when limits and outcomes allow
   one, the grace was not spent before the run, and the step that used up the tokens did not ask
   the model again: such an ask spends the grace itself.
   */
  lemma GraceStepIff(c: Setting, steps: nat, verdict: Verdict, n: nat)
    requires Ended(c, steps, verdict) && FirstExhausted(c, n)
    ensures n < steps <==>
      && n < c.maxSteps && (forall i :: 1 <= i <= n ==> !Ends(StepOf(c, i)))
      && !c.grace && (n > 0 ==> !Overdraws(c, n))
  {
    TakenIff(c, steps, verdict, n + 1);
  }

  /** A step that reaches the limit with its first ask and then asks again: no grace step follows. */
  lemma GraceStepCanBeLost()
    ensures var c := Setting(5, 10, 0, false, [Outcome(None, Normal, [10, 1])]);
            FirstExhausted(c, 1) && Ended(c, 1, TaskPartial(TokenBudget))
  {
    var c := Setting(5, 10, 0, false, [Outcome(None, Normal, [10, 1])]);
    var asks: seq<nat> := [10, 1];
    assert asks[..1] == [10] && asks[..1][..0] == [];
    assert Total([10]) == Total([]) + 10 == 10;
    assert Total(asks) == 11;
    assert UsedAfter(c, 0) == 0 && UsedAfter(c, 1) == 11;
    assert AsksExhausted(10, 0, asks);
    assert Overdraws(c, 1) && GraceAfter(c, 1) && ExhaustedAfter(c, 1) && !ExhaustedAfter(c, 0);
  }
}
