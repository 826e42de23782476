/**
 Plan generation (app/planner.py): the offline plan, the repair of a plan proposed by the
 model, and the two-pass construction of a fresh task graph.
 */
module Planner {
  import opened Sequences
  import opened Texts
  import opened DependencyGraph
  import opened TaskDag
  import opened TaskPriority
  import opened TaskGraphObject
  import opened PlanDriver

  datatype Step = Step(title: string, dependsOn: seq<int>, priority: int)

  const MAX_STEPS := 16

  function Prefix<T>(s: seq<T>, n: nat): (r: seq<T>)
    ensures r <= s && |r| == if |s| <= n then |s| else n
    ensures forall x :: x in r ==> x in s
  {
    if |s| <= n then s else s[..n]
  }

  /** After self-dependencies are dropped, every edge leads to an earlier step. */
  ghost predicate PointsBack(steps: seq<Step>) {
    forall i, d :: 0 <= i < |steps| && d in steps[i].dependsOn && 0 <= d < |steps| ==> d <= i
  }

  // ---------------------------------------------------------------- the offline plan

  datatype Kind = Testing | Fixing | Building

  const INSPECT := Step("Inspect project architecture (intelligence index)", [], 2)

  /** A step of the template; what comes before the first sentence's step is `base` steps long. */
  function ItemStep(title: string, base: nat, kind: Kind): Step {
    match kind
    case Testing => Step(title, [base], 6)
    case Fixing => Step(title, [], 2)
    case Building => Step(title, [base], 4)
  }

  const VERIFY := "Run verification (build/test) and report actual result"

  /** `numbered` are the list items the regular expression found in the goal. */
  method HeuristicPlan(numbered: seq<string>, goal: string, hint: bool, kindOf: string -> Kind)
    returns (steps: seq<Step>)
    ensures steps != [] && |steps| <= 12 && PointsBack(steps)
    ensures forall i, d :: 0 <= i < |steps| && d in steps[i].dependsOn ==> 0 <= d < |steps|
    ensures 2 <= |numbered| <= 12 ==> IsChain(steps, numbered)
    ensures !(2 <= |numbered| <= 12) ==>
      var s := Sentences(goal, "");
      var items := if |s| < 3 then [Prefix(Strip(goal), 120)] else if |s| <= 10 then s else s[..10];
      IsTemplate(steps, items, if hint then 1 else 0, kindOf)
  {
    if 2 <= |numbered| <= 12 {
      return seq(|numbered|, i requires 0 <= i < |numbered| =>
        Step(Prefix(Strip(numbered[i]), 120), if i > 0 then [i - 1] else [], 5));
    }
    var chosen := ChosenSentences(goal);
    steps := [];
    var base := 0;
    if hint {
      steps := [INSPECT];
      base := 1;
    }
    for k := 0 to |chosen|
      invariant |steps| == base + k && StartsTemplate(steps, chosen[..k], base, kindOf)
    {
      TemplateGrows(steps, chosen, k, base, kindOf);
      var title := Prefix(chosen[k], 120);
      steps := steps + [ItemStep(title, base, kindOf(title))];
    }
    assert chosen[..|chosen|] == chosen;
    TemplateEnds(steps, chosen, base, kindOf);
    steps := steps + [Step(VERIFY, [|steps| - 1], 6)];
  }

  function ChosenSentences(goal: string): seq<string> {
    var sentences := Sentences(goal, "");
    if |sentences| >= 3 then Prefix(sentences, 10) else [Prefix(Strip(goal), 120)]
  }

  /** One step for each item, each after the one before. */
  ghost predicate IsChain(steps: seq<Step>, items: seq<string>) {
    |steps| == |items| && forall i :: 0 <= i < |steps| ==>
      steps[i] == Step(Prefix(Strip(items[i]), 120), if i > 0 then [i - 1] else [], 5)
  }

  /** The inspection if there is a hint, then one step for each item. */
  ghost predicate StartsTemplate(steps: seq<Step>, items: seq<string>, base: nat, kindOf: string -> Kind) {
    && |steps| == base + |items| && base <= 1
    && (forall i :: 0 <= i < base ==>
         steps[i] == Step("Inspect project architecture (intelligence index)", [], 2))
    && forall i :: base <= i < |steps| ==>
      var title := Prefix(items[i - base], 120); IsItem(steps[i], title, base, kindOf(title))
  }

  /** Tests come late and after the inspection, fixes first and at once, the rest in between. */
  predicate IsItem(step: Step, title: string, base: nat, kind: Kind) {
    && step.title == title
    && step.dependsOn == (if kind.Fixing? then [] else [base])
    && step.priority == if kind.Testing? then 6 else if kind.Fixing? then 2 else 4
  }

  /** The same, then a verification of the last of them. */
  ghost predicate IsTemplate(steps: seq<Step>, items: seq<string>, base: nat, kindOf: string -> Kind) {
    && steps != [] && StartsTemplate(steps[..|steps| - 1], items, base, kindOf)
    && steps[|steps| - 1] == Step("Run verification (build/test) and report actual result", [|steps| - 2], 6)
  }

  lemma TemplateGrows(steps: seq<Step>, items: seq<string>, k: nat, base: nat, kindOf: string -> Kind)
    requires k < |items| && StartsTemplate(steps, items[..k], base, kindOf)
    ensures var title := Prefix(items[k], 120);
      StartsTemplate(steps + [ItemStep(title, base, kindOf(title))], items[..k + 1], base, kindOf)
  {
    var longer := steps + [ItemStep(Prefix(items[k], 120), base, kindOf(Prefix(items[k], 120)))];
    forall i | base <= i < |longer|
      ensures IsItem(longer[i], Prefix(items[i - base], 120), base, kindOf(Prefix(items[i - base], 120)))
    {
      if i < |steps| {
        assert items[..k][i - base] == items[i - base];
      }
    }
  }

  /** Appending the verification completes the template, and the plan points back. */
  lemma TemplateEnds(steps: seq<Step>, items: seq<string>, base: nat, kindOf: string -> Kind)
    requires StartsTemplate(steps, items, base, kindOf) && items != []
    ensures var all := steps + [Step(VERIFY, [|steps| - 1], 6)];
      && IsTemplate(all, items, base, kindOf) && PointsBack(all)
      && forall i, d :: 0 <= i < |all| && d in all[i].dependsOn ==> 0 <= d < |all|
  {
    var all := steps + [Step(VERIFY, [|steps| - 1], 6)];
    assert all[..|steps|] == steps;
    forall i, d | 0 <= i < |all| && d in all[i].dependsOn ensures 0 <= d < |all| && d <= i {
      if i < |steps| {
        assert steps[i].dependsOn == [] || (steps[i].dependsOn == [base] && base <= i);
      }
    }
  }

  // ---------------------------------------------------------------- repairing a proposed plan

  /** A proposed dependency: a number, something else, or digits that int() refuses. */
  datatype Dep = Number(value: int) | NoDigits | Unreadable

  /** The entries of a step's depends_on, a lone number or text being one; a float, say, has none to go through. */
  datatype Deps = Entries(entries: seq<Dep>) | NoEntries

  /** A proposed priority: what int() makes of it, or why it makes nothing of it. */
  datatype Priority = Value(value: int) | NoNumber | Infinite

  /** A proposed step, which need not be an object or have a title; its files need not be a list. */
  datatype RawStep = NoObject | Raw(title: string, deps: Deps, priority: Priority, filesListed: bool)

  predicate Usable(s: RawStep) {
    s.Raw? && Strip(s.title) != ""
  }

  /** Repairing this step raises: a dropped one is never looked into. */
  predicate Refused(s: RawStep) {
    Usable(s) && RaisesOn(s)
  }

  predicate RaisesOn(s: RawStep)
    requires s.Raw?
  {
    s.deps.NoEntries? || Unreadable in s.deps.entries || s.priority.Infinite? || !s.filesListed
  }

  // A dependency written as text: any number of dashes may precede the digits, int() allows one.

  function Dashes(text: string): nat {
    if text != "" && text[0] == '-' then 1 + Dashes(text[1..]) else 0
  }

  function DepOf(text: string): Dep {
    var n := Dashes(text);
    var digits := if n <= |text| then text[n..] else "";
    if digits == "" || !AllDigits(digits) then NoDigits
    else if n == 0 then Number(ToNumber(digits))
    else if n == 1 then Number(-ToNumber(digits))
    else Unreadable
  }

  /** What a text of dashes and digits reads as; int() allows one dash. */
  lemma DepOfIs(digits: string)
    requires digits != "" && AllDigits(digits)
    ensures DepOf(digits) == Number(ToNumber(digits)) && DepOf("-" + digits) == Number(-ToNumber(digits))
    ensures DepOf("--" + digits) == Unreadable
  {
    assert digits[0] in digits;
    assert ("-" + digits)[1..] == digits && ("--" + digits)[1..] == "-" + digits && ("--" + digits)[2..] == digits;
    assert digits[0..] == digits;
    assert Dashes(digits) == 0 && Dashes("-" + digits) == 1 && Dashes("--" + digits) == 2;
  }

  /** One step that depends on "--5" is enough to lose the whole proposal. */
  lemma OddDependencyIsRefused()
    ensures !Readable([Raw("t", Entries([DepOf("--5")]), Value(5), true)])
  {
    var text := "--5";
    assert text[1..] == "-5" && text[1..][1..] == "5" && text[2..] == "5";
    assert Dashes("5") == 0 && Dashes("-5") == 1 && Dashes(text) == 2;
    assert DepOf(text) == Unreadable;
    var step := Raw("t", Entries([DepOf(text)]), Value(5), true);
    assert Strip("t") == "t" && Refused(step);
    assert step in [step];
  }

  predicate Readable(raw: seq<RawStep>) {
    forall s :: s in raw ==> !Refused(s)
  }

  /** The dependencies that are numbers below the step's own raw index. */
  function EarlierOnes(deps: seq<Dep>, i: nat): (r: seq<int>)
    ensures forall d :: d in r <==> 0 <= d < i && Number(d) in deps
  {
    if deps == [] then []
    else
      assert deps == [deps[0]] + deps[1..];
      (if deps[0].Number? && 0 <= deps[0].value < i then [deps[0].value] else []) + EarlierOnes(deps[1..], i)
  }

  function RepairStep(s: RawStep, i: nat): Step
    requires s.Raw?
  {
    Step(Prefix(Strip(s.title), 120), if s.deps.Entries? then Prefix(EarlierOnes(s.deps.entries, i), 6) else [],
         Clamp(if s.priority.Value? then s.priority.value else 5))
  }

  /** The raw indices, below n, of the steps that survive. */
  function Kept(raw: seq<RawStep>, n: nat): (kept: seq<nat>)
    requires n <= |raw|
    ensures |kept| <= n
    ensures forall p :: 0 <= p < |kept| ==> p <= kept[p] < n && Usable(raw[kept[p]])
    ensures forall p, q :: 0 <= p < q < |kept| ==> kept[p] < kept[q]
  {
    if n == 0 then [] else Kept(raw, n - 1) + if Usable(raw[n - 1]) then [n - 1] else []
  }

  lemma {:induction false} KeptHasAll(raw: seq<RawStep>, n: nat)
    requires n <= |raw|
    ensures forall i: nat :: i < n && Usable(raw[i]) ==> i in Kept(raw, n)
  {
    if n > 0 {
      KeptHasAll(raw, n - 1);
    }
  }

  function Repaired(raw: seq<RawStep>): seq<Step> {
    var kept := Prefix(Kept(raw, |raw|), MAX_STEPS);
    seq(|kept|, p requires 0 <= p < |kept| => RepairStep(raw[kept[p]], kept[p]))
  }

  datatype RepairResult = Raises | Plan(steps: seq<Step>)

  method RepairPlan(raw: seq<RawStep>) returns (result: RepairResult)
    ensures result == if Readable(raw) then Plan(Repaired(raw)) else Raises
  {
    var steps := [];
    for i := 0 to |raw|
      invariant steps == RepairedFirst(raw, i) && NoneRefused(raw, i)
    {
      var step := raw[i];
      if Usable(step) {
        if RaisesOn(step) {
          RefusedAt(raw, i);
          return Raises;
        }
        steps := steps + [RepairStep(step, i)];
      }
      NextRepaired(raw, i);
    }
    RepairedAll(raw);
    NoneRefusedAtAll(raw);
    return Plan(Prefix(steps, MAX_STEPS));
  }

  ghost predicate NoneRefused(raw: seq<RawStep>, n: nat)
    requires n <= |raw|
  {
    forall j :: 0 <= j < n ==> !Refused(raw[j])
  }

  lemma NoneRefusedAtAll(raw: seq<RawStep>)
    requires NoneRefused(raw, |raw|)
    ensures Readable(raw)
  {
  }

  lemma RefusedAt(raw: seq<RawStep>, i: nat)
    requires i < |raw| && Refused(raw[i])
    ensures !Readable(raw)
  {
    assert raw[i] in raw;
  }

  /** What makes a proposal raise. */
  lemma ReadableIff(raw: seq<RawStep>)
    ensures !Readable(raw) <==> exists s ::
      && s in raw && s.Raw? && Strip(s.title) != ""
      && (s.deps.NoEntries? || Unreadable in s.deps.entries || s.priority.Infinite? || !s.filesListed)
  {
    if s :| s in raw && Refused(s) {
    }
  }

  function RepairedFirst(raw: seq<RawStep>, n: nat): seq<Step>
    requires n <= |raw|
  {
    if n == 0 then [] else RepairedFirst(raw, n - 1) + RepairedAt(raw, n - 1)
  }

  function RepairedAt(raw: seq<RawStep>, i: nat): seq<Step>
    requires i < |raw|
  {
    if Usable(raw[i]) then [RepairStep(raw[i], i)] else []
  }

  lemma NextRepaired(raw: seq<RawStep>, i: nat)
    requires i < |raw|
    ensures RepairedFirst(raw, i + 1)
         == if Usable(raw[i]) then RepairedFirst(raw, i) + [RepairStep(raw[i], i)] else RepairedFirst(raw, i)
    ensures NoneRefused(raw, i) && !Refused(raw[i]) ==> NoneRefused(raw, i + 1)
  {
  }

  /** The first n raw steps, repaired, are the kept ones, each repaired. */
  lemma {:induction false} RepairedFirstAt(raw: seq<RawStep>, n: nat, p: nat)
    requires n <= |raw|
    ensures |RepairedFirst(raw, n)| == |Kept(raw, n)|
    ensures p < |Kept(raw, n)| ==> RepairedFirst(raw, n)[p] == RepairStep(raw[Kept(raw, n)[p]], Kept(raw, n)[p])
  {
    if n > 0 {
      RepairedFirstAt(raw, n - 1, p);
    }
  }

  lemma RepairedAll(raw: seq<RawStep>)
    ensures Prefix(RepairedFirst(raw, |raw|), MAX_STEPS) == Repaired(raw)
  {
    RepairedFirstAt(raw, |raw|, 0);
    var steps := Prefix(RepairedFirst(raw, |raw|), MAX_STEPS);
    assert |steps| == |Repaired(raw)|;
    forall p | 0 <= p < |steps| ensures steps[p] == Repaired(raw)[p] {
      RepairedFirstAt(raw, |raw|, p);
      RepairedEntry(raw, p);
    }
  }

  lemma RepairedEntry(raw: seq<RawStep>, p: nat)
    requires p < |Repaired(raw)|
    ensures p < |Kept(raw, |raw|)| && Repaired(raw)[p] == RepairStep(raw[Kept(raw, |raw|)[p]], Kept(raw, |raw|)[p])
  {
  }

  function EarlierThan(i: nat): Dep -> bool {
    (d: Dep) => d.Number? && 0 <= d.value < i
  }

  lemma {:induction false} EarlierOnesAre(deps: seq<Dep>, i: nat)
    ensures var earlier := Filter(deps, EarlierThan(i));
      && |EarlierOnes(deps, i)| == |earlier|
      && forall k :: 0 <= k < |earlier| ==> earlier[k] == Number(EarlierOnes(deps, i)[k])
  {
    if deps != [] {
      EarlierOnesAre(deps[1..], i);
    }
  }

  /** A repaired step, from the raw step at index i. */
  ghost predicate IsRepaired(step: Step, s: RawStep, i: nat) {
    && s.Raw?
    && (var title := Strip(s.title); step.title == if |title| <= 120 then title else title[..120])
    && (s.priority.Value? && 1 <= s.priority.value <= 7 ==> step.priority == s.priority.value)
    && (s.priority.Value? && s.priority.value < 1 ==> step.priority == 1)
    && (s.priority.Value? && s.priority.value > 7 ==> step.priority == 7)
    && (!s.priority.Value? ==> step.priority == 5)
    && (var earlier := if s.deps.Entries? then Filter(s.deps.entries, EarlierThan(i)) else [];
        && |step.dependsOn| == (if |earlier| <= 6 then |earlier| else 6)
        && forall k :: 0 <= k < |step.dependsOn| ==> earlier[k] == Number(step.dependsOn[k]))
  }

  /**
   The repaired steps are the first sixteen usable ones in order: the title stripped and cut to 120
   characters, the priority brought into 1..7, and the first six dependencies that are numbers below
   the step's raw index.
   */
  lemma RepairedIs(raw: seq<RawStep>, p: nat)
    requires p < |Repaired(raw)|
    ensures var kept := Kept(raw, |raw|);
      && |Repaired(raw)| == (if |kept| <= 16 then |kept| else 16)
      && (forall i: nat :: i < |raw| && raw[i].Raw? && Strip(raw[i].title) != "" ==> i in kept)
      && (forall q :: 0 <= q < |kept| ==> kept[q] < |raw| && raw[kept[q]].Raw? && Strip(raw[kept[q]].title) != "")
      && (forall q, r :: 0 <= q < r < |kept| ==> kept[q] < kept[r])
      && p < |kept| && IsRepaired(Repaired(raw)[p], raw[kept[p]], kept[p])
  {
    KeptHasAll(raw, |raw|);
    var i := Kept(raw, |raw|)[p];
    if raw[i].deps.Entries? {
      EarlierOnesAre(raw[i].deps.entries, i);
    }
  }

  // ---------------------------------------------------------------- the graph of a fresh plan

  /** The ids of the listed steps that the plan has. */
  function IdsOf(deps: seq<int>, ids: seq<string>): seq<string> {
    if deps == [] then []
    else
      var here := if 0 <= deps[0] < |ids| then [ids[deps[0]]] else [];
      here + IdsOf(deps[1..], ids)
  }

  function PlanNode(steps: seq<Step>, ids: seq<string>, times: seq<int>, i: nat, wired: bool): TaskNode
    requires i < |steps| == |ids| == |times|
  {
    TaskNode(ids[i], steps[i].title, Ready, Clamp(steps[i].priority),
             if wired then Without(IdsOf(steps[i].dependsOn, ids), ids[i]) else [], 0, times[i])
  }

  /** The plan with its first `added` steps, of which the first `wired` have their dependencies. */
  ghost predicate IsPlan(nodes: Nodes, steps: seq<Step>, ids: seq<string>, times: seq<int>, added: nat, wired: nat)
    requires added <= |steps| == |ids| == |times|
  {
    && (forall id :: id in nodes <==> id in ids[..added])
    && forall i :: 0 <= i < added ==> nodes[ids[i]] == PlanNode(steps, ids, times, i, i < wired)
  }

  method GeneratePlan(graph: TaskGraph, steps: seq<Step>, ids: seq<string>, times: seq<int>)
    requires graph.Valid() && graph.nodes == map[] && graph.order == []
    requires |steps| == |ids| == |times| && Distinct(ids)
    modifies graph
    ensures graph.Valid() && graph.order == ids
    ensures IsPlan(graph.nodes, steps, ids, times, |steps|, |steps|)
  {
    for i := 0 to |steps|
      invariant graph.Valid() && graph.order == ids[..i]
      invariant IsPlan(graph.nodes, steps, ids, times, i, 0)
    {
      AddStep(graph.nodes, steps, ids, times, i);
      OneMore(ids, i);
      graph.AddNode(ids[i], steps[i].title, [], steps[i].priority, times[i]);
    }
    assert ids[..|steps|] == ids;
    for i := 0 to |steps|
      invariant graph.Valid() && graph.order == ids
      invariant IsPlan(graph.nodes, steps, ids, times, |steps|, i)
    {
      var deps := IdsOf(steps[i].dependsOn, ids);
      WireStep(graph.nodes, steps, ids, times, i);
      if deps != [] {
        var ok := graph.UpdateDependsOn(ids[i], deps);
      }
    }
  }

  lemma AddStep(nodes: Nodes, steps: seq<Step>, ids: seq<string>, times: seq<int>, i: nat)
    requires i < |steps| == |ids| == |times| && Distinct(ids)
    requires IsPlan(nodes, steps, ids, times, i, 0)
    ensures ids[i] !in nodes
    ensures IsPlan(Apply(nodes, Add(ids[i], steps[i].title, [], steps[i].priority, times[i])),
                   steps, ids, times, i + 1, 0)
  {
    assert ids[..i + 1] == ids[..i] + [ids[i]];
    assert ids[i] !in ids[..i];
    var before := nodes[ids[i] := NewNode(ids[i], steps[i].title, [], steps[i].priority, times[i])];
    assert AllCompleted(before, []);
  }

  lemma WireStep(nodes: Nodes, steps: seq<Step>, ids: seq<string>, times: seq<int>, i: nat)
    requires i < |steps| == |ids| == |times| && Distinct(ids)
    requires IsPlan(nodes, steps, ids, times, |steps|, i)
    ensures ids[i] in nodes
    ensures var deps := IdsOf(steps[i].dependsOn, ids);
      IsPlan(if deps != [] then Apply(nodes, Rewire(ids[i], deps)) else nodes, steps, ids, times, |steps|, i + 1)
  {
    assert ids[i] in ids[..|steps|];
    assert nodes[ids[i]] == PlanNode(steps, ids, times, i, false);
    WiredEntry(nodes, steps, ids, times, i);
    ReplaceKeepsPlan(nodes, steps, ids, times, i);
  }

  lemma WiredEntry(nodes: Nodes, steps: seq<Step>, ids: seq<string>, times: seq<int>, i: nat)
    requires i < |steps| == |ids| == |times|
    requires ids[i] in nodes && nodes[ids[i]] == PlanNode(steps, ids, times, i, false)
    ensures var deps := IdsOf(steps[i].dependsOn, ids);
      (if deps != [] then Apply(nodes, Rewire(ids[i], deps)) else nodes)
        == nodes[ids[i] := PlanNode(steps, ids, times, i, true)]
  {
    if IdsOf(steps[i].dependsOn, ids) == [] {
      SameEntry(nodes, ids[i], PlanNode(steps, ids, times, i, true));
    }
  }

  lemma SameEntry(nodes: Nodes, id: string, n: TaskNode)
    requires id in nodes && nodes[id] == n
    ensures nodes[id := n] == nodes
  {
  }

  lemma ReplaceKeepsPlan(nodes: Nodes, steps: seq<Step>, ids: seq<string>, times: seq<int>, i: nat)
    requires i < |steps| == |ids| == |times| && Distinct(ids)
    requires IsPlan(nodes, steps, ids, times, |steps|, i)
    ensures IsPlan(nodes[ids[i] := PlanNode(steps, ids, times, i, true)], steps, ids, times, |steps|, i + 1)
  {
    assert ids[i] in ids[..|steps|];
    var after := nodes[ids[i] := PlanNode(steps, ids, times, i, true)];
    forall j | 0 <= j < |steps| ensures after[ids[j]] == PlanNode(steps, ids, times, j, j < i + 1) {
      if j != i {
        assert ids[j] != ids[i];
        assert nodes[ids[j]] == PlanNode(steps, ids, times, j, j < i);
      }
    }
  }

  function OtherStep(n: nat, i: nat): int -> bool {
    (d: int) => 0 <= d < n && d != i
  }

  lemma {:induction false} WiredIds(deps: seq<int>, ids: seq<string>, i: nat)
    requires Distinct(ids) && i < |ids|
    ensures var others := Filter(deps, OtherStep(|ids|, i));
      && |Without(IdsOf(deps, ids), ids[i])| == |others|
      && forall k :: 0 <= k < |others| ==>
        0 <= others[k] < |ids| && Without(IdsOf(deps, ids), ids[i])[k] == ids[others[k]]
  {
    if deps != [] {
      WiredIds(deps[1..], ids, i);
      var rest := IdsOf(deps[1..], ids);
      if 0 <= deps[0] < |ids| {
        assert IdsOf(deps, ids) == [ids[deps[0]]] + rest && ([ids[deps[0]]] + rest)[1..] == rest;
      } else {
        assert IdsOf(deps, ids) == [] + rest == rest;
      }
    }
  }

  /** A node of a fresh plan, from the step at index i: ready, and after the steps it names but for itself. */
  ghost predicate IsStepNode(n: TaskNode, steps: seq<Step>, ids: seq<string>, times: seq<int>, i: nat)
    requires i < |steps| == |ids| == |times|
  {
    && n.id == ids[i] && n.title == steps[i].title && n.status == Ready && n.attempts == 0 && n.createdAt == times[i]
    && n.priority == (if steps[i].priority < 1 then 1 else if steps[i].priority <= 7 then steps[i].priority else 7)
    && (var others := Filter(steps[i].dependsOn, OtherStep(|ids|, i));
        |n.dependsOn| == |others| && forall k :: 0 <= k < |others| ==>
          0 <= others[k] < |ids| && n.dependsOn[k] == ids[others[k]])
  }

  lemma PlanIs(nodes: Nodes, steps: seq<Step>, ids: seq<string>, times: seq<int>, i: nat)
    requires i < |steps| == |ids| == |times| && Distinct(ids)
    requires IsPlan(nodes, steps, ids, times, |steps|, |steps|)
    ensures ids[i] in nodes && IsStepNode(nodes[ids[i]], steps, ids, times, i)
  {
    assert ids[i] in ids[..|steps|];
    WiredIds(steps[i].dependsOn, ids, i);
  }

  // ---------------------------------------------------------------- plans have no cycle

  lemma PlanEdges(nodes: Nodes, steps: seq<Step>, ids: seq<string>, times: seq<int>, n: string, d: string)
    returns (i: nat, j: nat)
    requires |steps| == |ids| == |times| && Distinct(ids)
    requires IsPlan(nodes, steps, ids, times, |steps|, |steps|) && Edge(GraphOf(nodes), n, d)
    ensures i < |ids| && j < |ids| && ids[i] == n && ids[j] == d && i != j && j in steps[i].dependsOn
  {
    assert ids[..|steps|] == ids;
    i :| i < |ids| && ids[i] == n;
    j := IdFrom(steps[i].dependsOn, ids, d);
  }

  lemma {:induction false} IdFrom(deps: seq<int>, ids: seq<string>, id: string) returns (d: nat)
    requires id in IdsOf(deps, ids)
    ensures d in deps && d < |ids| && ids[d] == id
  {
    if 0 <= deps[0] < |ids| && ids[deps[0]] == id {
      d := deps[0];
    } else {
      d := IdFrom(deps[1..], ids, id);
    }
  }

  lemma {:induction false} IdInto(deps: seq<int>, ids: seq<string>, d: nat)
    requires d in deps && d < |ids|
    ensures ids[d] in IdsOf(deps, ids)
  {
    if deps[0] != d {
      IdInto(deps[1..], ids, d);
    }
  }

  /** A plan whose steps point back is a closed acyclic graph. */
  lemma PlanIsAcyclic(nodes: Nodes, steps: seq<Step>, ids: seq<string>, times: seq<int>)
    requires |steps| == |ids| == |times| && Distinct(ids) && PointsBack(steps)
    requires IsPlan(nodes, steps, ids, times, |steps|, |steps|)
    ensures Acyclic(GraphOf(nodes)) && Closed(GraphOf(nodes))
  {
    var g := GraphOf(nodes);
    forall n, d | Edge(g, n, d) ensures Precedes(ids, d, n) && d in g {
      var i, j := PlanEdges(nodes, steps, ids, times, n, d);
      assert ids[..|steps|] == ids;
    }
    TopologicalIsAcyclic(g, ids);
  }

  /** A proposal with no dropped step points back. */
  lemma NothingDroppedPointsBack(raw: seq<RawStep>)
    requires forall i :: 0 <= i < |raw| ==> Usable(raw[i])
    ensures PointsBack(Repaired(raw))
  {
    KeepsAll(raw, |raw|);
  }

  lemma {:induction false} KeepsAll(raw: seq<RawStep>, n: nat)
    requires n <= |raw| && forall i :: 0 <= i < |raw| ==> Usable(raw[i])
    ensures |Kept(raw, n)| == n && forall p :: 0 <= p < n ==> Kept(raw, n)[p] == p
  {
    if n > 0 {
      KeepsAll(raw, n - 1);
    }
  }

  // ---------------------------------------------------------------- dropped steps

  /** The same steps are dropped; titles, dependencies and priorities may differ. */
  ghost predicate SameShape(a: seq<RawStep>, b: seq<RawStep>) {
    |a| == |b| && forall i :: 0 <= i < |a| ==> (Usable(a[i]) <==> Usable(b[i]))
  }

  function PlannedCount(raw: seq<RawStep>): nat {
    |Prefix(Kept(raw, |raw|), MAX_STEPS)|
  }

  /** Before each kept step but the last, at most one step was dropped. */
  ghost predicate FewDropped(raw: seq<RawStep>) {
    forall p :: 0 <= p < PlannedCount(raw) - 1 ==> Kept(raw, |raw|)[p] <= p + 1
  }

  lemma {:induction false} SameShapeSameKept(a: seq<RawStep>, b: seq<RawStep>, n: nat)
    requires SameShape(a, b) && n <= |a|
    ensures Kept(a, n) == Kept(b, n)
  {
    if n > 0 {
      SameShapeSameKept(a, b, n - 1);
    }
  }

  lemma FewDroppedPointsBack(raw: seq<RawStep>)
    requires FewDropped(raw)
    ensures PointsBack(Repaired(raw))
  {
  }

  ghost function PlanOf(steps: seq<Step>, ids: seq<string>, times: seq<int>): Nodes
    requires |steps| == |ids| == |times| && Distinct(ids)
  {
    map i | 0 <= i < |ids| :: ids[i] := PlanNode(steps, ids, times, i, true)
  }

  lemma PlanOfIsPlan(steps: seq<Step>, ids: seq<string>, times: seq<int>)
    requires |steps| == |ids| == |times| && Distinct(ids)
    ensures IsPlan(PlanOf(steps, ids, times), steps, ids, times, |steps|, |steps|)
  {
    assert ids[..|steps|] == ids;
  }

  ghost predicate PlanAcyclic(raw: seq<RawStep>, ids: seq<string>, times: seq<int>) {
    && |Repaired(raw)| == |ids| == |times| && Distinct(ids)
    && Acyclic(GraphOf(PlanOf(Repaired(raw), ids, times)))
  }

  function Naming(title: string, d: int): RawStep {
    Raw(title, Entries([Number(d)]), NoNumber, true)
  }

  /** A proposal of the same shape in which two neighbouring steps depend on each other. */
  function Tangled(raw: seq<RawStep>, a: nat, b: nat, p: nat): seq<RawStep> {
    seq(|raw|, i requires 0 <= i < |raw| =>
      if !Usable(raw[i]) then NoObject
      else if i == a then Naming("a", p + 1)
      else if i == b then Naming("b", p)
      else Raw("c", Entries([]), NoNumber, true))
  }

  lemma TangledShape(raw: seq<RawStep>, a: nat, b: nat, p: nat)
    requires a < |raw| && b < |raw| && a != b && Usable(raw[a]) && Usable(raw[b])
    ensures var bad := Tangled(raw, a, b, p);
      && SameShape(raw, bad) && Readable(bad)
      && bad[a] == Naming("a", p + 1) && bad[b] == Naming("b", p)
  {
    assert Strip("a") == "a" && Strip("b") == "b" && Strip("c") == "c";
  }

  lemma TangledIsCyclic(raw: seq<RawStep>, ids: seq<string>, times: seq<int>, p: nat)
    requires |ids| == |times| == PlannedCount(raw) && Distinct(ids)
    requires p < PlannedCount(raw) - 1 && Kept(raw, |raw|)[p] > p + 1
    ensures var kept := Kept(raw, |raw|);
      var bad := Tangled(raw, kept[p], kept[p + 1], p);
      SameShape(raw, bad) && Readable(bad) && !PlanAcyclic(bad, ids, times)
  {
    var kept := Kept(raw, |raw|);
    var bad := Tangled(raw, kept[p], kept[p + 1], p);
    TangledShape(raw, kept[p], kept[p + 1], p);
    SameShapeSameKept(raw, bad, |raw|);
    EachOtherIsCyclic(bad, ids, times, p);
  }

  /** Two neighbouring steps that name each other, the first being far enough on. */
  lemma EachOtherIsCyclic(bad: seq<RawStep>, ids: seq<string>, times: seq<int>, p: nat)
    requires |ids| == |times| == PlannedCount(bad) && Distinct(ids)
    requires p < PlannedCount(bad) - 1 && Kept(bad, |bad|)[p] > p + 1
    requires var kept := Kept(bad, |bad|);
      bad[kept[p]] == Naming("a", p + 1) && bad[kept[p + 1]] == Naming("b", p)
    ensures !PlanAcyclic(bad, ids, times)
  {
    StepDependsOn(bad, p, p + 1);
    StepDependsOn(bad, p + 1, p);
    var steps := Repaired(bad);
    PlanOfIsPlan(steps, ids, times);
    MutualStepsAreCyclic(PlanOf(steps, ids, times), steps, ids, times, p);
  }

  lemma MutualStepsAreCyclic(nodes: Nodes, steps: seq<Step>, ids: seq<string>, times: seq<int>, p: nat)
    requires p + 1 < |steps| == |ids| == |times| && Distinct(ids)
    requires IsPlan(nodes, steps, ids, times, |steps|, |steps|)
    requires p + 1 in steps[p].dependsOn && p in steps[p + 1].dependsOn
    ensures !Acyclic(GraphOf(nodes))
  {
    PlanEdge(nodes, steps, ids, times, p, p + 1);
    PlanEdge(nodes, steps, ids, times, p + 1, p);
    DependsTransitive(GraphOf(nodes), ids[p], ids[p + 1], ids[p]);
  }

  lemma StepDependsOn(raw: seq<RawStep>, p: nat, d: nat)
    requires p < PlannedCount(raw) && d < Kept(raw, |raw|)[p]
    requires raw[Kept(raw, |raw|)[p]].Raw? && raw[Kept(raw, |raw|)[p]].deps == Entries([Number(d)])
    ensures d in Repaired(raw)[p].dependsOn
  {
    OnlyDependency(raw[Kept(raw, |raw|)[p]], Kept(raw, |raw|)[p], d);
  }

  lemma OnlyDependency(s: RawStep, i: nat, d: nat)
    requires s.Raw? && s.deps == Entries([Number(d)]) && d < i
    ensures d in RepairStep(s, i).dependsOn
  {
    assert EarlierOnes([], i) == [];
    assert EarlierOnes(s.deps.entries, i) == [d];
  }

  lemma PlanEdge(nodes: Nodes, steps: seq<Step>, ids: seq<string>, times: seq<int>, i: nat, j: nat)
    requires |steps| == |ids| == |times| && Distinct(ids) && i < |ids| && j < |ids| && i != j
    requires IsPlan(nodes, steps, ids, times, |steps|, |steps|) && j in steps[i].dependsOn
    ensures DependsOn(GraphOf(nodes), ids[i], ids[j])
  {
    IdInto(steps[i].dependsOn, ids, j);
    assert ids[i] in ids[..|steps|];
    assert nodes[ids[i]] == PlanNode(steps, ids, times, i, true);
    EdgeDepends(GraphOf(nodes), ids[i], ids[j]);
  }

  /**
   Dependencies are kept by raw index although steps are dropped. Whatever the readable
   dependencies say, the plan is acyclic exactly when at most one step was dropped before
   each kept step but the last.
   */
  lemma AcyclicIffFewDropped(raw: seq<RawStep>, ids: seq<string>, times: seq<int>)
    requires |ids| == |times| == PlannedCount(raw) && Distinct(ids)
    ensures FewDropped(raw) <==>
      forall other :: SameShape(raw, other) && Readable(other) ==> PlanAcyclic(other, ids, times)
  {
    if FewDropped(raw) {
      forall other | SameShape(raw, other) && Readable(other) ensures PlanAcyclic(other, ids, times) {
        SameShapeSameKept(raw, other, |raw|);
        FewDroppedPointsBack(other);
        PlanOfIsPlan(Repaired(other), ids, times);
        PlanIsAcyclic(PlanOf(Repaired(other), ids, times), Repaired(other), ids, times);
      }
    } else {
      var p :| 0 <= p < PlannedCount(raw) - 1 && Kept(raw, |raw|)[p] > p + 1;
      TangledIsCyclic(raw, ids, times, p);
    }
  }

  // ---------------------------------------------------------------- plans can be worked off

  /** A fresh plan that points back is worked off by the driver, one accepted round a step. */
  lemma PlanIsWorkedOff(nodes: Nodes, steps: seq<Step>, ids: seq<string>, times: seq<int>, picks: seq<string>)
    requires |steps| == |ids| == |times| && Distinct(ids) && PointsBack(steps)
    requires IsPlan(nodes, steps, ids, times, |steps|, |steps|) && DriverRun(nodes, ids, picks)
    ensures AllAccepted(nodes, picks) && |picks| <= |steps|
    ensures NoCandidate(Recomputed(AfterRun(nodes, picks))) <==> |picks| == |steps|
    ensures |picks| == |steps| ==>
      forall id :: id in AfterRun(nodes, picks) ==> AfterRun(nodes, picks)[id].status.Completed?
  {
    assert ids[..|steps|] == ids;
    PlanIsAcyclic(nodes, steps, ids, times);
    assert Unfinished(nodes) == Elements(ids);
    DistinctCardinality(ids);
    DriverIsNeverRefused(nodes, ids, picks);
    DriverFinishesEverything(nodes, ids, picks);
  }
}
