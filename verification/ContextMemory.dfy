/**
 The conversation memory that trims itself (app/schema.py, class Memory): by message count,
 then by a token budget, without ever starting the kept window inside a tool-call block.
 */
module ContextMemory {
  import opened Sequences
  import opened ToolHistory
  import opened Texts

  const GUARD := 10000

  // ---------------------------------------------------------------- the token estimate

  function Words(s: string, inWord: bool): nat {
    if s == [] then 0
    else if IsSpace(s[0]) then Words(s[1..], false)
    else (if inWord then 0 else 1) + Words(s[1..], true)
  }

  function TotalChars(ms: seq<Message>): nat {
    if ms == [] then 0 else |ms[0].content| + TotalChars(ms[1..])
  }

  function TotalWords(ms: seq<Message>): nat {
    if ms == [] then 0 else Words(ms[0].content, false) + TotalWords(ms[1..])
  }

  /** A quarter of the characters or 1.3 per word, whichever is more. */
  function Estimate(ms: seq<Message>): nat {
    var chars, words := TotalChars(ms) / 4, TotalWords(ms) * 13 / 10;
    if chars > words then chars else words
  }

  predicate Exceeds(ms: seq<Message>, budget: int) {
    budget > 0 && Estimate(ms) > budget
  }

  // ---------------------------------------------------------------- what is kept

  /** The messages that are not system messages. */
  function Body(ms: seq<Message>): (b: seq<Message>)
    ensures forall m :: m in b ==> !m.role.System?
    ensures |b| <= |ms|
  {
    if ms == [] then [] else (if ms[0].role.System? then [] else [ms[0]]) + Body(ms[1..])
  }

  function Systems(ms: seq<Message>): (b: seq<Message>)
    ensures forall m :: m in b ==> m.role.System?
  {
    if ms == [] then [] else (if ms[0].role.System? then [ms[0]] else []) + Systems(ms[1..])
  }

  /** The pinned messages: the first system message and, when it is another one, the last. */
  function Pins(ms: seq<Message>): (p: seq<Message>)
    ensures |p| <= 2 && forall m :: m in p ==> m.role.System?
  {
    var s := Systems(ms);
    if |s| <= 1 then s else [s[0], s[|s| - 1]]
  }

  function DropTools(ms: seq<Message>): seq<Message> {
    if ms != [] && ms[0].role.Tool? then DropTools(ms[1..]) else ms
  }

  /** The window starts with an assistant message whose tool results are not behind it. */
  predicate BareCall(ms: seq<Message>) {
    ms != [] && Opens(ms[0]) && (|ms| < 2 || !ms[1].role.Tool?)
  }

  function DropBareCalls(ms: seq<Message>): seq<Message> {
    if BareCall(ms) then DropBareCalls(ms[1..]) else ms
  }

  function CutHead(ms: seq<Message>): seq<Message> {
    DropBareCalls(DropTools(ms))
  }

  function DropRound(body: seq<Message>): seq<Message>
    requires body != []
  {
    CutHead(body[1..])
  }

  function TokenTrimmed(head: seq<Message>, body: seq<Message>, budget: int, round: nat): seq<Message>
    requires round <= GUARD
    decreases GUARD - round
  {
    if body != [] && Estimate(head + body) > budget && round < GUARD
    then TokenTrimmed(head, DropRound(body), budget, round + 1)
    else body
  }

  function WithinBudget(ms: seq<Message>, budget: int): seq<Message> {
    if Exceeds(ms, budget) then Pins(ms) + TokenTrimmed(Pins(ms), Body(ms), budget, 0) else ms
  }

  function KeepCount(ms: seq<Message>, maxMessages: int): nat {
    var k := maxMessages - |Pins(ms)|;
    if k > 1 then k else 1
  }

  function Trimmed(ms: seq<Message>, maxMessages: int, budget: int): seq<Message> {
    if |ms| <= maxMessages && !Exceeds(ms, budget) then ms
    else if Body(ms) == [] then Pins(ms)
    else WithinBudget(Pins(ms) + CutHead(Last(Body(ms), KeepCount(ms, maxMessages))), budget)
  }

  // ---------------------------------------------------------------- the memory

  method PopHead(window: seq<Message>) returns (cut: seq<Message>)
    ensures cut == CutHead(window)
  {
    cut := window;
    while cut != [] && cut[0].role.Tool?
      invariant DropTools(cut) == DropTools(window)
      decreases |cut|
    {
      cut := cut[1..];
    }
    while cut != [] && Opens(cut[0]) && (|cut| < 2 || !cut[1].role.Tool?)
      invariant DropBareCalls(cut) == CutHead(window)
      decreases |cut|
    {
      cut := cut[1..];
    }
  }

  class Memory {
    var messages: seq<Message>
    var maxMessages: int
    var maxContextTokens: int

    constructor (maxMessages: int, maxContextTokens: int)
      ensures messages == [] && this.maxMessages == maxMessages && this.maxContextTokens == maxContextTokens
    {
      messages := [];
      this.maxMessages, this.maxContextTokens := maxMessages, maxContextTokens;
    }

    method Add(m: Message)
      modifies this`messages
      ensures messages == Trimmed(old(messages) + [m], maxMessages, maxContextTokens)
      ensures !IsOver(old(messages) + [m], maxMessages, maxContextTokens) ==> messages == old(messages) + [m]
    {
      messages := messages + [m];
      Trim();
    }

    method Trim()
      modifies this`messages
      ensures messages == Trimmed(old(messages), maxMessages, maxContextTokens)
    {
      if |messages| <= maxMessages && !Exceeds(messages, maxContextTokens) {
        return;
      }
      var pins, rest := Pins(messages), Body(messages);
      var keep := if maxMessages - |pins| > 1 then maxMessages - |pins| else 1;
      if rest == [] {
        messages := pins;
        return;
      }
      var window := PopHead(Last(rest, keep));
      messages := pins + window;
      TokenTrimIfNeeded();
    }

    method TokenTrimIfNeeded()
      modifies this`messages
      ensures messages == WithinBudget(old(messages), maxContextTokens)
    {
      if !Exceeds(messages, maxContextTokens) {
        return;
      }
      var head, body := Pins(messages), Body(messages);
      var guard := 0;
      while body != [] && Estimate(head + body) > maxContextTokens && guard < GUARD
        invariant guard <= GUARD
        invariant TokenTrimmed(head, body, maxContextTokens, guard)
               == TokenTrimmed(head, Body(old(messages)), maxContextTokens, 0)
        decreases GUARD - guard
      {
        body := PopHead(body[1..]);
        guard := guard + 1;
      }
      messages := head + body;
    }
  }

  // ---------------------------------------------------------------- trimming keeps the protocol

  lemma {:induction false} BodyFollows(p: Progress, ms: seq<Message>)
    requires Follow(p, ms).Awaiting?
    ensures Follow(p, Body(ms)) == Follow(p, ms)
    decreases |ms|
  {
    if ms != [] {
      BrokenStays(ms[1..]);
      BodyFollows(Next(p, ms[0]), ms[1..]);
      var rest := Body(ms[1..]);
      assert ([ms[0]] + rest)[1..] == rest && [] + rest == rest;
    }
  }

  lemma {:induction false} SystemsFollow(systems: seq<Message>, ms: seq<Message>)
    requires forall m :: m in systems ==> m.role.System?
    ensures Follow(Awaiting({}), systems + ms) == Follow(Awaiting({}), ms)
    decreases |systems|
  {
    if systems == [] {
      assert systems + ms == ms;
    } else {
      assert (systems + ms)[1..] == systems[1..] + ms;
      SystemsFollow(systems[1..], ms);
    }
  }

  lemma {:induction false} AllSystems(pins: seq<Message>, window: seq<Message>)
    requires forall m :: m in pins ==> m.role.System?
    ensures Systems(pins + window) == pins + Systems(window) && Body(pins + window) == Body(window)
    decreases |pins|
  {
    if pins == [] {
      assert pins + window == window;
    } else {
      assert (pins + window)[1..] == pins[1..] + window;
      AllSystems(pins[1..], window);
    }
  }

  lemma {:induction false} NoSystems(ms: seq<Message>)
    requires forall m :: m in ms ==> !m.role.System?
    ensures Body(ms) == ms && Systems(ms) == []
  {
    if ms != [] {
      NoSystems(ms[1..]);
      assert ms == [ms[0]] + ms[1..];
    }
  }

  lemma PinnedParts(pins: seq<Message>, window: seq<Message>)
    requires forall m :: m in pins ==> m.role.System?
    requires forall m :: m in window ==> !m.role.System?
    ensures Systems(pins + window) == pins && Body(pins + window) == window
  {
    AllSystems(pins, window);
    NoSystems(window);
    assert pins + [] == pins;
  }

  lemma CutIsSuffix(ms: seq<Message>) returns (k: nat)
    ensures k <= |ms| && CutHead(ms) == ms[k..]
  {
    k := 0;
    while k < |ms| && ms[k].role.Tool?
      invariant k <= |ms| && DropTools(ms[k..]) == DropTools(ms)
      decreases |ms| - k
    {
      assert ms[k..][1..] == ms[k + 1..];
      k := k + 1;
    }
    while BareCall(ms[k..])
      invariant k <= |ms| && DropBareCalls(ms[k..]) == CutHead(ms)
      decreases |ms| - k
    {
      assert ms[k..][1..] == ms[k + 1..];
      k := k + 1;
    }
  }

  /** Neither a tool result nor a call without its results stands at the head. */
  predicate CleanHead(ms: seq<Message>) {
    ms == [] || (!ms[0].role.Tool? && !BareCall(ms))
  }

  lemma {:induction false} DropBareClean(ms: seq<Message>)
    requires ms == [] || !ms[0].role.Tool?
    ensures CleanHead(DropBareCalls(ms))
    decreases |ms|
  {
    if BareCall(ms) {
      DropBareClean(ms[1..]);
    }
  }

  lemma {:induction false} DropToolsClean(ms: seq<Message>)
    ensures DropTools(ms) == [] || !DropTools(ms)[0].role.Tool?
    decreases |ms|
  {
    if ms != [] && ms[0].role.Tool? {
      DropToolsClean(ms[1..]);
    }
  }

  lemma CutIsClean(ms: seq<Message>)
    ensures CleanHead(CutHead(ms))
  {
    DropToolsClean(ms);
    DropBareClean(DropTools(ms));
  }

  /** Whether `small` is what is left of `big` after its head was cut at a clean place. */
  ghost predicate CleanSuffix(small: seq<Message>, big: seq<Message>) {
    IsSuffix(small, big) && CleanHead(small)
  }

  lemma CutShape(ms: seq<Message>)
    ensures CleanSuffix(CutHead(ms), ms)
  {
    var k := CutIsSuffix(ms);
    CutIsClean(ms);
    SuffixFrom(ms, k);
  }

  lemma {:induction false} TokenTrimSuffix(head: seq<Message>, body: seq<Message>, budget: int, round: nat)
    requires round <= GUARD && CleanHead(body)
    ensures CleanSuffix(TokenTrimmed(head, body, budget, round), body)
    decreases GUARD - round
  {
    if body != [] && Estimate(head + body) > budget && round < GUARD {
      DropRoundShape(body);
      TokenTrimSuffix(head, DropRound(body), budget, round + 1);
      SuffixTransitive(TokenTrimmed(head, DropRound(body), budget, round + 1), DropRound(body), body);
    } else {
      SuffixFrom(body, 0);
    }
  }

  lemma DropRoundShape(body: seq<Message>)
    requires body != []
    ensures CleanSuffix(DropRound(body), body)
  {
    CutShape(body[1..]);
    SuffixFrom(body, 1);
    SuffixTransitive(DropRound(body), body[1..], body);
  }

  lemma PinsOfPinned(pins: seq<Message>, window: seq<Message>)
    requires |pins| <= 2 && forall m :: m in pins ==> m.role.System?
    requires forall m :: m in window ==> !m.role.System?
    ensures Pins(pins + window) == pins && Body(pins + window) == window
  {
    PinnedParts(pins, window);
  }

  /** The dialogue the count leaves. */
  function Window(ms: seq<Message>, maxMessages: int): seq<Message> {
    CutHead(Last(Body(ms), KeepCount(ms, maxMessages)))
  }

  /** The dialogue the token budget then leaves. */
  function KeptBody(ms: seq<Message>, maxMessages: int, budget: int): seq<Message> {
    if budget > 0 then TokenTrimmed(Pins(ms), Window(ms, maxMessages), budget, 0) else Window(ms, maxMessages)
  }

  lemma WindowShape(ms: seq<Message>, maxMessages: int)
    ensures CleanSuffix(Window(ms, maxMessages), Body(ms))
    ensures |Window(ms, maxMessages)| <= KeepCount(ms, maxMessages)
  {
    var body, keep := Body(ms), KeepCount(ms, maxMessages);
    LastShape(body, keep);
    CutShape(Last(body, keep));
    SuffixTransitive(Window(ms, maxMessages), Last(body, keep), body);
  }

  lemma LastShape(ms: seq<Message>, keep: nat)
    ensures IsSuffix(Last(ms, keep), ms) && |Last(ms, keep)| <= keep
  {
    SuffixFrom(ms, 0);
  }

  lemma KeptShape(ms: seq<Message>, maxMessages: int, budget: int)
    ensures CleanSuffix(KeptBody(ms, maxMessages, budget), Body(ms))
    ensures |KeptBody(ms, maxMessages, budget)| <= KeepCount(ms, maxMessages)
  {
    var body, window, kept := Body(ms), Window(ms, maxMessages), KeptBody(ms, maxMessages, budget);
    WindowShape(ms, maxMessages);
    TokenTrimSuffix(Pins(ms), window, budget, 0);
    SuffixFrom(window, 0);
    SuffixTransitive(kept, window, body);
  }

  lemma TrimmedForm(ms: seq<Message>, maxMessages: int, budget: int)
    requires |ms| > maxMessages || Exceeds(ms, budget)
    ensures var t, kept := Trimmed(ms, maxMessages, budget), KeptBody(ms, maxMessages, budget);
      t == Pins(ms) + kept && Pins(t) == Pins(ms) && Body(t) == kept
  {
    var pins, window, kept := Pins(ms), Window(ms, maxMessages), KeptBody(ms, maxMessages, budget);
    KeptShape(ms, maxMessages, budget);
    WindowShape(ms, maxMessages);
    PinsOfPinned(pins, window);
    PinsOfPinned(pins, kept);
    assert pins + [] == pins;
  }

  /**
   A trimmed memory is the pinned system messages, then a suffix of the old dialogue that
   starts neither with a tool result nor with a call whose results are gone.
   */
  lemma TrimmedShape(ms: seq<Message>, maxMessages: int, budget: int)
    requires |ms| > maxMessages || Exceeds(ms, budget)
    ensures var t := Trimmed(ms, maxMessages, budget);
      && Pins(t) == Pins(ms) && t == Pins(ms) + Body(t) && CleanSuffix(Body(t), Body(ms))
      && |t| <= |Pins(ms)| + KeepCount(ms, maxMessages)
  {
    TrimmedForm(ms, maxMessages, budget);
    KeptShape(ms, maxMessages, budget);
  }

  lemma {:induction false} DropBareIsLongest(ms: seq<Message>, w: seq<Message>)
    requires CleanSuffix(w, ms)
    ensures |w| <= |DropBareCalls(ms)|
    decreases |ms|
  {
    if BareCall(ms) {
      ShorterSuffix(w, ms);
      DropBareIsLongest(ms[1..], w);
    }
  }

  lemma {:induction false} DropToolsIsLongest(ms: seq<Message>, w: seq<Message>)
    requires CleanSuffix(w, ms)
    ensures CleanSuffix(w, DropTools(ms))
    decreases |ms|
  {
    if ms != [] && ms[0].role.Tool? {
      ShorterSuffix(w, ms);
      DropToolsIsLongest(ms[1..], w);
    }
  }

  lemma ShorterSuffix(w: seq<Message>, ms: seq<Message>)
    requires CleanSuffix(w, ms) && ms != [] && w != ms
    ensures CleanSuffix(w, ms[1..])
  {
    SuffixOfTail(w, ms);
  }

  lemma {:induction false} TokenTrimIsLongest(head: seq<Message>, body: seq<Message>, budget: int, round: nat,
                                              w: seq<Message>)
    requires round <= GUARD && CleanSuffix(w, body) && Estimate(head + w) <= budget
    ensures |w| <= |TokenTrimmed(head, body, budget, round)|
    decreases GUARD - round
  {
    if body != [] && Estimate(head + body) > budget && round < GUARD {
      ShorterSuffix(w, body);
      CutKeepsSuffix(body[1..], w);
      TokenTrimIsLongest(head, DropRound(body), budget, round + 1, w);
    }
  }

  lemma CutKeepsSuffix(ms: seq<Message>, w: seq<Message>)
    requires CleanSuffix(w, ms)
    ensures CleanSuffix(w, CutHead(ms))
  {
    DropToolsIsLongest(ms, w);
    DropBareIsLongest(DropTools(ms), w);
    var k := CutIsSuffix(ms);
    SuffixFrom(ms, k);
    SuffixesNested(w, CutHead(ms), ms);
  }

  lemma WindowIsLongest(ms: seq<Message>, maxMessages: int, w: seq<Message>)
    requires CleanSuffix(w, Body(ms)) && |w| <= KeepCount(ms, maxMessages)
    ensures CleanSuffix(w, Window(ms, maxMessages))
  {
    var body := Body(ms);
    var last := Last(body, KeepCount(ms, maxMessages));
    SuffixFrom(body, |body| - |last|);
    SuffixesNested(w, last, body);
    CutKeepsSuffix(last, w);
  }

  /**
   Nothing more could have been kept: every suffix of the old dialogue that starts cleanly and
   fits the message count and, if one is set, the token budget is no longer than the new dialogue.
   */
  lemma TrimIsOptimal(ms: seq<Message>, maxMessages: int, budget: int, w: seq<Message>)
    requires |ms| > maxMessages || Exceeds(ms, budget)
    requires CleanSuffix(w, Body(ms)) && |w| <= KeepCount(ms, maxMessages)
    requires budget > 0 ==> Estimate(Pins(ms) + w) <= budget
    ensures |w| <= |Body(Trimmed(ms, maxMessages, budget))|
  {
    TrimmedForm(ms, maxMessages, budget);
    WindowIsLongest(ms, maxMessages, w);
    if budget > 0 {
      TokenTrimIsLongest(Pins(ms), Window(ms, maxMessages), budget, 0, w);
    }
  }

  // ---------------------------------------------------------------- the token budget

  lemma {:induction false} TotalsOfSuffix(head: seq<Message>, body: seq<Message>, k: nat)
    requires k <= |body|
    ensures TotalChars(head + body[k..]) <= TotalChars(head + body)
    ensures TotalWords(head + body[k..]) <= TotalWords(head + body)
    decreases |head|, k
  {
    if head != [] {
      assert (head + body)[1..] == head[1..] + body && (head + body[k..])[1..] == head[1..] + body[k..];
      TotalsOfSuffix(head[1..], body, k);
    } else if k > 0 {
      assert head + body == body && head + body[k..] == body[k..] && body[1..][k - 1..] == body[k..];
      assert head + body[1..] == body[1..] && head + body[1..][k - 1..] == body[k..];
      TotalsOfSuffix(head, body[1..], k - 1);
    } else {
      assert body[0..] == body;
    }
  }

  /** White space separates words, and what has none in it is one word. */
  lemma {:induction false} WordsSplit(a: string, c: char, b: string, inWord: bool)
    requires IsSpace(c)
    ensures Words(a + [c] + b, inWord) == Words(a, inWord) + Words(b, false)
    decreases |a|
  {
    if a == [] {
      assert a + [c] + b == [c] + b && ([c] + b)[1..] == b;
    } else {
      assert (a + [c] + b)[1..] == a[1..] + [c] + b;
      WordsSplit(a[1..], c, b, !IsSpace(a[0]));
    }
  }

  lemma {:induction false} OneWord(s: string, inWord: bool)
    requires forall c :: c in s ==> !IsSpace(c)
    ensures Words(s, inWord) == if s == [] || inWord then 0 else 1
  {
    if s != [] {
      assert s[0] in s && forall c :: c in s[1..] ==> c in s;
      OneWord(s[1..], true);
    }
  }

  /** The estimate is a quarter of all characters, or 1.3 times the number of words if that is more. */
  lemma {:induction false} EstimateIs(ms: seq<Message>)
    ensures var chars := Sum(seq(|ms|, k requires 0 <= k < |ms| => |ms[k].content|));
      var words := Sum(seq(|ms|, k requires 0 <= k < |ms| => Words(ms[k].content, false)));
      && TotalChars(ms) == chars && TotalWords(ms) == words
      && Estimate(ms) == if 10 * (chars / 4) > 13 * words then chars / 4 else 13 * words / 10
  {
    if ms != [] {
      var rest := ms[1..];
      EstimateIs(rest);
      var chars := seq(|ms|, k requires 0 <= k < |ms| => |ms[k].content|);
      var words := seq(|ms|, k requires 0 <= k < |ms| => Words(ms[k].content, false));
      assert chars[1..] == seq(|rest|, k requires 0 <= k < |rest| => |rest[k].content|);
      assert words[1..] == seq(|rest|, k requires 0 <= k < |rest| => Words(rest[k].content, false));
    }
  }

  /** The estimate never grows when messages are dropped from the head of the body. */
  lemma EstimateShrinks(head: seq<Message>, body: seq<Message>, k: nat)
    requires k <= |body|
    ensures Estimate(head + body[k..]) <= Estimate(head + body)
  {
    TotalsOfSuffix(head, body, k);
  }

  /** The body after n rounds of dropping, whatever the budget. */
  function Rounds(body: seq<Message>, n: nat): seq<Message>
    decreases n
  {
    if n == 0 || body == [] then body else Rounds(DropRound(body), n - 1)
  }

  lemma {:induction false} RoundsEstimate(head: seq<Message>, body: seq<Message>, n: nat)
    ensures Estimate(head + Rounds(body, n)) <= Estimate(head + body)
    ensures body == [] ==> Rounds(body, n) == []
    ensures Rounds(body, n) == [] || |Rounds(body, n)| + n <= |body|
    decreases n
  {
    if n > 0 && body != [] {
      var k := CutIsSuffix(body[1..]);
      assert body[1..][k..] == body[k + 1..];
      EstimateShrinks(head, body, k + 1);
      RoundsEstimate(head, DropRound(body), n - 1);
    }
  }

  predicate Misses(head: seq<Message>, body: seq<Message>, budget: int) {
    body != [] && Estimate(head + body) > budget
  }

  lemma {:induction false} TokenTrimMisses(head: seq<Message>, body: seq<Message>, budget: int, round: nat)
    requires round <= GUARD
    ensures Misses(head, TokenTrimmed(head, body, budget, round), budget)
        <==> Misses(head, Rounds(body, GUARD - round), budget)
    decreases GUARD - round
  {
    RoundsEstimate(head, body, GUARD - round);
    if body != [] && Estimate(head + body) > budget && round < GUARD {
      TokenTrimMisses(head, DropRound(body), budget, round + 1);
    }
  }

  /**
   With a token budget set, the trimmed memory is within it or has no dialogue left, unless
   the guard of 10000 rounds runs out first: exactly when the dialogue that 10000 rounds leave
   is still there and still too long.
   */
  lemma BudgetMissedIff(ms: seq<Message>, maxMessages: int, budget: int)
    requires budget > 0 && (|ms| > maxMessages || Exceeds(ms, budget))
    ensures var t := Trimmed(ms, maxMessages, budget);
      Misses(Pins(t), Body(t), budget) <==> Misses(Pins(ms), Rounds(Window(ms, maxMessages), GUARD), budget)
  {
    TrimmedForm(ms, maxMessages, budget);
    TokenTrimMisses(Pins(ms), Window(ms, maxMessages), budget, 0);
  }

  lemma BudgetMetUpToGuard(ms: seq<Message>, maxMessages: int, budget: int)
    requires budget > 0 && |Body(ms)| <= 10000
    ensures var t := Trimmed(ms, maxMessages, budget); Estimate(t) <= budget || Body(t) == []
  {
    if |ms| > maxMessages || Exceeds(ms, budget) {
      BudgetMissedIff(ms, maxMessages, budget);
      TrimmedShape(ms, maxMessages, budget);
      WindowShape(ms, maxMessages);
      RoundsEstimate(Pins(ms), Window(ms, maxMessages), GUARD);
    }
  }

  lemma {:induction false} TokenTrimIsEarliest(head: seq<Message>, body: seq<Message>, budget: int, round: nat)
    returns (n: nat)
    requires round <= GUARD
    ensures n <= GUARD - round && TokenTrimmed(head, body, budget, round) == Rounds(body, n)
    ensures forall j :: 0 <= j < n ==> Misses(head, Rounds(body, j), budget)
    decreases GUARD - round
  {
    n := 0;
    if body != [] && Estimate(head + body) > budget && round < GUARD {
      var k := TokenTrimIsEarliest(head, DropRound(body), budget, round + 1);
      n := k + 1;
      forall j | 0 <= j < n ensures Misses(head, Rounds(body, j), budget) {
        if j > 0 {
          assert Rounds(body, j) == Rounds(DropRound(body), j - 1);
        }
      }
    }
  }

  lemma {:induction false} PlainRounds(m: Message, count: nat, n: nat)
    requires m.role.User? && n <= count
    ensures Rounds(seq(count, _ => m), n) == seq(count - n, _ => m)
    decreases n
  {
    var body := seq(count, _ => m);
    if n > 0 {
      assert body[1..] == seq(count - 1, _ => m);
      PlainRounds(m, count - 1, n - 1);
    }
  }

  /** One message past the guard: the memory ends over its budget with dialogue left. */
  lemma GuardCanRunOut()
    ensures var ms := seq(10001, _ => Message(User, "12345678", [], "", ""));
            var t := Trimmed(ms, 10001, 1);
            Misses(Pins(t), Body(t), 1)
  {
    var m := Message(User, "12345678", [], "", "");
    var ms := seq(GUARD + 1, _ => m);
    NoSystems(ms);
    EightChars(m, ms);
    assert Pins(ms) == [] && Last(ms, KeepCount(ms, GUARD + 1)) == ms;
    assert CutHead(ms) == ms;
    PlainRounds(m, GUARD + 1, GUARD);
    var one := seq(1, _ => m);
    assert [] + one == one == [m] && one[1..] == [];
    EightChars(m, one);
    BudgetMissedIff(ms, GUARD + 1, 1);
  }

  lemma EightChars(m: Message, ms: seq<Message>)
    requires |m.content| == 8 && ms != [] && ms[0] == m
    ensures Estimate(ms) > 1
  {
  }

  // ---------------------------------------------------------------- when the open block survives

  /** The last message that is no tool result; the first message when there is none. */
  function LastTurn(ms: seq<Message>): (k: nat)
    ensures ms != [] ==> k < |ms|
    ensures forall i :: k < i < |ms| ==> ms[i].role.Tool?
    ensures forall i :: 0 <= i < |ms| && !ms[i].role.Tool? ==> i <= k && !ms[k].role.Tool?
  {
    if ms == [] then 0
    else if |ms| == 1 || !ms[|ms| - 1].role.Tool? then |ms| - 1
    else LastTurn(ms[..|ms| - 1])
  }

  /**
   What must be kept of a dialogue for its last block to stay: the asking message with its results
   so far, and as long as there are none the turn before it, which keeps it from the head.
   */
  function Needed(body: seq<Message>): seq<Message>
    requires body != []
  {
    var k := LastTurn(body);
    if 0 < k == |body| - 1 then body[LastTurn(body[..k])..] else body[k..]
  }

  /** The dialogue may stay as a window of its own. */
  predicate Fits(ms: seq<Message>, w: seq<Message>, maxMessages: int, budget: int) {
    CleanHead(w) && |w| <= KeepCount(ms, maxMessages) && (budget > 0 ==> Estimate(Pins(ms) + w) <= budget)
  }

  /** Trimming keeps a dialogue when it has nothing to do, when the needed part fits, or when the guard runs out. */
  predicate KeepsBlock(ms: seq<Message>, maxMessages: int, budget: int)
    requires Body(ms) != []
  {
    || (|ms| <= maxMessages && !Exceeds(ms, budget))
    || Fits(ms, Needed(Body(ms)), maxMessages, budget)
    || (budget > 0 && Misses(Pins(ms), Rounds(Window(ms, maxMessages), GUARD), budget))
  }

  /** Cutting a history before a message that is no tool result leaves the same calls open. */
  lemma SuffixKeepsOpen(body: seq<Message>, w: seq<Message>, open: set<string>)
    requires Follow(Awaiting({}), body) == Awaiting(open)
    requires IsSuffix(w, body) && w != [] && !w[0].role.Tool?
    ensures Follow(Awaiting({}), w) == Awaiting(open)
  {
    var j := |body| - |w|;
    SplitAt(body, j);
    FollowAppend(Awaiting({}), body[..j], w);
    BrokenStays(w);
    BrokenStays(w[1..]);
  }

  /** With a call open, the last turn is the one that asks. */
  lemma OpenShape(ms: seq<Message>, open: set<string>)
    requires Follow(Awaiting({}), ms) == Awaiting(open) && open != {}
    ensures ms != [] && !ms[0].role.Tool? && Opens(ms[LastTurn(ms)])
  {
    BrokenStays(ms[1..]);
    var k := LastTurn(ms);
    var w := ms[k..];
    SuffixFrom(ms, k);
    SuffixKeepsOpen(ms, w, open);
    if !Opens(ms[k]) && |w| > 1 {
      assert w[1] == ms[k + 1] && w[1..][0] == w[1];
      BrokenStays(w[1..][1..]);
    }
  }

  /** A call is followed by one of its results or ends the history. */
  lemma {:induction false} CallsAreFollowed(p: Progress, ms: seq<Message>)
    requires Follow(p, ms).Awaiting?
    ensures forall i :: 0 <= i < |ms| - 1 && Opens(ms[i]) ==> ms[i + 1].role.Tool?
    decreases |ms|
  {
    if |ms| > 1 {
      BrokenStays(ms[1..]);
      BrokenStays(ms[1..][1..]);
      CallsAreFollowed(Next(p, ms[0]), ms[1..]);
      if Opens(ms[0]) {
        assert ms[0].toolCalls[0].id in CallIds(ms[0].toolCalls);
      }
      forall i | 0 < i < |ms| - 1 && Opens(ms[i]) ensures ms[i + 1].role.Tool? {
        assert ms[1..][i - 1] == ms[i] && ms[1..][i] == ms[i + 1];
      }
    }
  }

  /** The needed part is a suffix of every nonempty clean one. */
  lemma NeededIsShortest(body: seq<Message>, w: seq<Message>, open: set<string>)
    requires Follow(Awaiting({}), body) == Awaiting(open) && open != {}
    requires CleanSuffix(w, body) && w != []
    ensures IsSuffix(Needed(body), w) && CleanHead(Needed(body))
  {
    OpenShape(body, open);
    CallsAreFollowed(Awaiting({}), body);
    var j, k := |body| - |w|, LastTurn(body);
    assert w[0] == body[j] && (|w| > 1 ==> w[1] == body[j + 1]);
    if 0 < k == |body| - 1 {
      assert j != k && body[..k][j] == body[j];
      var m := LastTurn(body[..k]);
      assert body[..k][m] == body[m];
      SuffixFrom(body, m);
      SuffixesNested(body[m..], w, body);
    } else {
      SuffixFrom(body, k);
      SuffixesNested(body[k..], w, body);
    }
  }

  lemma NeededIsSuffix(body: seq<Message>)
    requires body != []
    ensures IsSuffix(Needed(body), body) && Needed(body) != []
  {
    var k := LastTurn(body);
    SuffixFrom(body, k);
    if 0 < k {
      SuffixFrom(body, LastTurn(body[..k]));
    }
  }

  /** Some dialogue is left exactly when the needed part fits or the guard runs out. */
  lemma DialogueLeftIff(ms: seq<Message>, maxMessages: int, budget: int, open: set<string>)
    requires Follow(Awaiting({}), ms) == Awaiting(open) && open != {}
    requires |ms| > maxMessages || Exceeds(ms, budget)
    ensures Body(ms) != [] && (KeptBody(ms, maxMessages, budget) != [] <==> KeepsBlock(ms, maxMessages, budget))
  {
    var kept := KeptBody(ms, maxMessages, budget);
    BodyFollows(Awaiting({}), ms);
    OpenShape(Body(ms), open);
    KeptShape(ms, maxMessages, budget);
    if budget > 0 {
      TokenTrimMisses(Pins(ms), Window(ms, maxMessages), budget, 0);
    }
    if Fits(ms, Needed(Body(ms)), maxMessages, budget) {
      NeededIsSuffix(Body(ms));
      TrimIsOptimal(ms, maxMessages, budget, Needed(Body(ms)));
      TrimmedForm(ms, maxMessages, budget);
    } else if kept != [] && !(budget > 0 && Misses(Pins(ms), kept, budget)) {
      LongerFits(ms, kept, maxMessages, budget, open);
    }
  }

  /** When a clean part of the dialogue may stay, so may the needed part. */
  lemma LongerFits(ms: seq<Message>, w: seq<Message>, maxMessages: int, budget: int, open: set<string>)
    requires Follow(Awaiting({}), Body(ms)) == Awaiting(open) && open != {} && Body(ms) != []
    requires CleanSuffix(w, Body(ms)) && w != [] && Fits(ms, w, maxMessages, budget)
    ensures Fits(ms, Needed(Body(ms)), maxMessages, budget)
  {
    NeededIsShortest(Body(ms), w, open);
    EstimateOfSuffix(Pins(ms), Needed(Body(ms)), w);
  }

  lemma EstimateOfSuffix(head: seq<Message>, w: seq<Message>, body: seq<Message>)
    requires IsSuffix(w, body)
    ensures Estimate(head + w) <= Estimate(head + body)
  {
    EstimateShrinks(head, body, |body| - |w|);
  }

  // ---------------------------------------------------------------- a trimmed memory, from its messages

  predicate IsSystem(m: Message) {
    m.role.System?
  }

  predicate IsDialogue(m: Message) {
    !m.role.System?
  }

  lemma {:induction false} PartsAre(ms: seq<Message>)
    ensures Body(ms) == Filter(ms, IsDialogue) && Systems(ms) == Filter(ms, IsSystem)
  {
    if ms != [] {
      PartsAre(ms[1..]);
    }
  }

  /** i is the first system message and j the last. */
  ghost predicate SystemsFrom(ms: seq<Message>, i: nat, j: nat) {
    && i <= j < |ms| && ms[i].role.System? && ms[j].role.System?
    && forall k :: 0 <= k < i || j < k < |ms| ==> !ms[k].role.System?
  }

  lemma FirstSelected(ms: seq<Message>, i: nat)
    requires i < |ms| && ms[i].role.System? && forall k :: 0 <= k < i ==> !ms[k].role.System?
    ensures Filter(ms, IsSystem) == [ms[i]] + Filter(ms[i + 1..], IsSystem)
  {
    SplitAt(ms, i);
    FilterConcat(ms[..i], ms[i..], IsSystem);
    FilterNone(ms[..i], IsSystem);
    assert ms[i..][0] == ms[i] && ms[i..][1..] == ms[i + 1..];
  }

  lemma LastSelected(ms: seq<Message>, j: nat)
    requires j < |ms| && ms[j].role.System? && forall k :: j < k < |ms| ==> !ms[k].role.System?
    ensures Filter(ms, IsSystem) == Filter(ms[..j], IsSystem) + [ms[j]]
  {
    Around(ms, j);
    FilterConcat(ms[..j] + [ms[j]], ms[j + 1..], IsSystem);
    FilterConcat(ms[..j], [ms[j]], IsSystem);
    FilterOne(ms[j], IsSystem);
    FilterNone(ms[j + 1..], IsSystem);
  }

  lemma PinsAre(ms: seq<Message>, i: nat, j: nat)
    requires SystemsFrom(ms, i, j)
    ensures Pins(ms) == if i < j then [ms[i], ms[j]] else [ms[i]]
  {
    PartsAre(ms);
    FirstSelected(ms, i);
    if i < j {
      var rest := ms[i + 1..];
      assert rest[j - i - 1] == ms[j];
      forall k | j - i - 1 < k < |rest| ensures !rest[k].role.System? {
        assert rest[k] == ms[i + 1 + k];
      }
      LastSelected(rest, j - i - 1);
    } else {
      FilterNone(ms[i + 1..], IsSystem);
    }
  }

  lemma NoPins(ms: seq<Message>)
    requires forall k :: 0 <= k < |ms| ==> !ms[k].role.System?
    ensures Pins(ms) == []
  {
    PartsAre(ms);
    FilterNone(ms, IsSystem);
  }

  /** The history has more messages than allowed, or is longer than its token budget. */
  predicate IsOver(ms: seq<Message>, maxMessages: int, budget: int) {
    |ms| > maxMessages || (budget > 0 && Estimate(ms) > budget)
  }

  /** The first system message and, if it is another one, the last. */
  ghost predicate ArePinned(pins: seq<Message>, ms: seq<Message>) {
    && ((forall k :: 0 <= k < |ms| ==> !ms[k].role.System?) ==> pins == [])
    && forall i: nat, j: nat :: SystemsFrom(ms, i, j) ==> pins == if i < j then [ms[i], ms[j]] else [ms[i]]
  }

  /** The dialogue that begins at c, if it may be kept beside so many pinned messages. */
  ghost predicate MayStay(w: seq<Message>, ms: seq<Message>, c: nat, pinned: nat, maxMessages: int) {
    && c <= |ms| && w == Filter(ms[c..], IsDialogue)
    && (|w| <= 1 || pinned + |w| <= maxMessages)
    && (w != [] ==> !w[0].role.Tool?)
    && (w != [] && w[0].role.Assistant? && w[0].toolCalls != [] ==> |w| >= 2 && w[1].role.Tool?)
  }

  /**
   A trimmed memory: the first and the last system message, then the dialogue from some message on
   that may be kept beside them. No longer such dialogue would have met the token budget.
   */
  lemma TrimIs(ms: seq<Message>, maxMessages: int, budget: int)
    returns (pins: seq<Message>, w: seq<Message>, c: nat)
    requires IsOver(ms, maxMessages, budget)
    ensures Trimmed(ms, maxMessages, budget) == pins + w
    ensures ArePinned(pins, ms) && MayStay(w, ms, c, |pins|, maxMessages)
    ensures forall d, v :: MayStay(v, ms, d, |pins|, maxMessages) && (budget > 0 ==> Estimate(pins + v) <= budget) ==>
      |v| <= |w|
  {
    pins, w := Pins(ms), Body(Trimmed(ms, maxMessages, budget));
    TrimmedShape(ms, maxMessages, budget);
    PinsArePinned(ms);
    PartsAre(ms);
    c := SuffixOfFilter(w, ms, IsDialogue);
    forall d, v | MayStay(v, ms, d, |pins|, maxMessages) && (budget > 0 ==> Estimate(pins + v) <= budget)
      ensures |v| <= |w|
    {
      StaysInLine(ms, v, d, maxMessages);
      TrimIsOptimal(ms, maxMessages, budget, v);
    }
  }

  lemma PinsArePinned(ms: seq<Message>)
    ensures ArePinned(Pins(ms), ms)
  {
    forall i: nat, j: nat | SystemsFrom(ms, i, j) ensures Pins(ms) == if i < j then [ms[i], ms[j]] else [ms[i]] {
      PinsAre(ms, i, j);
    }
    if forall k :: 0 <= k < |ms| ==> !ms[k].role.System? {
      NoPins(ms);
    }
  }

  lemma StaysInLine(ms: seq<Message>, v: seq<Message>, d: nat, maxMessages: int)
    requires MayStay(v, ms, d, |Pins(ms)|, maxMessages)
    ensures CleanSuffix(v, Body(ms)) && |v| <= KeepCount(ms, maxMessages)
  {
    PartsAre(ms);
    FilterOfSuffix(ms, d, IsDialogue);
  }

  /**
   Trimming a history that keeps the protocol so far, with some calls still open, leaves one that
   keeps it: with the same calls open, or with none, exactly when the open block was cut away.
   */
  lemma TrimKeepsProtocol(ms: seq<Message>, maxMessages: int, budget: int, open: set<string>)
    requires Follow(Awaiting({}), ms) == Awaiting(open)
    ensures open != {} ==> Body(ms) != []
    ensures Follow(Awaiting({}), Trimmed(ms, maxMessages, budget))
         == Awaiting(if open != {} && KeepsBlock(ms, maxMessages, budget) then open else {})
  {
    BodyFollows(Awaiting({}), ms);
    if |ms| > maxMessages || Exceeds(ms, budget) {
      var kept := KeptBody(ms, maxMessages, budget);
      TrimmedForm(ms, maxMessages, budget);
      SystemsFollow(Pins(ms), kept);
      KeptShape(ms, maxMessages, budget);
      if open != {} {
        DialogueLeftIff(ms, maxMessages, budget, open);
      }
      if kept != [] {
        SuffixKeepsOpen(Body(ms), kept, open);
      }
    }
  }

  /**
   The next result of a block that is being recorded finds its call, or is an orphan, exactly as
   the block survived the trimming before it.
   */
  lemma NextResultIsOrphanIff(ms: seq<Message>, maxMessages: int, budget: int, open: set<string>, result: Message)
    requires Follow(Awaiting({}), ms) == Awaiting(open)
    requires result.role.Tool? && result.toolCallId in open
    ensures Body(ms) != []
    ensures Follow(Awaiting({}), Trimmed(ms, maxMessages, budget) + [result])
         == if KeepsBlock(ms, maxMessages, budget) then Awaiting(open - {result.toolCallId}) else Broken
  {
    TrimKeepsProtocol(ms, maxMessages, budget, open);
    FollowAppend(Awaiting({}), Trimmed(ms, maxMessages, budget), [result]);
    FollowOne(Follow(Awaiting({}), Trimmed(ms, maxMessages, budget)), result);
  }

  /** For dialogues the guard cannot stop, the block survives exactly when the needed part fits. */
  lemma KeepsBlockUpToGuard(ms: seq<Message>, maxMessages: int, budget: int, open: set<string>)
    requires Follow(Awaiting({}), ms) == Awaiting(open) && open != {}
    requires |Body(ms)| <= 10000 && (|ms| > maxMessages || Exceeds(ms, budget))
    ensures Body(ms) != [] && (KeepsBlock(ms, maxMessages, budget) <==> Fits(ms, Needed(Body(ms)), maxMessages, budget))
  {
    DialogueLeftIff(ms, maxMessages, budget, open);
    if budget > 0 {
      WindowShape(ms, maxMessages);
      RoundsEstimate(Pins(ms), Window(ms, maxMessages), GUARD);
    }
  }

  /** A window that could stay and leaves these calls open. */
  ghost predicate KeepsOpen(ms: seq<Message>, w: seq<Message>, maxMessages: int, budget: int, open: set<string>) {
    IsSuffix(w, Body(ms)) && Fits(ms, w, maxMessages, budget) && Follow(Awaiting({}), w) == Awaiting(open)
  }

  /** Seen from the windows: trimming loses the open block only if no window that fits still has it. */
  lemma SurvivesIffSomeWindow(ms: seq<Message>, maxMessages: int, budget: int, open: set<string>)
    requires Follow(Awaiting({}), ms) == Awaiting(open) && open != {}
    requires |Body(ms)| <= 10000 && (|ms| > maxMessages || Exceeds(ms, budget))
    ensures Follow(Awaiting({}), Trimmed(ms, maxMessages, budget)) == Awaiting(open)
       <==> exists w :: KeepsOpen(ms, w, maxMessages, budget, open)
  {
    BodyFollows(Awaiting({}), ms);
    TrimKeepsProtocol(ms, maxMessages, budget, open);
    KeepsBlockUpToGuard(ms, maxMessages, budget, open);
    OpenShape(Body(ms), open);
    var needed := Needed(Body(ms));
    if Fits(ms, needed, maxMessages, budget) {
      NeededIsSuffix(Body(ms));
      SuffixKeepsOpen(Body(ms), needed, open);
      assert KeepsOpen(ms, needed, maxMessages, budget, open);
    }
    if w :| KeepsOpen(ms, w, maxMessages, budget, open) {
      LongerFits(ms, w, maxMessages, budget, open);
    }
  }

  /** In particular a history without open calls stays acceptable to the provider. */
  lemma TrimKeepsAccepted(ms: seq<Message>, maxMessages: int, budget: int)
    requires Accepted(ms)
    ensures Accepted(Trimmed(ms, maxMessages, budget))
  {
    TrimKeepsProtocol(ms, maxMessages, budget, {});
  }

  /**
   A block longer than the window does not survive its own recording: the opener is cut,
   and the next result stays behind as an orphan, which only the repair at the request removes.
   */
  lemma LongBlockLeavesOrphan()
    ensures var opener := Message(Assistant, "", [ToolCall("a", "f", ""), ToolCall("b", "g", "")], "", "");
            var first, second := Message(Tool, "", [], "a", "f"), Message(Tool, "", [], "b", "g");
            var t := Trimmed(Trimmed(Trimmed([opener], 1, 0) + [first], 1, 0) + [second], 1, 0);
            Accepted([opener, first, second]) && t == [second] && Follow(Awaiting({}), t) == Broken
  {
    var opener := Message(Assistant, "", [ToolCall("a", "f", ""), ToolCall("b", "g", "")], "", "");
    var first, second := Message(Tool, "", [], "a", "f"), Message(Tool, "", [], "b", "g");
    TwoResultsAccepted(opener, first, second);
    OpenerIsCut(opener, first);
    assert [opener] + [first] == [opener, first];
    assert [] + [second] == [second];
    assert Follow(Awaiting({}), [second]) == Follow(Broken, [second][1..]);
    BrokenStays([second][1..]);
  }

  lemma TwoResultsAccepted(opener: Message, first: Message, second: Message)
    requires Opens(opener) && opener.toolCalls == [ToolCall("a", "f", ""), ToolCall("b", "g", "")]
    requires first.role.Tool? && first.toolCallId == "a" && second.role.Tool? && second.toolCallId == "b"
    ensures Accepted([opener, first, second])
  {
    assert opener.toolCalls[1..] == [ToolCall("b", "g", "")];
    assert CallIds([ToolCall("b", "g", "")]) == {"b"} + CallIds([]);
    assert CallIds(opener.toolCalls) == {"a", "b"} && {"a", "b"} - {"a"} == {"b"} && {"b"} - {"b"} == {};
    assert [opener, first, second][1..] == [first, second] && [first, second][1..] == [second] && [second][1..] == [];
    assert Follow(Awaiting({}), [opener, first, second]) == Follow(Awaiting({"a", "b"}), [first, second]);
    assert Follow(Awaiting({"a", "b"}), [first, second]) == Follow(Awaiting({"b"}), [second]);
    assert Follow(Awaiting({"b"}), [second]) == Follow(Awaiting({}), []);
  }

  /** An opener and its first result, when one message may stay. */
  lemma OpenerIsCut(opener: Message, result: Message)
    requires !opener.role.System? && result.role.Tool?
    ensures Trimmed([opener, result], 1, 0) == []
  {
    var two := [opener, result];
    assert forall m :: m in two ==> !m.role.System?;
    NoSystems(two);
    assert Last(two, 1) == [result];
    assert [result][1..] == [];
    assert DropTools([result]) == DropTools([]);
    assert [] + CutHead([result]) == [];
  }
}
