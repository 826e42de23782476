/**
 Context compaction (app/compaction.py): the middle of a history is replaced by one state
 message, the leading system messages and the last messages stay. A message dictionary is a
 Message; a missing key is an empty field.
 */
module Compaction {
  import opened Sequences
  import opened ToolHistory
  import opened ContextMemory

  /** The last message asks for tools and does not come right after a tool result. */
  predicate StripsLast(ms: seq<Message>) {
    ms != [] && Opens(ms[|ms| - 1]) && !(|ms| >= 2 && ms[|ms| - 2].role.Tool?)
  }

  function StripLast(ms: seq<Message>): seq<Message> {
    if StripsLast(ms) then ms[..|ms| - 1] + [ms[|ms| - 1].(toolCalls := [])] else ms
  }

  method RepairBoundaries(recent: seq<Message>) returns (out: seq<Message>)
    ensures out == StripLast(DropTools(recent))
  {
    out := recent;
    while out != [] && out[0].role.Tool?
      invariant DropTools(out) == DropTools(recent)
      decreases |out|
    {
      out := out[1..];
    }
    if out != [] {
      var last := out[|out| - 1];
      if Opens(last) && !(|out| >= 2 && out[|out| - 2].role.Tool?) {
        out := out[..|out| - 1] + [last.(toolCalls := [])];
      }
    }
  }

  /** A slice bound as Python reads it. */
  function Bound(n: nat, i: int): nat {
    if i < 0 then (if n + i < 0 then 0 else n + i) else if i > n then n else i
  }

  function LeadingSystems(ms: seq<Message>): (h: nat)
    ensures h <= |ms|
    ensures forall i :: 0 <= i < h ==> ms[i].role.System?
    ensures h < |ms| ==> !ms[h].role.System?
  {
    if ms == [] || !ms[0].role.System? then 0 else 1 + LeadingSystems(ms[1..])
  }

  function Recent(ms: seq<Message>, keepLast: int): seq<Message> {
    ms[Bound(|ms|, -keepLast)..]
  }

  function Middle(ms: seq<Message>, keepLast: int): seq<Message> {
    var from, to := LeadingSystems(ms), Bound(|ms|, -keepLast);
    if from <= to then ms[from..to] else []
  }

  predicate Compacts(ms: seq<Message>, keepLast: int) {
    |ms| > keepLast + 1
  }

  function StateMessage(text: string): Message {
    Message(User, "[COMPACTED CONTEXT — SHS Code structured state]\n" + text, [], "", "")
  }

  /** `summarise` renders the state block from the middle and the recent messages. */
  function Compacted(ms: seq<Message>, keepLast: int, summarise: (seq<Message>, seq<Message>) -> string): seq<Message> {
    if !Compacts(ms, keepLast) then ms
    else
      ms[..LeadingSystems(ms)]
      + [StateMessage(summarise(Middle(ms, keepLast), Recent(ms, keepLast)))]
      + StripLast(DropTools(Recent(ms, keepLast)))
  }

  method CompactMessages(messages: seq<Message>, keepLast: int, summarise: (seq<Message>, seq<Message>) -> string)
    returns (result: seq<Message>, compacted: bool)
    ensures compacted == Compacts(messages, keepLast)
    ensures result == Compacted(messages, keepLast, summarise)
    ensures compacted <==> |messages| > keepLast + 1
    ensures !compacted ==> result == messages
  {
    if |messages| <= keepLast + 1 {
      return messages, false;
    }
    var head: seq<Message> := [];
    var i := 0;
    while i < |messages| && messages[i].role.System?
      invariant i <= LeadingSystems(messages) && head == messages[..i]
      decreases |messages| - i
    {
      OneMore(messages, i);
      head := head + [messages[i]];
      i := i + 1;
    }
    var cut := Bound(|messages|, -keepLast);
    var middle := if i <= cut then messages[i..cut] else [];
    var recent := messages[cut..];
    CompactedForm(messages, keepLast, summarise, middle, recent);
    var state := StateMessage(summarise(middle, recent));
    recent := RepairBoundaries(recent);
    return head + [state] + recent, true;
  }

  lemma CompactedForm(ms: seq<Message>, keepLast: int, summarise: (seq<Message>, seq<Message>) -> string,
                      middle: seq<Message>, recent: seq<Message>)
    requires Compacts(ms, keepLast) && recent == Recent(ms, keepLast)
    requires var from, to := LeadingSystems(ms), Bound(|ms|, -keepLast);
      middle == if from <= to then ms[from..to] else []
    ensures Compacted(ms, keepLast, summarise)
         == ms[..LeadingSystems(ms)] + [StateMessage(summarise(middle, recent))] + StripLast(DropTools(recent))
  {
  }

  // ---------------------------------------------------------------- protocol

  lemma StripFollows(ms: seq<Message>, open: set<string>)
    requires Follow(Awaiting({}), ms) == Awaiting(open)
    ensures Accepted(StripLast(ms)) <==> open == {} || StripsLast(ms)
    ensures open == {} ==> StripLast(ms) == ms
  {
    if StripsLast(ms) {
      var init, last := ms[..|ms| - 1], ms[|ms| - 1];
      assert ms == init + [last];
      FollowAppend(Awaiting({}), init, [last]);
      FollowAppend(Awaiting({}), init, [last.(toolCalls := [])]);
      FollowOne(Follow(Awaiting({}), init), last);
      FollowOne(Follow(Awaiting({}), init), last.(toolCalls := []));
      assert last.toolCalls[0].id in CallIds(last.toolCalls);
    }
  }

  lemma HeadFollows(head: seq<Message>, state: Message, tail: seq<Message>)
    requires forall m :: m in head ==> m.role.System?
    requires !state.role.Tool? && !Opens(state)
    ensures Follow(Awaiting({}), head + [state] + tail) == Follow(Awaiting({}), tail)
  {
    Regroup(head, [state], tail);
    SystemsFollow(head, [state] + tail);
    assert ([state] + tail)[1..] == tail;
  }

  /** The kept tail is empty or leaves open the calls of the whole history. */
  lemma TailFollows(ms: seq<Message>, keepLast: int, open: set<string>)
    requires Follow(Awaiting({}), ms) == Awaiting(open)
    ensures var tail := DropTools(Recent(ms, keepLast)); tail == [] || Follow(Awaiting({}), tail) == Awaiting(open)
  {
    var recent := Recent(ms, keepLast);
    var k := DropToolsSplits(recent);
    DropToolsClean(recent);
    SuffixFrom(recent, k);
    SuffixFrom(ms, Bound(|ms|, -keepLast));
    SuffixTransitive(DropTools(recent), recent, ms);
    if DropTools(recent) != [] {
      SuffixKeepsOpen(ms, DropTools(recent), open);
    }
  }

  /**
   The compacted form of a history that keeps the protocol so far is acceptable exactly when no
   call is open, nothing is kept of the tail, or the asking message at its end is stripped.
   */
  lemma CompactedAcceptedIff(ms: seq<Message>, keepLast: int, summarise: (seq<Message>, seq<Message>) -> string,
                             open: set<string>)
    requires Follow(Awaiting({}), ms) == Awaiting(open) && Compacts(ms, keepLast)
    ensures var tail := DropTools(Recent(ms, keepLast));
      Accepted(Compacted(ms, keepLast, summarise)) <==> open == {} || tail == [] || StripsLast(tail)
  {
    var tail := DropTools(Recent(ms, keepLast));
    TailFollows(ms, keepLast, open);
    StripFollows(tail, if tail == [] then {} else open);
    HeadFollows(ms[..LeadingSystems(ms)], StateMessage(summarise(Middle(ms, keepLast), Recent(ms, keepLast))),
                StripLast(tail));
  }

  /** An acceptable history stays acceptable, for every value of keep_last. */
  lemma CompactKeepsAccepted(ms: seq<Message>, keepLast: int, summarise: (seq<Message>, seq<Message>) -> string)
    requires Accepted(ms)
    ensures Accepted(Compacted(ms, keepLast, summarise))
  {
    if Compacts(ms, keepLast) {
      TailFollows(ms, keepLast, {});
      CompactedAcceptedIff(ms, keepLast, summarise, {});
    }
  }

  /** A trailing call right behind another result is not stripped, although its result is missing. */
  lemma DanglingCallSurvives(summarise: (seq<Message>, seq<Message>) -> string)
    ensures var ask := (id: string) => Message(Assistant, "", [ToolCall(id, "f", "")], "", "");
            var ms := [Message(User, "go", [], "", ""), Message(User, "on", [], "", ""),
                       ask("a"), Message(Tool, "", [], "a", "f"), ask("b")];
            Follow(Awaiting({}), ms) == Awaiting({"b"}) && !Accepted(Compacted(ms, 3, summarise))
  {
    var a := Message(Assistant, "", [ToolCall("a", "f", "")], "", "");
    var b := Message(Assistant, "", [ToolCall("b", "f", "")], "", "");
    var u, v, r := Message(User, "go", [], "", ""), Message(User, "on", [], "", ""), Message(Tool, "", [], "a", "f");
    var tail, ms := [a, r, b], [u, v, a, r, b];
    assert CallIds([]) == {} && a.toolCalls[1..] == [] && b.toolCalls[1..] == [];
    assert {"a"} - {"a"} == {};
    assert tail[1..] == [r, b] && [r, b][1..] == [b] && [b][1..] == [];
    assert Follow(Awaiting({}), tail) == Follow(Awaiting({"a"}), [r, b]);
    assert Follow(Awaiting({"a"}), [r, b]) == Follow(Awaiting({}), [b]) == Awaiting({"b"});
    assert ms[1..] == [v, a, r, b] && [v, a, r, b][1..] == tail;
    assert Follow(Awaiting({}), ms) == Follow(Awaiting({}), [v, a, r, b]) == Follow(Awaiting({}), tail);
    assert Recent(ms, 3) == tail && DropTools(tail) == tail;
    CompactedAcceptedIff(ms, 3, summarise, {"b"});
  }

  // ---------------------------------------------------------------- conservation

  lemma {:induction false} DropToolsSplits(ms: seq<Message>) returns (k: nat)
    ensures k <= |ms| && DropTools(ms) == ms[k..] && forall i :: 0 <= i < k ==> ms[i].role.Tool?
    decreases |ms|
  {
    if ms != [] && ms[0].role.Tool? {
      var j := DropToolsSplits(ms[1..]);
      k := j + 1;
      assert ms[1..][j..] == ms[k..];
      assert forall i :: 0 < i < k ==> ms[i] == ms[1..][i - 1];
    } else {
      k := 0;
    }
  }

  /** The calls of the last message go, unless their results may be in front of it. */
  ghost predicate IsStripped(kept: seq<Message>, tail: seq<Message>) {
    var n := |tail| - 1;
    if n >= 0 && tail[n].role.Assistant? && tail[n].toolCalls != [] && (n == 0 || !tail[n - 1].role.Tool?)
    then kept == tail[..n] + [tail[n].(toolCalls := [])]
    else kept == tail
  }

  /** Where the kept part begins: keep_last messages from the end; counted from the front when not positive. */
  ghost predicate IsCut(cut: nat, n: nat, keepLast: int) {
    if keepLast > 0 then cut == n - keepLast else cut == if -keepLast < n then -keepLast else n
  }

  /**
   What becomes of the messages of any history: leading system messages stay as the head, a middle
   is summarised in one user message, tool results in front of the kept tail are dropped, and the
   tail stays but for the calls of a stripped last message. These four parts are the history, each
   message in exactly one of them, if and only if the leading system messages do not reach into the
   kept part.
   */
  lemma CompactConserves(ms: seq<Message>, keepLast: int, summarise: (seq<Message>, seq<Message>) -> string)
    returns (head: seq<Message>, middle: seq<Message>, dropped: seq<Message>, tail: seq<Message>,
             state: Message, kept: seq<Message>, cut: nat)
    requires |ms| > keepLast + 1
    ensures Compacted(ms, keepLast, summarise) == head + [state] + kept && IsStripped(kept, tail)
    ensures state == Message(User, "[COMPACTED CONTEXT — SHS Code structured state]\n"
                                   + summarise(middle, dropped + tail), [], "", "")
    ensures IsCut(cut, |ms|, keepLast) && cut <= |ms| && dropped + tail == ms[cut..]
    ensures ms == head + middle + dropped + tail <==> |head| <= cut
    ensures |head| <= |ms| && head == ms[..|head|] && (|head| < |ms| ==> !ms[|head|].role.System?)
    ensures (forall m :: m in head ==> m.role.System?) && middle == if |head| <= cut then ms[|head|..cut] else []
    ensures (forall m :: m in dropped ==> m.role.Tool?) && (tail != [] ==> !tail[0].role.Tool?)
    ensures Accepted(ms) ==> kept == tail
  {
    var recent, from := Recent(ms, keepLast), LeadingSystems(ms);
    cut := Bound(|ms|, -keepLast);
    head, middle := ms[..from], Middle(ms, keepLast);
    dropped, tail := DropToolsParts(recent);
    state, kept := StateMessage(summarise(middle, recent)), StripLast(tail);
    BoundIsCut(|ms|, keepLast);
    StripLastIs(tail);
    HeadIs(ms);
    Partition(ms, from, cut, |dropped|);
    SameParts(recent, dropped, tail);
    if Accepted(ms) {
      TailFollows(ms, keepLast, {});
      StripFollows(tail, {});
    }
  }

  lemma BoundIsCut(n: nat, keepLast: int)
    requires n > keepLast + 1
    ensures IsCut(Bound(n, -keepLast), n, keepLast)
  {
  }

  lemma StripLastIs(tail: seq<Message>)
    ensures IsStripped(StripLast(tail), tail)
  {
  }

  lemma HeadIs(ms: seq<Message>)
    ensures var head := ms[..LeadingSystems(ms)];
      |head| == LeadingSystems(ms) && forall m :: m in head ==> m.role.System?
  {
  }

  lemma DropToolsParts(ms: seq<Message>) returns (dropped: seq<Message>, tail: seq<Message>)
    ensures ms == dropped + tail && tail == DropTools(ms)
    ensures (forall m :: m in dropped ==> m.role.Tool?) && (tail != [] ==> !tail[0].role.Tool?)
  {
    var k := DropToolsSplits(ms);
    dropped, tail := ms[..k], ms[k..];
    SplitAt(ms, k);
    DropToolsClean(ms);
  }

  lemma SameParts(ms: seq<Message>, a: seq<Message>, b: seq<Message>)
    requires ms == a + b
    ensures ms[..|a|] == a && ms[|a|..] == b
  {
  }

  lemma Partition(ms: seq<Message>, from: nat, cut: nat, k: nat)
    requires from <= |ms| && cut <= |ms| && k <= |ms| - cut
    ensures var middle := if from <= cut then ms[from..cut] else [];
      ms == ms[..from] + middle + ms[cut..][..k] + ms[cut..][k..] <==> from <= cut
  {
    SplitAt(ms[cut..], k);
    if from <= cut {
      ThreeParts(ms, from, cut);
      Regroup(ms[..from] + ms[from..cut], ms[cut..][..k], ms[cut..][k..]);
    } else {
      assert |ms[..from] + [] + ms[cut..][..k] + ms[cut..][k..]| == from + |ms| - cut;
    }
  }

  lemma ThreeParts(ms: seq<Message>, i: nat, k: nat)
    requires i <= k <= |ms|
    ensures ms == ms[..i] + ms[i..k] + ms[k..]
  {
  }
}
