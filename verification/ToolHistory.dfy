/**
 Conversation histories and the tool-call protocol (app/schema.py): an assistant message
 with tool calls must be followed by the results of exactly its calls before anything else.
 */
module ToolHistory {
  import opened Sequences
  import opened OrderedDict

  datatype Role = System | User | Assistant | Tool

  datatype ToolCall = ToolCall(id: string, name: string, arguments: string)

  /** Absent text, calls and ids are "" and []: the code treats None, missing and empty alike. */
  datatype Message = Message(role: Role, content: string, toolCalls: seq<ToolCall>, toolCallId: string, name: string)

  /** An assistant message that opens a block of tool results. */
  predicate Opens(m: Message) {
    m.role.Assistant? && m.toolCalls != []
  }

  function CallIds(calls: seq<ToolCall>): set<string> {
    if calls == [] then {} else {calls[0].id} + CallIds(calls[1..])
  }

  // ---------------------------------------------------------------- the protocol

  /** The ids still to be answered, or Broken once the protocol is violated. */
  datatype Progress = Broken | Awaiting(ids: set<string>)

  function Next(p: Progress, m: Message): Progress {
    match p
    case Broken => Broken
    case Awaiting(ids) =>
      if m.role.Tool? then (if m.toolCallId in ids then Awaiting(ids - {m.toolCallId}) else Broken)
      else if ids != {} then Broken
      else if Opens(m) then Awaiting(CallIds(m.toolCalls))
      else Awaiting({})
  }

  function Follow(p: Progress, ms: seq<Message>): Progress
    decreases |ms|
  {
    if ms == [] then p else Follow(Next(p, ms[0]), ms[1..])
  }

  /** A request the provider accepts: no violation, and nothing left to answer. */
  predicate Accepted(ms: seq<Message>) {
    Follow(Awaiting({}), ms) == Awaiting({})
  }

  lemma {:induction false} FollowAppend(p: Progress, a: seq<Message>, b: seq<Message>)
    ensures Follow(p, a + b) == Follow(Follow(p, a), b)
    decreases |a|
  {
    if a == [] {
      assert a + b == b;
    } else {
      assert (a + b)[1..] == a[1..] + b;
      FollowAppend(Next(p, a[0]), a[1..], b);
    }
  }

  lemma FollowOne(p: Progress, m: Message)
    ensures Follow(p, [m]) == Next(p, m)
  {
    assert [m][1..] == [];
  }

  lemma {:induction false} BrokenStays(ms: seq<Message>)
    ensures Follow(Broken, ms) == Broken
    decreases |ms|
  {
    if ms != [] {
      BrokenStays(ms[1..]);
    }
  }

  // ---------------------------------------------------------------- the pending calls

  /** An unanswered call: its id and the name of its tool. */
  type Call = Item<string>

  type Pending = Dict<string>

  function PutAll(p: Pending, calls: seq<ToolCall>): Pending
    decreases |calls|
  {
    if calls == [] then p else PutAll(Put(p, calls[0].id, calls[0].name), calls[1..])
  }

  lemma {:induction false} PutAllProperties(p: Pending, calls: seq<ToolCall>)
    requires NoRepeats(p)
    ensures NoRepeats(PutAll(p, calls)) && Keys(PutAll(p, calls)) == Keys(p) + CallIds(calls)
    decreases |calls|
  {
    if calls != [] {
      PutProperties(p, calls[0].id, calls[0].name);
      PutAllProperties(Put(p, calls[0].id, calls[0].name), calls[1..]);
    }
  }

  /** The calls of one assistant message; a repeated id keeps one entry. */
  function CallsOf(m: Message): Pending {
    PutAll([], m.toolCalls)
  }

  lemma CallsOfProperties(m: Message)
    ensures NoRepeats(CallsOf(m)) && Keys(CallsOf(m)) == CallIds(m.toolCalls)
  {
    PutAllProperties([], m.toolCalls);
  }

  // ---------------------------------------------------------------- the repair

  const NOTICE :=
    "(interrupted before execution — result unavailable; re-issue the tool call if it is still needed)"

  function Synthetic(c: Call): Message {
    Message(Tool, NOTICE, [], c.key, c.value)
  }

  /** The message is a tool result that reports the call with this id, of this tool, as interrupted. */
  predicate StandsInFor(m: Message, id: string, tool: string) {
    && m.role.Tool? && m.toolCalls == [] && m.toolCallId == id && m.name == tool
    && m.content
      == "(interrupted before execution — result unavailable; re-issue the tool call if it is still needed)"
  }

  function Flushed(p: Pending): seq<Message> {
    if p == [] then [] else [Synthetic(p[0])] + Flushed(p[1..])
  }

  /** The message answers one of the pending calls; an empty id answers nothing. */
  predicate Answers(m: Message, p: Pending) {
    m.toolCallId != "" && m.toolCallId in Keys(p)
  }

  /** What the repair appends for the messages still to come, with these calls pending. */
  function Repair(p: Pending, ms: seq<Message>): seq<Message>
    decreases |ms|
  {
    if ms == [] then Flushed(p)
    else
      var m, rest := ms[0], ms[1..];
      if Opens(m) then Flushed(p) + [m] + Repair(CallsOf(m), rest)
      else if m.role.Tool? then
        if Answers(m, p) then [m] + Repair(Pop(p, m.toolCallId), rest) else Repair(p, rest)
      else Flushed(p) + [m] + Repair([], rest)
  }

  function Sanitized(ms: seq<Message>): seq<Message> {
    Repair([], ms)
  }

  /** The flush loop: a synthetic result for every call still pending. */
  method CloseOut(out: seq<Message>, pending: Pending) returns (out': seq<Message>)
    ensures out' == out + Flushed(pending)
    ensures |out'| == |out| + |pending| && out <= out'
    ensures forall k :: 0 <= k < |pending| ==> StandsInFor(out'[|out| + k], pending[k].key, pending[k].value)
  {
    FlushedAt(pending);
    out' := out;
    for k := 0 to |pending|
      invariant out' + Flushed(pending[k..]) == out + Flushed(pending)
    {
      assert pending[k..][1..] == pending[k + 1..];
      out' := out' + [Synthetic(pending[k])];
    }
  }

  /** What one message adds to the result, and what it leaves pending. */
  function Emitted(p: Pending, m: Message): seq<Message> {
    if !m.role.Tool? then Flushed(p) + [m] else if Answers(m, p) then [m] else []
  }

  function PendingAfter(p: Pending, m: Message): Pending {
    if Opens(m) then CallsOf(m)
    else if !m.role.Tool? then []
    else if Answers(m, p) then Pop(p, m.toolCallId) else p
  }

  lemma OneMessage(out: seq<Message>, p: Pending, messages: seq<Message>, i: nat)
    requires i < |messages|
    ensures out + Repair(p, messages[i..])
         == out + Emitted(p, messages[i]) + Repair(PendingAfter(p, messages[i]), messages[i + 1..])
  {
    var ms := messages[i..];
    assert ms[0] == messages[i] && ms[1..] == messages[i + 1..];
    assert Repair(p, ms) == Emitted(p, ms[0]) + Repair(PendingAfter(p, ms[0]), ms[1..]);
  }

  method SanitizeToolHistory(messages: seq<Message>) returns (out: seq<Message>)
    ensures out == Sanitized(messages)
  {
    out := [];
    var pending: Pending := [];
    for i := 0 to |messages|
      invariant out + Repair(pending, messages[i..]) == Sanitized(messages)
    {
      var m := messages[i];
      OneMessage(out, pending, messages, i);
      Regroup(out, Flushed(pending), [m]);
      if Opens(m) {
        out := CloseOut(out, pending);
        out, pending := out + [m], CallsOf(m);
      } else if m.role.Tool? {
        if Answers(m, pending) {
          out, pending := out + [m], Pop(pending, m.toolCallId);
        }
      } else {
        if pending != [] {
          out := CloseOut(out, pending);
          pending := [];
        }
        out := out + [m];
      }
    }
    Regroup(out, Flushed(pending), []);
    if pending != [] {
      out := CloseOut(out, pending);
    }
  }

  // ---------------------------------------------------------------- the result is accepted

  lemma {:induction false} FlushAnswersAll(p: Pending)
    requires NoRepeats(p)
    ensures Follow(Awaiting(Keys(p)), Flushed(p)) == Awaiting({})
  {
    if p != [] {
      FlushAnswersAll(p[1..]);
      assert Keys(p) - {p[0].key} == Keys(p[1..]);
      assert Flushed(p)[1..] == Flushed(p[1..]);
    }
  }

  /** Closing a block and going on with a message that is no tool result. */
  lemma FlushThen(p: Pending, m: Message, rest: seq<Message>)
    requires NoRepeats(p) && !m.role.Tool?
    ensures Follow(Awaiting(Keys(p)), Flushed(p) + [m] + rest)
         == Follow(Awaiting(if Opens(m) then CallIds(m.toolCalls) else {}), rest)
  {
    assert Flushed(p) + [m] + rest == Flushed(p) + ([m] + rest);
    FollowAppend(Awaiting(Keys(p)), Flushed(p), [m] + rest);
    FlushAnswersAll(p);
    assert ([m] + rest)[1..] == rest;
  }

  lemma {:induction false} RepairAccepted(p: Pending, ms: seq<Message>)
    requires NoRepeats(p)
    ensures Follow(Awaiting(Keys(p)), Repair(p, ms)) == Awaiting({})
    decreases |ms|
  {
    if ms == [] {
      FlushAnswersAll(p);
    } else {
      var m, rest := ms[0], ms[1..];
      if m.role.Tool? {
        PopProperties(p, m.toolCallId);
        if Answers(m, p) {
          RepairAccepted(Pop(p, m.toolCallId), rest);
          assert Repair(p, ms)[1..] == Repair(Pop(p, m.toolCallId), rest);
        } else {
          RepairAccepted(p, rest);
        }
      } else {
        var q := if Opens(m) then CallsOf(m) else [];
        CallsOfProperties(m);
        RepairAccepted(q, rest);
        FlushThen(p, m, Repair(q, rest));
      }
    }
  }

  /** Whatever the history, the repaired one keeps the protocol to the end. */
  lemma SanitizedIsAccepted(ms: seq<Message>)
    ensures Accepted(Sanitized(ms))
  {
    RepairAccepted([], ms);
  }

  // ---------------------------------------------------------------- empty ids

  predicate NoEmptyCallId(ms: seq<Message>) {
    forall m :: m in ms && Opens(m) ==> "" !in CallIds(m.toolCalls)
  }

  predicate NoEmptyResultId(ms: seq<Message>) {
    forall m :: m in ms && m.role.Tool? ==> m.toolCallId != ""
  }

  lemma {:induction false} FlushedIds(p: Pending)
    ensures NoEmptyResultId(Flushed(p)) <==> "" !in Keys(p)
  {
    if p != [] {
      FlushedIds(p[1..]);
      assert Flushed(p) == [Synthetic(p[0])] + Flushed(p[1..]);
      assert Synthetic(p[0]) in Flushed(p);
    }
  }

  lemma NoEmptyResultIdConcat(a: seq<Message>, b: seq<Message>)
    ensures NoEmptyResultId(a + b) <==> NoEmptyResultId(a) && NoEmptyResultId(b)
  {
    assert forall m :: m in a + b <==> m in a || m in b;
  }

  lemma {:induction false} RepairResultIds(p: Pending, ms: seq<Message>)
    requires NoRepeats(p)
    ensures NoEmptyResultId(Repair(p, ms)) <==> "" !in Keys(p) && NoEmptyCallId(ms)
    decreases |ms|
  {
    FlushedIds(p);
    if ms != [] {
      var m, rest := ms[0], ms[1..];
      assert ms == [m] + rest;
      if m.role.Tool? {
        PopProperties(p, m.toolCallId);
        RepairResultIds(if Answers(m, p) then Pop(p, m.toolCallId) else p, rest);
        NoEmptyResultIdConcat([m], Repair(Pop(p, m.toolCallId), rest));
      } else {
        var q := if Opens(m) then CallsOf(m) else [];
        CallsOfProperties(m);
        RepairResultIds(q, rest);
        NoEmptyResultIdConcat(Flushed(p) + [m], Repair(q, rest));
        NoEmptyResultIdConcat(Flushed(p), [m]);
      }
    }
  }

  /** Taking an empty id to answer nothing, the repair succeeds exactly when no call has one. */
  lemma StrictlyAcceptedIff(ms: seq<Message>)
    ensures Accepted(Sanitized(ms)) && NoEmptyResultId(Sanitized(ms)) <==> NoEmptyCallId(ms)
  {
    SanitizedIsAccepted(ms);
    RepairResultIds([], ms);
  }

  // ---------------------------------------------------------------- fixpoints

  lemma {:induction false} AcceptedIsKept(p: Pending, ms: seq<Message>)
    requires NoRepeats(p) && "" !in Keys(p) && NoEmptyCallId(ms)
    requires Follow(Awaiting(Keys(p)), ms) == Awaiting({})
    ensures Repair(p, ms) == ms
    decreases |ms|
  {
    if ms != [] {
      var m, rest := ms[0], ms[1..];
      assert ms == [m] + rest && m in ms;
      BrokenStays(rest);
      if m.role.Tool? {
        PopProperties(p, m.toolCallId);
        AcceptedIsKept(Pop(p, m.toolCallId), rest);
      } else {
        assert p == [];
        CallsOfProperties(m);
        AcceptedIsKept(if Opens(m) then CallsOf(m) else [], rest);
      }
    }
  }

  /** With no empty call id, the histories the repair leaves alone are exactly the accepted ones. */
  lemma UnchangedIffAccepted(ms: seq<Message>)
    requires NoEmptyCallId(ms)
    ensures Sanitized(ms) == ms <==> Accepted(ms)
  {
    SanitizedIsAccepted(ms);
    if Accepted(ms) {
      AcceptedIsKept([], ms);
    }
  }

  /** No call with an empty id stands before another pending one. */
  predicate EmptyIsLast(p: Pending) {
    forall i :: 0 <= i < |p| - 1 ==> p[i].key != ""
  }

  /** In no block is a call left unanswered behind a call with an empty id. */
  predicate EmptiesClosedLast(p: Pending, ms: seq<Message>)
    decreases |ms|
  {
    if ms == [] then EmptyIsLast(p)
    else if ms[0].role.Tool? then
      EmptiesClosedLast(if Answers(ms[0], p) then Pop(p, ms[0].toolCallId) else p, ms[1..])
    else
      EmptyIsLast(p) && EmptiesClosedLast(if Opens(ms[0]) then CallsOf(ms[0]) else [], ms[1..])
  }

  /** The calls in the order a second repair answers them: those with an empty id last. */
  function EmptyMovedLast(p: Pending): Pending {
    if p == [] then [] else if p[0].key == "" then EmptyMovedLast(p[1..]) + [p[0]] else [p[0]] + EmptyMovedLast(p[1..])
  }

  lemma {:induction false} MovedKeepsIds(p: Pending)
    ensures |EmptyMovedLast(p)| == |p| && multiset(EmptyMovedLast(p)) == multiset(p)
  {
    if p != [] {
      MovedKeepsIds(p[1..]);
      assert p == [p[0]] + p[1..];
    }
  }

  lemma {:induction false} MovedIffNotLast(p: Pending)
    requires NoRepeats(p)
    ensures EmptyMovedLast(p) == p <==> EmptyIsLast(p)
  {
    MovedKeepsIds(p);
    if p != [] {
      var rest, moved := p[1..], EmptyMovedLast(p[1..]);
      MovedKeepsIds(rest);
      MovedIffNotLast(rest);
      assert p == [p[0]] + rest;
      if p[0].key == "" {
        if rest != [] {
          assert moved[0] in multiset(rest);
          var k :| 0 <= k < |rest| && rest[k] == moved[0];
          KeyIsIn(rest, k);
          assert EmptyMovedLast(p)[0] != p[0];
        }
      } else {
        assert EmptyMovedLast(p) == p <==> moved == rest by {
          SplitsAlike([p[0]], moved, [p[0]], rest);
        }
        assert EmptyIsLast(p) <==> EmptyIsLast(rest) by {
          if EmptyIsLast(p) {
            forall i | 0 <= i < |rest| - 1 ensures rest[i].key != "" { assert rest[i] == p[i + 1]; }
          }
          if EmptyIsLast(rest) {
            forall i | 0 <= i < |p| - 1 ensures p[i].key != "" { assert i > 0 ==> p[i] == rest[i - 1]; }
          }
        }
      }
    }
  }

  lemma {:induction false} FlushedProperties(p: Pending, q: Pending)
    requires |p| == |q|
    ensures |Flushed(p)| == |p| && |Flushed(q)| == |q|
    ensures Flushed(p) == Flushed(q) <==> p == q
  {
    if p != [] {
      FlushedProperties(p[1..], q[1..]);
      assert p == [p[0]] + p[1..] && q == [q[0]] + q[1..];
      SplitsAlike([Synthetic(p[0])], Flushed(p[1..]), [Synthetic(q[0])], Flushed(q[1..]));
    }
  }

  /** Repairing a flushed block again drops a synthetic answer to an empty id and flushes it last. */
  lemma {:induction false} FlushedAgain(e: Pending, p: Pending, t: seq<Message>)
    requires |e| <= 1 && (e != [] ==> e[0].key == "") && NoRepeats(e + p)
    requires t == [] || !t[0].role.Tool?
    ensures Repair(e + p, Flushed(p) + t) == Flushed(EmptyMovedLast(p) + e) + Repair([], t)
    decreases |p|
  {
    if p == [] {
      assert e + p == e && Flushed(p) + t == t && EmptyMovedLast(p) + e == e;
      ClosesFirst(e, t);
    } else {
      var c, q := p[0], p[1..];
      var head, tail := Synthetic(c), Flushed(q) + t;
      Regroup([head], Flushed(q), t);
      ToolHead(e + p, head, tail);
      if c.key == "" {
        SetAside(e, p, c, q);
        FlushedAgain([c], q, t);
      } else {
        PopBehind(e, p);
        FlushedAgain(e, q, t);
        FlushedCons(c, EmptyMovedLast(q), e);
        Regroup([head], Flushed(EmptyMovedLast(q) + e), Repair([], t));
      }
    }
  }

  lemma ToolHead(p: Pending, m: Message, tail: seq<Message>)
    requires m.role.Tool?
    ensures Repair(p, [m] + tail) == if Answers(m, p) then [m] + Repair(Pop(p, m.toolCallId), tail) else Repair(p, tail)
  {
    assert ([m] + tail)[1..] == tail;
  }

  lemma SetAside(e: Pending, p: Pending, c: Call, q: Pending)
    requires |e| <= 1 && (e != [] ==> e[0].key == "") && NoRepeats(e + p)
    requires p != [] && p[0] == c && p[1..] == q && c.key == ""
    ensures e == [] && e + p == [c] + q && EmptyMovedLast(p) + e == EmptyMovedLast(q) + [c]
  {
  }

  lemma FlushedCons(c: Call, q: Pending, e: Pending)
    ensures Flushed([c] + q + e) == [Synthetic(c)] + Flushed(q + e)
  {
    assert ([c] + q + e)[1..] == q + e;
  }

  lemma ClosesFirst(e: Pending, t: seq<Message>)
    requires t == [] || !t[0].role.Tool?
    ensures Repair(e, t) == Flushed(e) + Repair([], t)
  {
    if t == [] {
      Regroup(Flushed(e), [], []);
    } else {
      var x := Repair(PendingAfter([], t[0]), t[1..]);
      NothingPending(t[0], x);
      Regroup(Flushed(e), [t[0]], x);
    }
  }

  lemma NothingPending(m: Message, x: seq<Message>)
    ensures Flushed([]) + [m] + x == [m] + x
  {
  }

  lemma PopBehind(e: Pending, p: Pending)
    requires |e| <= 1 && (e != [] ==> e[0].key == "") && NoRepeats(e + p)
    requires p != [] && p[0].key != ""
    ensures p[0].key in Keys(e + p) && Pop(e + p, p[0].key) == e + p[1..] && NoRepeats(e + p[1..])
  {
    PopProperties(e + p, p[0].key);
    if e == [] {
      assert e + p == p;
    } else {
      assert (e + p)[0] == e[0] && (e + p)[1..] == p;
    }
    assert Pop(e + p, p[0].key) == e + p[1..];
  }

  lemma {:induction false} RepairTwiceIff(p: Pending, ms: seq<Message>)
    requires NoRepeats(p)
    ensures Repair(p, Repair(p, ms)) == Repair(p, ms) <==> EmptiesClosedLast(p, ms)
    decreases |ms|
  {
    MovedIffNotLast(p);
    if ms == [] {
      FlushedAlone(p, []);
      MovedKeepsIds(p);
      FlushedProperties(EmptyMovedLast(p), p);
      assert Flushed(p) + [] == Flushed(p);
    } else {
      var m, rest := ms[0], ms[1..];
      var q := PendingAfter(p, m);
      CallsOfProperties(m);
      PopProperties(p, m.toolCallId);
      RepairTwiceIff(q, rest);
      if !m.role.Tool? {
        BlockAgain(p, m, q, Repair(q, rest));
      } else if Answers(m, p) {
        var x := Repair(q, rest);
        ToolHead(p, m, x);
        SplitsAlike([m], Repair(q, x), [m], x);
      }
    }
  }

  lemma BlockAgain(p: Pending, m: Message, q: Pending, x: seq<Message>)
    requires NoRepeats(p) && !m.role.Tool? && q == PendingAfter([], m)
    ensures Repair(p, Flushed(p) + [m] + x) == Flushed(p) + [m] + x
        <==> EmptyMovedLast(p) == p && Repair(q, x) == x
  {
    var t := [m] + x;
    FlushedAlone(p, t);
    DialogueHead(m, q, x);
    Regroup(Flushed(p), [m], x);
    MovedKeepsIds(p);
    FlushedProperties(EmptyMovedLast(p), p);
    SplitsAlike(Flushed(EmptyMovedLast(p)), [m] + Repair(q, x), Flushed(p), t);
    SplitsAlike([m], Repair(q, x), [m], x);
  }

  lemma FlushedAlone(p: Pending, t: seq<Message>)
    requires NoRepeats(p) && (t == [] || !t[0].role.Tool?)
    ensures Repair(p, Flushed(p) + t) == Flushed(EmptyMovedLast(p)) + Repair([], t)
  {
    assert [] + p == p && EmptyMovedLast(p) + [] == EmptyMovedLast(p);
    FlushedAgain([], p, t);
  }

  lemma DialogueHead(m: Message, q: Pending, x: seq<Message>)
    requires !m.role.Tool? && q == PendingAfter([], m)
    ensures Repair([], [m] + x) == [m] + Repair(q, x)
  {
    assert ([m] + x)[1..] == x;
    NothingPending(m, Repair(q, x));
  }

  /** Repairing twice is repairing once, exactly when no empty id precedes an unanswered call of its block. */
  lemma IdempotentIff(ms: seq<Message>)
    ensures Sanitized(Sanitized(ms)) == Sanitized(ms) <==> EmptiesClosedLast([], ms)
  {
    RepairTwiceIff([], ms);
  }

  lemma {:induction false} NoEmptyIdsCloseLast(p: Pending, ms: seq<Message>)
    requires NoRepeats(p) && "" !in Keys(p) && NoEmptyCallId(ms)
    ensures EmptiesClosedLast(p, ms)
    decreases |ms|
  {
    forall i | 0 <= i < |p| ensures p[i].key != "" {
      KeyIsIn(p, i);
    }
    if ms != [] {
      assert ms == [ms[0]] + ms[1..] && ms[0] in ms;
      CallsOfProperties(ms[0]);
      PopProperties(p, ms[0].toolCallId);
      NoEmptyIdsCloseLast(PendingAfter(p, ms[0]), ms[1..]);
    }
  }

  /** In particular whenever every call has an id. */
  lemma IdempotentOnIdentifiedCalls(ms: seq<Message>)
    requires NoEmptyCallId(ms)
    ensures Sanitized(Sanitized(ms)) == Sanitized(ms)
  {
    NoEmptyIdsCloseLast([], ms);
    IdempotentIff(ms);
  }

  /** One block with two unanswered calls, the first of them without an id. */
  lemma NotAlwaysIdempotent()
    ensures var ms := [Message(Assistant, "", [ToolCall("", "a", ""), ToolCall("x", "b", "")], "", "")];
            Sanitized(Sanitized(ms)) != Sanitized(ms)
  {
    var calls := [ToolCall("", "a", ""), ToolCall("x", "b", "")];
    var ms := [Message(Assistant, "", calls, "", "")];
    assert calls[1..] == [ToolCall("x", "b", "")] && calls[1..][1..] == [];
    assert ms[1..] == [];
    assert PutAll([Item("", "a")], calls[1..]) == PutAll(Put([Item("", "a")], "x", "b"), []);
    assert CallsOf(ms[0]) == [Item("", "a"), Item("x", "b")];
    assert !EmptyIsLast(CallsOf(ms[0])) by { assert CallsOf(ms[0])[0].key == ""; }
    IdempotentIff(ms);
  }

  // ---------------------------------------------------------------- what becomes of each message

  /** Message j opened the block that is still open at i, and there its call id is unanswered. */
  predicate OpenCall(ms: seq<Message>, j: nat, id: string, i: nat)
    requires i <= |ms|
  {
    && j < i && Opens(ms[j]) && id in CallIds(ms[j].toolCalls)
    && forall k :: j < k < i ==> ms[k].role.Tool? && (id == "" || ms[k].toolCallId != id)
  }

  ghost predicate Unanswered(ms: seq<Message>, id: string, i: nat)
    requires i <= |ms|
  {
    exists j: nat :: OpenCall(ms, j, id, i)
  }

  /** A message survives unless it is a tool result that answers no open call. */
  ghost predicate Survives(ms: seq<Message>, i: nat)
    requires i < |ms|
  {
    ms[i].role.Tool? ==> ms[i].toolCallId != "" && Unanswered(ms, ms[i].toolCallId, i)
  }

  /** Where a result message comes from: an input index, or the call it stands in for. */
  datatype Origin = Input(index: nat) | StandIn(call: Call, before: nat)

  function StandIns(p: Pending, i: nat): seq<Origin> {
    seq(|p|, k requires 0 <= k < |p| => StandIn(p[k], i))
  }

  /** The origins of the messages of Repair(p, ms[i..]), one for one. */
  function Origins(p: Pending, ms: seq<Message>, i: nat): seq<Origin>
    requires i <= |ms|
    decreases |ms| - i
  {
    if i == |ms| then StandIns(p, i) else OriginsHere(p, ms, i) + Origins(PendingAfter(p, ms[i]), ms, i + 1)
  }

  function OriginsHere(p: Pending, ms: seq<Message>, i: nat): seq<Origin>
    requires i < |ms|
  {
    if !ms[i].role.Tool? then StandIns(p, i) + [Input(i)] else if Answers(ms[i], p) then [Input(i)] else []
  }

  function MessageOf(ms: seq<Message>, o: Origin): Message
    requires o.Input? ==> o.index < |ms|
  {
    if o.Input? then ms[o.index] else Synthetic(o.call)
  }

  /** The pending calls are exactly the unanswered ones. */
  ghost predicate Tracks(ms: seq<Message>, p: Pending, i: nat)
    requires i <= |ms|
  {
    NoRepeats(p) && forall id :: id in Keys(p) <==> Unanswered(ms, id, i)
  }

  lemma TracksNext(ms: seq<Message>, p: Pending, i: nat)
    requires i < |ms| && Tracks(ms, p, i)
    ensures Tracks(ms, PendingAfter(p, ms[i]), i + 1)
  {
    var m := ms[i];
    var q := PendingAfter(p, m);
    CallsOfProperties(m);
    PopProperties(p, m.toolCallId);
    forall id ensures id in Keys(q) <==> Unanswered(ms, id, i + 1) {
      if m.role.Tool? {
        StillUnanswered(ms, id, i);
      } else if Opens(m) {
        OnlyThisBlock(ms, id, i);
      } else {
        NoBlockHere(ms, id, i);
      }
    }
  }

  lemma StillUnanswered(ms: seq<Message>, id: string, i: nat)
    requires i < |ms| && ms[i].role.Tool?
    ensures Unanswered(ms, id, i + 1) <==> Unanswered(ms, id, i) && (id == "" || ms[i].toolCallId != id)
  {
    var n := i + 1;
    if j: nat :| OpenCall(ms, j, id, n) {
      assert OpenCall(ms, j, id, i);
    }
    if j: nat :| OpenCall(ms, j, id, i) {
      if id == "" || ms[i].toolCallId != id {
        assert OpenCall(ms, j, id, i + 1);
      }
    }
  }

  lemma OnlyThisBlock(ms: seq<Message>, id: string, i: nat)
    requires i < |ms| && Opens(ms[i])
    ensures Unanswered(ms, id, i + 1) <==> id in CallIds(ms[i].toolCalls)
  {
    var n := i + 1;
    if id in CallIds(ms[i].toolCalls) {
      assert OpenCall(ms, i, id, n);
    }
    if j: nat :| OpenCall(ms, j, id, n) {
      assert j == i;
    }
  }

  lemma NoBlockHere(ms: seq<Message>, id: string, i: nat)
    requires i < |ms| && !ms[i].role.Tool? && !Opens(ms[i])
    ensures !Unanswered(ms, id, i + 1)
  {
    var n := i + 1;
    forall j: nat ensures !OpenCall(ms, j, id, n) {
    }
  }

  /** Everything a list of origins must satisfy from index i on. */
  ghost predicate Faithful(ms: seq<Message>, os: seq<Origin>, i: nat)
    requires i <= |ms|
  {
    && (forall k :: 0 <= k < |os| ==> match os[k]
         case Input(x) => i <= x < |ms| && Survives(ms, x)
         case StandIn(c, x) => i <= x <= |ms| && Unanswered(ms, c.key, x) && (x < |ms| ==> !ms[x].role.Tool?))
    && (forall x :: i <= x < |ms| && Survives(ms, x) ==> Input(x) in os)
    && (forall k, l :: 0 <= k < l < |os| && os[k].Input? && os[l].Input? ==> os[k].index < os[l].index)
  }

  lemma {:induction false} OriginsFaithful(p: Pending, ms: seq<Message>, i: nat)
    requires i <= |ms| && Tracks(ms, p, i)
    ensures Faithful(ms, Origins(p, ms, i), i)
    decreases |ms| - i
  {
    forall k | 0 <= k < |p| ensures Unanswered(ms, p[k].key, i) {
      KeyIsIn(p, k);
    }
    if i < |ms| {
      TracksNext(ms, p, i);
      var q := PendingAfter(p, ms[i]);
      OriginsFaithful(q, ms, i + 1);
      FaithfulNext(p, ms, i, Origins(q, ms, i + 1));
    }
  }

  lemma FaithfulNext(p: Pending, ms: seq<Message>, i: nat, rest: seq<Origin>)
    requires i < |ms| && Tracks(ms, p, i) && Faithful(ms, rest, i + 1)
    requires forall k :: 0 <= k < |p| ==> Unanswered(ms, p[k].key, i)
    ensures Faithful(ms, OriginsHere(p, ms, i) + rest, i)
  {
    var standIns := if ms[i].role.Tool? then [] else StandIns(p, i);
    if !ms[i].role.Tool? || Answers(ms[i], p) {
      assert Survives(ms, i) && OriginsHere(p, ms, i) == standIns + [Input(i)];
      FaithfulInput(ms, i, rest);
      Regroup(standIns, [Input(i)], rest);
      FaithfulStandIns(p, ms, i, standIns, [Input(i)] + rest);
    } else {
      assert !Survives(ms, i) && [] + rest == rest;
    }
  }

  lemma FaithfulInput(ms: seq<Message>, i: nat, rest: seq<Origin>)
    requires i < |ms| && Survives(ms, i) && Faithful(ms, rest, i + 1)
    ensures Faithful(ms, [Input(i)] + rest, i)
  {
    var os := [Input(i)] + rest;
    forall x | i <= x < |ms| && Survives(ms, x) ensures Input(x) in os {
      if x > i {
        assert Input(x) in rest;
      }
    }
  }

  lemma FaithfulStandIns(p: Pending, ms: seq<Message>, i: nat, standIns: seq<Origin>, rest: seq<Origin>)
    requires i < |ms| && Faithful(ms, rest, i)
    requires standIns == [] || (standIns == StandIns(p, i) && !ms[i].role.Tool?)
    requires forall k :: 0 <= k < |p| ==> Unanswered(ms, p[k].key, i)
    ensures Faithful(ms, standIns + rest, i)
  {
    var os := standIns + rest;
    forall x | i <= x < |ms| && Survives(ms, x) ensures Input(x) in os {
      assert Input(x) in rest;
    }
  }

  /** One for one, the messages come from these origins. */
  ghost predicate ComeFrom(ms: seq<Message>, out: seq<Message>, os: seq<Origin>) {
    && |out| == |os|
    && forall k :: 0 <= k < |os| ==> (os[k].Input? ==> os[k].index < |ms|) && out[k] == MessageOf(ms, os[k])
  }

  lemma ComeFromConcat(ms: seq<Message>, a: seq<Message>, b: seq<Message>, os: seq<Origin>, ps: seq<Origin>)
    requires ComeFrom(ms, a, os) && ComeFrom(ms, b, ps)
    ensures ComeFrom(ms, a + b, os + ps)
  {
  }

  lemma {:induction false} OriginsMatch(p: Pending, ms: seq<Message>, i: nat)
    requires i <= |ms|
    ensures ComeFrom(ms, Repair(p, ms[i..]), Origins(p, ms, i))
    decreases |ms| - i
  {
    FlushedAt(p);
    if i < |ms| {
      var q := PendingAfter(p, ms[i]);
      OriginsMatch(q, ms, i + 1);
      EmittedMatch(p, ms, i);
      ComeFromConcat(ms, Emitted(p, ms[i]), Repair(q, ms[i + 1..]), OriginsHere(p, ms, i), Origins(q, ms, i + 1));
      RepairAt(p, ms, i);
    }
  }

  lemma RepairAt(p: Pending, ms: seq<Message>, i: nat)
    requires i < |ms|
    ensures Repair(p, ms[i..]) == Emitted(p, ms[i]) + Repair(PendingAfter(p, ms[i]), ms[i + 1..])
  {
    OneMessage([], p, ms, i);
    assert [] + Repair(p, ms[i..]) == Repair(p, ms[i..]);
    assert [] + Emitted(p, ms[i]) == Emitted(p, ms[i]);
  }

  lemma EmittedMatch(p: Pending, ms: seq<Message>, i: nat)
    requires i < |ms|
    ensures ComeFrom(ms, Emitted(p, ms[i]), OriginsHere(p, ms, i))
  {
    FlushedAt(p);
    if !ms[i].role.Tool? {
      ComeFromConcat(ms, Flushed(p), [ms[i]], StandIns(p, i), [Input(i)]);
    }
  }

  lemma {:induction false} FlushedAt(p: Pending)
    ensures |Flushed(p)| == |p| && forall k :: 0 <= k < |p| ==> Flushed(p)[k] == Synthetic(p[k])
  {
    if p != [] {
      FlushedAt(p[1..]);
    }
  }

  // Which call each synthetic result stands in for, and where it is placed.

  /** Message j opened a block, and nothing but tool results follows up to i. */
  predicate OpenBlock(ms: seq<Message>, j: nat, i: nat)
    requires i <= |ms|
  {
    j < i && Opens(ms[j]) && forall k :: j < k < i ==> ms[k].role.Tool?
  }

  /** The last of the calls with this id is one of this tool. */
  predicate NamedBy(calls: seq<ToolCall>, id: string, tool: string) {
    exists i :: 0 <= i < |calls| && calls[i].id == id && calls[i].name == tool
      && forall k :: i < k < |calls| ==> calls[k].id != id
  }

  /** The position of the first call with this id. */
  function FirstCall(calls: seq<ToolCall>, id: string): nat {
    if calls == [] || calls[0].id == id then 0 else 1 + FirstCall(calls[1..], id)
  }

  /** The pending calls are calls of this list, each under its last name, in the order of their first mention. */
  ghost predicate Belong(calls: seq<ToolCall>, p: Pending) {
    && (forall k :: 0 <= k < |p| ==> NamedBy(calls, p[k].key, p[k].value))
    && forall k, l :: 0 <= k < l < |p| ==> FirstCall(calls, p[k].key) < FirstCall(calls, p[l].key)
  }

  ghost predicate BelongToBlock(ms: seq<Message>, p: Pending, i: nat)
    requires i <= |ms|
  {
    p == [] || exists j: nat :: OpenBlock(ms, j, i) && Belong(ms[j].toolCalls, p)
  }

  /** The calls put so far are those of `done`. */
  ghost predicate PutSoFar(done: seq<ToolCall>, p: Pending) {
    && NoRepeats(p) && Keys(p) == CallIds(done) && Belong(done, p)
  }

  lemma {:induction false} CallIdsSnoc(done: seq<ToolCall>, c: ToolCall)
    ensures CallIds(done + [c]) == CallIds(done) + {c.id}
    ensures forall id :: id in CallIds(done) ==>
      FirstCall(done, id) < |done| && FirstCall(done + [c], id) == FirstCall(done, id)
    ensures c.id !in CallIds(done) ==> FirstCall(done + [c], c.id) == |done|
    decreases |done|
  {
    if done == [] {
      assert done + [c] == [c] && [c][1..] == [];
    } else {
      assert (done + [c])[1..] == done[1..] + [c];
      CallIdsSnoc(done[1..], c);
    }
  }

  /** Where a key is put: over its old item, or at the end. */
  lemma {:induction false} PutAt(p: Pending, id: string, tool: string)
    requires NoRepeats(p)
    ensures var q := Put(p, id, tool);
      && |q| == |p| + (if id in Keys(p) then 0 else 1)
      && (forall k :: 0 <= k < |p| ==> q[k] == if p[k].key == id then Item(id, tool) else p[k])
      && (id !in Keys(p) ==> q[|p|] == Item(id, tool))
  {
    if p != [] && p[0].key != id {
      PutAt(p[1..], id, tool);
    }
    if p != [] && p[0].key == id {
      forall k | 0 < k < |p| ensures p[k].key != id {
        KeyIsIn(p[1..], k - 1);
      }
    }
  }

  lemma NamedSnoc(done: seq<ToolCall>, c: ToolCall, id: string, tool: string)
    requires (id == c.id && tool == c.name) || (id != c.id && NamedBy(done, id, tool))
    ensures NamedBy(done + [c], id, tool)
  {
    var calls := done + [c];
    if id == c.id {
      assert calls[|done|] == c;
    } else {
      var i :| 0 <= i < |done| && done[i].id == id && done[i].name == tool
        && forall k :: i < k < |done| ==> done[k].id != id;
      assert calls[i] == done[i];
    }
  }

  lemma PutNames(done: seq<ToolCall>, c: ToolCall, p: Pending, k: nat)
    requires PutSoFar(done, p) && k < |Put(p, c.id, c.name)|
    ensures var q := Put(p, c.id, c.name); NamedBy(done + [c], q[k].key, q[k].value)
  {
    var q := Put(p, c.id, c.name);
    PutAt(p, c.id, c.name);
    NamedSnoc(done, c, q[k].key, q[k].value);
  }

  lemma PutOrder(done: seq<ToolCall>, c: ToolCall, p: Pending, k: nat, l: nat)
    requires PutSoFar(done, p) && k < l < |Put(p, c.id, c.name)|
    ensures var q := Put(p, c.id, c.name); FirstCall(done + [c], q[k].key) < FirstCall(done + [c], q[l].key)
  {
    PutAt(p, c.id, c.name);
    CallIdsSnoc(done, c);
    KeyIsIn(p, k);
    if l < |p| {
      KeyIsIn(p, l);
    }
  }

  lemma PutOneMore(done: seq<ToolCall>, c: ToolCall, p: Pending)
    requires PutSoFar(done, p)
    ensures PutSoFar(done + [c], Put(p, c.id, c.name))
  {
    var q := Put(p, c.id, c.name);
    PutProperties(p, c.id, c.name);
    CallIdsSnoc(done, c);
    forall k | 0 <= k < |q| ensures NamedBy(done + [c], q[k].key, q[k].value) {
      PutNames(done, c, p, k);
    }
    forall k, l | 0 <= k < l < |q| ensures FirstCall(done + [c], q[k].key) < FirstCall(done + [c], q[l].key) {
      PutOrder(done, c, p, k, l);
    }
  }

  lemma {:induction false} PutAllBelongs(done: seq<ToolCall>, calls: seq<ToolCall>, p: Pending)
    requires PutSoFar(done, p)
    ensures PutSoFar(done + calls, PutAll(p, calls))
    decreases |calls|
  {
    if calls == [] {
      assert done + calls == done;
    } else {
      PutOneMore(done, calls[0], p);
      PutAllBelongs(done + [calls[0]], calls[1..], Put(p, calls[0].id, calls[0].name));
      HeadMoves(done, calls);
    }
  }

  /** Answering one call leaves the others in their order. */
  lemma {:induction false} PopAt(p: Pending, id: string) returns (f: seq<nat>)
    ensures |f| == |Pop(p, id)| && forall k :: 0 <= k < |f| ==> f[k] < |p| && Pop(p, id)[k] == p[f[k]]
    ensures forall k, l :: 0 <= k < l < |f| ==> f[k] < f[l]
  {
    if p == [] {
      f := [];
    } else if p[0].key == id {
      f := seq(|p| - 1, k requires 0 <= k < |p| - 1 => k + 1);
    } else {
      var g := PopAt(p[1..], id);
      f := [0] + seq(|g|, k requires 0 <= k < |g| => g[k] + 1);
    }
  }

  lemma BelongNext(ms: seq<Message>, p: Pending, i: nat)
    requires i < |ms| && BelongToBlock(ms, p, i)
    ensures BelongToBlock(ms, PendingAfter(p, ms[i]), i + 1)
  {
    var m := ms[i];
    if Opens(m) {
      PutAllBelongs([], m.toolCalls, []);
      assert [] + m.toolCalls == m.toolCalls;
      assert OpenBlock(ms, i, i + 1);
    } else if m.role.Tool? && p != [] {
      var j: nat :| OpenBlock(ms, j, i) && Belong(ms[j].toolCalls, p);
      assert OpenBlock(ms, j, i + 1);
      var f := PopAt(p, m.toolCallId);
      assert Belong(ms[j].toolCalls, Pop(p, m.toolCallId));
    }
  }

  /** Some open block at x has the call, and this is its tool. */
  ghost predicate CallAt(ms: seq<Message>, c: Call, x: nat)
    requires x <= |ms|
  {
    exists j: nat :: OpenBlock(ms, j, x) && NamedBy(ms[j].toolCalls, c.key, c.value)
  }

  /** The block open at x calls the one before the other. */
  ghost predicate CalledBefore(ms: seq<Message>, a: string, b: string, x: nat)
    requires x <= |ms|
  {
    exists j: nat :: OpenBlock(ms, j, x) && FirstCall(ms[j].toolCalls, a) < FirstCall(ms[j].toolCalls, b)
  }

  /** A stand-in comes right before the input message at which it is placed. */
  function Rank(o: Origin): nat {
    if o.Input? then 2 * o.index + 1 else 2 * o.before
  }

  /** Whatever block is open at x ends there. */
  predicate Closes(ms: seq<Message>, x: nat) {
    x < |ms| ==> !ms[x].role.Tool?
  }

  predicate StoodIn(os: seq<Origin>, id: string, x: nat) {
    exists k :: 0 <= k < |os| && os[k].StandIn? && os[k].call.key == id && os[k].before == x
  }

  /** Each stand-in is for its call, in its place; and no unanswered call lacks one. */
  ghost predicate Placed(ms: seq<Message>, os: seq<Origin>, i: nat)
    requires i <= |ms|
  {
    && (forall k :: 0 <= k < |os| && os[k].StandIn? ==>
         i <= os[k].before <= |ms| && CallAt(ms, os[k].call, os[k].before))
    && (forall k, l :: 0 <= k < l < |os| ==> Rank(os[k]) <= Rank(os[l]))
    && (forall k, l :: 0 <= k < l < |os| && os[k].StandIn? && os[l].StandIn? && os[k].before == os[l].before ==>
         os[k].before <= |ms| && CalledBefore(ms, os[k].call.key, os[l].call.key, os[k].before))
    && (forall x, id :: i <= x <= |ms| && Closes(ms, x) && Unanswered(ms, id, x) ==> StoodIn(os, id, x))
  }

  lemma {:induction false} KeyHasItem(p: Pending, id: string) returns (k: nat)
    requires id in Keys(p)
    ensures k < |p| && p[k].key == id
  {
    if p[0].key == id {
      k := 0;
    } else {
      k := KeyHasItem(p[1..], id);
      k := k + 1;
    }
  }

  lemma StandInsPlaced(ms: seq<Message>, p: Pending, i: nat)
    requires i <= |ms| && BelongToBlock(ms, p, i)
    ensures var os := StandIns(p, i);
      && (forall k :: 0 <= k < |os| ==> CallAt(ms, os[k].call, i))
      && (forall k, l :: 0 <= k < l < |os| ==> CalledBefore(ms, os[k].call.key, os[l].call.key, i))
      && (forall id :: id in Keys(p) ==> StoodIn(os, id, i))
  {
    if p != [] {
      var j: nat :| OpenBlock(ms, j, i) && Belong(ms[j].toolCalls, p);
    }
    forall id | id in Keys(p) ensures StoodIn(StandIns(p, i), id, i) {
      var k := KeyHasItem(p, id);
      assert StandIns(p, i)[k].call.key == id;
    }
  }

  /** The same of what one message adds: stand-ins first, then perhaps the message. */
  ghost predicate PlacedHere(ms: seq<Message>, here: seq<Origin>, i: nat)
    requires i < |ms|
  {
    && (forall k :: 0 <= k < |here| && here[k].Input? ==> k == |here| - 1 && here[k].index == i)
    && (forall k :: 0 <= k < |here| && here[k].StandIn? ==> here[k].before == i && CallAt(ms, here[k].call, i))
    && (forall k, l :: 0 <= k < l < |here| && here[l].StandIn? ==>
         here[k].StandIn? && CalledBefore(ms, here[k].call.key, here[l].call.key, i))
    && (forall id :: Closes(ms, i) && Unanswered(ms, id, i) ==> StoodIn(here, id, i))
  }

  lemma HereIsPlaced(p: Pending, ms: seq<Message>, i: nat)
    requires i < |ms| && Tracks(ms, p, i) && BelongToBlock(ms, p, i)
    ensures PlacedHere(ms, OriginsHere(p, ms, i), i)
  {
    StandInsPlaced(ms, p, i);
    var os, here := StandIns(p, i), OriginsHere(p, ms, i);
    if Closes(ms, i) {
      forall id | Unanswered(ms, id, i) ensures StoodIn(here, id, i) {
        var k :| 0 <= k < |os| && os[k].StandIn? && os[k].call.key == id && os[k].before == i;
        assert here[k] == os[k];
      }
    }
  }

  lemma PlacedNext(ms: seq<Message>, i: nat, here: seq<Origin>, rest: seq<Origin>)
    requires i < |ms| && Placed(ms, rest, i + 1) && PlacedHere(ms, here, i)
    requires forall k :: 0 <= k < |rest| && rest[k].Input? ==> i < rest[k].index
    ensures Placed(ms, here + rest, i)
  {
    var os := here + rest;
    forall x, id | i <= x <= |ms| && Closes(ms, x) && Unanswered(ms, id, x) ensures StoodIn(os, id, x) {
      if x == i {
        var k :| 0 <= k < |here| && here[k].StandIn? && here[k].call.key == id && here[k].before == x;
        assert os[k] == here[k];
      } else {
        var k :| 0 <= k < |rest| && rest[k].StandIn? && rest[k].call.key == id && rest[k].before == x;
        assert os[|here| + k] == rest[k];
      }
    }
  }

  lemma EndIsPlaced(p: Pending, ms: seq<Message>)
    requires Tracks(ms, p, |ms|) && BelongToBlock(ms, p, |ms|)
    ensures Placed(ms, StandIns(p, |ms|), |ms|)
  {
    StandInsPlaced(ms, p, |ms|);
  }

  lemma {:induction false} OriginsPlaced(p: Pending, ms: seq<Message>, i: nat)
    requires i <= |ms| && Tracks(ms, p, i) && BelongToBlock(ms, p, i)
    ensures Placed(ms, Origins(p, ms, i), i)
    decreases |ms| - i
  {
    if i == |ms| {
      EndIsPlaced(p, ms);
    } else {
      TracksNext(ms, p, i);
      BelongNext(ms, p, i);
      HereIsPlaced(p, ms, i);
      var q := PendingAfter(p, ms[i]);
      OriginsPlaced(q, ms, i + 1);
      OriginsFaithful(q, ms, i + 1);
      PlacedNext(ms, i, OriginsHere(p, ms, i), Origins(q, ms, i + 1));
    }
  }

  /** What the message is, by its origin. */
  ghost predicate IsFrom(ms: seq<Message>, m: Message, o: Origin) {
    if o.Input? then o.index < |ms| && m == ms[o.index] else StandsInFor(m, o.call.key, o.call.value)
  }

  /**
   Where the repaired history comes from. Message by message it is an input message, in input
   order, or a synthetic result placed where the block of an unanswered call closes, under that
   call's id and the name of the last call with it; in each block these are in the order of the
   calls, and no unanswered call lacks one. The input messages left out are exactly the tool
   results that answer no open call.
   */
  lemma SanitizedProvenance(ms: seq<Message>)
    ensures var os := Origins([], ms, 0);
      && Faithful(ms, os, 0) && Placed(ms, os, 0)
      && |Sanitized(ms)| == |os| && forall k :: 0 <= k < |os| ==> IsFrom(ms, Sanitized(ms)[k], os[k])
  {
    assert ms[0..] == ms;
    forall id ensures id in Keys<string>([]) <==> Unanswered(ms, id, 0) {
    }
    OriginsFaithful([], ms, 0);
    OriginsPlaced([], ms, 0);
    OriginsMatch([], ms, 0);
  }

  // ---------------------------------------------------------------- the dialogue is untouched

  function Dialogue(ms: seq<Message>): seq<Message> {
    if ms == [] then [] else (if ms[0].role.Tool? then [] else [ms[0]]) + Dialogue(ms[1..])
  }

  lemma {:induction false} DialogueAfterTools(p: Pending, ms: seq<Message>)
    ensures Dialogue(Flushed(p) + ms) == Dialogue(ms)
    decreases |p|
  {
    if p == [] {
      assert Flushed(p) + ms == ms;
    } else {
      assert (Flushed(p) + ms)[1..] == Flushed(p[1..]) + ms;
      DialogueAfterTools(p[1..], ms);
    }
  }

  lemma {:induction false} RepairKeepsDialogue(p: Pending, ms: seq<Message>)
    ensures Dialogue(Repair(p, ms)) == Dialogue(ms)
    decreases |ms|
  {
    if ms == [] {
      DialogueAfterTools(p, []);
      assert Flushed(p) + [] == Flushed(p);
    } else {
      var m, x := ms[0], Repair(PendingAfter(p, ms[0]), ms[1..]);
      RepairKeepsDialogue(PendingAfter(p, m), ms[1..]);
      assert ([m] + x)[1..] == x;
      if !m.role.Tool? {
        Regroup(Flushed(p), [m], x);
        DialogueAfterTools(p, [m] + x);
      }
    }
  }

  /** Every message that is no tool result is kept, in order and unchanged. */
  lemma SanitizedKeepsDialogue(ms: seq<Message>)
    ensures Dialogue(Sanitized(ms)) == Dialogue(ms)
  {
    RepairKeepsDialogue([], ms);
  }
}
