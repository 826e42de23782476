/**
 The cache of agent instances (app/agent/router.py): an ordered dictionary and a table of last
 uses, with idle eviction and eviction of the least recently used. `cleaned` collects the
 agents handed to cleanup.
 */
module AgentRegistry {
  import opened Options
  import opened Sequences
  import opened OrderedDict

  type Agent = nat

  // ---------------------------------------------------------------- the simple model

  /** The cache as one list: the entries with their last use, in cache order. */
  datatype Entry = Entry(key: string, agent: Agent, time: int)

  predicate HasKey(es: seq<Entry>, key: string) {
    exists i :: 0 <= i < |es| && es[i].key == key
  }

  predicate DistinctKeys(es: seq<Entry>) {
    forall i, j :: 0 <= i < j < |es| ==> es[i].key != es[j].key
  }

  predicate ByTime(es: seq<Entry>, now: int) {
    && (forall i, j :: 0 <= i < j < |es| ==> es[i].time <= es[j].time)
    && (forall i :: 0 <= i < |es| ==> es[i].time <= now)
  }

  predicate Expired(e: Entry, now: int, ttl: int) {
    now - e.time > ttl
  }

  function Fresh(es: seq<Entry>, now: int, ttl: int): seq<Entry> {
    if es == [] then []
    else (if Expired(es[0], now, ttl) then [] else [es[0]]) + Fresh(es[1..], now, ttl)
  }

  function Newest(es: seq<Entry>, size: int): seq<Entry>
    requires size >= 1
  {
    if |es| >= size then es[|es| - (size - 1)..] else es
  }

  /** What both evictions leave, before a lookup or an insertion. */
  function Evicted(es: seq<Entry>, now: int, ttl: int, size: int): seq<Entry>
    requires size >= 1
  {
    Newest(Fresh(es, now, ttl), size)
  }

  function WithoutKey(es: seq<Entry>, key: string): seq<Entry> {
    if es == [] then [] else if es[0].key == key then es[1..] else [es[0]] + WithoutKey(es[1..], key)
  }

  function AgentAt(es: seq<Entry>, key: string): Option<Agent> {
    if es == [] then None else if es[0].key == key then Some(es[0].agent) else AgentAt(es[1..], key)
  }

  /** The entry becomes the most recent one. */
  function Touched(es: seq<Entry>, key: string, agent: Agent, now: int): seq<Entry> {
    WithoutKey(es, key) + [Entry(key, agent, now)]
  }

  function AfterGet(es: seq<Entry>, key: string, now: int, ttl: int, size: int): seq<Entry>
    requires size >= 1
  {
    var left := Evicted(es, now, ttl, size);
    match AgentAt(left, key) case Some(agent) => Touched(left, key, agent, now) case None => left
  }

  function Agents(es: seq<Entry>): multiset<Agent> {
    if es == [] then multiset{} else multiset{es[0].agent} + Agents(es[1..])
  }

  // ---------------------------------------------------------------- evictions take a prefix

  lemma {:induction false} FreshIsSuffix(es: seq<Entry>, now: int, ttl: int) returns (k: nat)
    requires ByTime(es, now)
    ensures k <= |es| && Fresh(es, now, ttl) == es[k..]
    ensures forall i :: 0 <= i < |es| ==> (i < k <==> Expired(es[i], now, ttl))
  {
    if es != [] && Expired(es[0], now, ttl) {
      var rest := es[1..];
      var j := FreshIsSuffix(rest, now, ttl);
      k := j + 1;
      assert [] + Fresh(rest, now, ttl) == Fresh(rest, now, ttl);
      assert rest[j..] == es[k..];
      forall i | 0 < i < |es| ensures i < k <==> Expired(es[i], now, ttl) {
        assert es[i] == rest[i - 1];
      }
    } else {
      k := 0;
      NoneExpired(es, now, ttl);
    }
  }

  lemma {:induction false} NoneExpired(es: seq<Entry>, now: int, ttl: int)
    requires forall i :: 0 <= i < |es| ==> !Expired(es[i], now, ttl)
    ensures Fresh(es, now, ttl) == es
  {
    if es != [] {
      NoneExpired(es[1..], now, ttl);
      assert es == [es[0]] + es[1..];
    }
  }

  /** Together the evictions remove exactly a prefix: the least recently used entries. */
  lemma EvictionTakesOldest(es: seq<Entry>, now: int, ttl: int, size: int) returns (k: nat)
    requires size >= 1 && ByTime(es, now)
    ensures k <= |es| && Evicted(es, now, ttl, size) == es[k..] && |es| - k < size
    ensures forall i :: 0 <= i < |es| ==> (i < k <==> now - es[i].time > ttl || |es| - i >= size)
  {
    var j := FreshIsSuffix(es, now, ttl);
    var left := es[j..];
    k := if |left| >= size then |es| - (size - 1) else j;
    assert Newest(left, size) == es[k..];
  }

  lemma {:induction false} AgentAtIs(es: seq<Entry>, key: string)
    ensures AgentAt(es, key).Some? <==> HasKey(es, key)
    ensures AgentAt(es, key).Some? ==>
      exists i :: 0 <= i < |es| && es[i].key == key && es[i].agent == AgentAt(es, key).value
  {
    if es != [] && es[0].key != key {
      AgentAtIs(es[1..], key);
      assert forall i :: 0 < i < |es| ==> es[i] == es[1..][i - 1];
    }
  }

  /**
   A lookup hits exactly the entries that have not expired and are among the size - 1 most
   recently used: looking up makes room first, as inserting does.
   */
  lemma GetHitsIff(es: seq<Entry>, key: string, now: int, ttl: int, size: int)
    requires size >= 1 && ByTime(es, now)
    ensures AgentAt(Evicted(es, now, ttl, size), key).Some? <==>
      exists i :: 0 <= i < |es| && es[i].key == key && now - es[i].time <= ttl && |es| - i < size
  {
    var k := EvictionTakesOldest(es, now, ttl, size);
    AgentAtIs(es[k..], key);
    if i :| 0 <= i < |es| && es[i].key == key && !Expired(es[i], now, ttl) && |es| - i < size {
      assert es[k..][i - k] == es[i];
    }
    if i :| 0 <= i < |es[k..]| && es[k..][i].key == key {
      assert es[k + i].key == key;
    }
  }

  /** A cache of one entry never serves it. */
  lemma SizeOneNeverHits(es: seq<Entry>, key: string, now: int, ttl: int)
    requires ByTime(es, now)
    ensures AgentAt(Evicted(es, now, ttl, 1), key) == None
  {
    GetHitsIff(es, key, now, ttl, 1);
  }

  function OtherKey(key: string): Entry -> bool {
    (e: Entry) => e.key != key
  }

  lemma {:induction false} WithoutKeyFilters(es: seq<Entry>, key: string)
    requires DistinctKeys(es)
    ensures WithoutKey(es, key) == Filter(es, OtherKey(key))
  {
    if es != [] {
      if es[0].key == key {
        NoOther(es[1..], key);
      } else {
        WithoutKeyFilters(es[1..], key);
      }
    }
  }

  lemma {:induction false} NoOther(es: seq<Entry>, key: string)
    requires forall i :: 0 <= i < |es| ==> es[i].key != key
    ensures Filter(es, OtherKey(key)) == es
  {
    if es != [] {
      NoOther(es[1..], key);
    }
  }

  // ---------------------------------------------------------------- what every call keeps

  ghost predicate Sound(es: seq<Entry>, now: int, size: int) {
    DistinctKeys(es) && ByTime(es, now) && |es| <= size
  }

  lemma {:induction false} WithoutKeyIs(es: seq<Entry>, key: string) returns (i: nat)
    ensures i <= |es| && forall j :: 0 <= j < i ==> es[j].key != key
    ensures i < |es| ==> es[i].key == key && WithoutKey(es, key) == Removed(es, i)
    ensures i < |es| ==> AgentAt(es, key) == Some(es[i].agent)
    ensures i == |es| ==> WithoutKey(es, key) == es && AgentAt(es, key) == None
  {
    if es == [] || es[0].key == key {
      i := 0;
    } else {
      var j := WithoutKeyIs(es[1..], key);
      i := j + 1;
      SplitAt(es, 1);
      forall x | 0 <= x < i ensures es[x].key != key {
        assert x > 0 ==> es[x] == es[1..][x - 1];
      }
      if i < |es| {
        RemovedCons(es, i);
      }
    }
  }

  lemma {:induction false} AgentsOfConcat(a: seq<Entry>, b: seq<Entry>)
    ensures Agents(a + b) == Agents(a) + Agents(b)
  {
    if a == [] {
      assert a + b == b;
    } else {
      assert (a + b)[1..] == a[1..] + b;
      AgentsOfConcat(a[1..], b);
    }
  }

  lemma TouchedKeepsSound(es: seq<Entry>, key: string, agent: Agent, now: int, size: int)
    requires DistinctKeys(es) && ByTime(es, now) && (|es| < size || (|es| <= size && HasKey(es, key)))
    ensures Sound(Touched(es, key, agent, now), now, size)
  {
    var i := WithoutKeyIs(es, key);
    if i < |es| {
      RemovedIsSound(es, i, now, size);
    }
    AppendedIsSound(WithoutKey(es, key), Entry(key, agent, now), size);
  }

  lemma RemovedIsSound(es: seq<Entry>, i: nat, now: int, size: int)
    requires Sound(es, now, size) && i < |es|
    ensures Sound(Removed(es, i), now, size - 1)
    ensures forall x :: x in Removed(es, i) ==> x.key != es[i].key
  {
    var t := Removed(es, i);
    forall x, y | 0 <= x < y < |t| ensures t[x].key != t[y].key && t[x].time <= t[y].time {
      assert t[x] == es[if x < i then x else x + 1] && t[y] == es[if y < i then y else y + 1];
    }
  }

  lemma AppendedIsSound(es: seq<Entry>, e: Entry, size: int)
    requires Sound(es, e.time, size - 1) && forall x :: x in es ==> x.key != e.key
    ensures Sound(es + [e], e.time, size)
  {
    assert forall i :: 0 <= i < |es| ==> es[i] in es;
  }

  lemma EvictedKeepsSound(es: seq<Entry>, now: int, later: int, ttl: int, size: int)
    requires size >= 1 && Sound(es, now, size) && now <= later
    ensures Sound(Evicted(es, later, ttl, size), later, size) && |Evicted(es, later, ttl, size)| < size
  {
    var k := EvictionTakesOldest(es, later, ttl, size);
  }

  lemma GetKeepsSound(es: seq<Entry>, key: string, now: int, later: int, ttl: int, size: int)
    requires size >= 1 && Sound(es, now, size) && now <= later
    ensures Sound(AfterGet(es, key, later, ttl, size), later, size)
  {
    EvictedKeepsSound(es, now, later, ttl, size);
    var left := Evicted(es, later, ttl, size);
    if AgentAt(left, key).Some? {
      TouchedKeepsSound(left, key, AgentAt(left, key).value, later, size);
    }
  }

  // ---------------------------------------------------------------- no agent is lost

  function OptionBag(a: Option<Agent>): multiset<Agent> {
    match a case Some(x) => multiset{x} case None => multiset{}
  }

  /** The agents an eviction hands to cleanup. */
  function EvictedAgents(es: seq<Entry>, now: int, ttl: int, size: int): multiset<Agent>
    requires size >= 1
  {
    Agents(es) - Agents(Evicted(es, now, ttl, size))
  }

  lemma EvictionSplits(es: seq<Entry>, now: int, ttl: int, size: int)
    requires size >= 1 && ByTime(es, now)
    ensures Agents(Evicted(es, now, ttl, size)) + EvictedAgents(es, now, ttl, size) == Agents(es)
  {
    var k := EvictionTakesOldest(es, now, ttl, size);
    assert es == es[..k] + es[k..];
    AgentsOfConcat(es[..k], es[k..]);
  }

  /** Putting an agent under a present key drops the old agent without cleaning it up. */
  lemma TouchedAgents(es: seq<Entry>, key: string, agent: Agent, now: int)
    ensures Agents(Touched(es, key, agent, now)) + OptionBag(AgentAt(es, key)) == Agents(es) + multiset{agent}
  {
    var i := WithoutKeyIs(es, key);
    AgentsOfConcat(WithoutKey(es, key), [Entry(key, agent, now)]);
    OneAgent(Entry(key, agent, now));
    if i < |es| {
      AgentsAround(es, i);
    }
  }

  /** Refreshing an entry hands out no new agent and loses none. */
  lemma RefreshKeepsAgents(es: seq<Entry>, key: string, agent: Agent, now: int)
    requires AgentAt(es, key) == Some(agent)
    ensures Agents(Touched(es, key, agent, now)) == Agents(es)
  {
    TouchedAgents(es, key, agent, now);
    BagCancel(Agents(Touched(es, key, agent, now)), Agents(es), multiset{agent});
  }

  lemma OneAgent(e: Entry)
    ensures Agents([e]) == multiset{e.agent}
  {
    assert [e][1..] == [];
  }

  lemma AgentsAround(es: seq<Entry>, i: nat)
    requires i < |es|
    ensures Agents(es) == Agents(Removed(es, i)) + multiset{es[i].agent}
  {
    var a, b := es[..i], es[i + 1..];
    assert Removed(es, i) == a + b;
    Around(es, i);
    AgentsOfConcat(a + [es[i]], b);
    AgentsOfConcat(a, [es[i]]);
    OneAgent(es[i]);
    AgentsOfConcat(a, b);
  }

  // ---------------------------------------------------------------- runs

  /** A request routed to a session key, or an explicit removal. */
  datatype Op = GetAgent(key: string, lookup: int, insert: int, created: Agent) | Remove(key: string)

  datatype State = State(entries: seq<Entry>, created: multiset<Agent>, cleaned: multiset<Agent>,
                         released: multiset<Agent>)

  function Apply(s: State, op: Op, ttl: int, size: int): State
    requires size >= 1
  {
    match op
    case Remove(key) =>
      s.(entries := WithoutKey(s.entries, key), released := s.released + OptionBag(AgentAt(s.entries, key)))
    case GetAgent(key, lookup, insert, made) =>
      var left := Evicted(s.entries, lookup, ttl, size);
      var gone := EvictedAgents(s.entries, lookup, ttl, size);
      if AgentAt(left, key).Some? then
        State(AfterGet(s.entries, key, lookup, ttl, size), s.created, s.cleaned + gone, s.released)
      else
        State(Touched(Evicted(left, insert, ttl, size), key, made, insert), s.created + multiset{made},
              s.cleaned + gone + EvictedAgents(left, insert, ttl, size), s.released)
  }

  predicate OnTime(op: Op, now: int) {
    op.GetAgent? ==> now <= op.lookup <= op.insert
  }

  function Clock(op: Op, now: int): int {
    if op.GetAgent? then op.insert else now
  }

  ghost predicate RunsOnTime(ops: seq<Op>, now: int)
    decreases |ops|
  {
    ops == [] || (OnTime(ops[0], now) && RunsOnTime(ops[1..], Clock(ops[0], now)))
  }

  function RunOps(s: State, ops: seq<Op>, ttl: int, size: int): State
    requires size >= 1
    decreases |ops|
  {
    if ops == [] then s else RunOps(Apply(s, ops[0], ttl, size), ops[1..], ttl, size)
  }

  /** Every created agent is cached, handed to cleanup or handed back by a removal, as often as created. */
  ghost predicate Accounted(s: State) {
    s.created == Agents(s.entries) + s.cleaned + s.released
  }

  lemma SuffixLacksKey(es: seq<Entry>, key: string, now: int, ttl: int, size: int)
    requires size >= 1 && ByTime(es, now) && AgentAt(es, key) == None
    ensures AgentAt(Evicted(es, now, ttl, size), key) == None
  {
    var k := EvictionTakesOldest(es, now, ttl, size);
    AgentAtIs(es, key);
    AgentAtIs(es[k..], key);
    forall i | 0 <= i < |es[k..]| ensures es[k..][i].key != key {
      assert es[k..][i] == es[k + i];
    }
  }

  lemma RemovedAgents(es: seq<Entry>, key: string)
    ensures Agents(WithoutKey(es, key)) + OptionBag(AgentAt(es, key)) == Agents(es)
  {
    var i := WithoutKeyIs(es, key);
    if i < |es| {
      AgentsAround(es, i);
    }
  }

  lemma MissIsSound(es: seq<Entry>, key: string, lookup: int, insert: int, made: Agent, ttl: int, size: int)
    requires size >= 1 && Sound(es, lookup, size) && lookup <= insert
    ensures Sound(Touched(Evicted(es, insert, ttl, size), key, made, insert), insert, size)
  {
    EvictedKeepsSound(es, lookup, insert, ttl, size);
    TouchedKeepsSound(Evicted(es, insert, ttl, size), key, made, insert, size);
  }

  lemma MissAgents(es: seq<Entry>, key: string, insert: int, made: Agent, ttl: int, size: int)
    requires size >= 1 && ByTime(es, insert) && AgentAt(es, key) == None
    ensures Agents(Touched(Evicted(es, insert, ttl, size), key, made, insert)) + EvictedAgents(es, insert, ttl, size)
         == Agents(es) + multiset{made}
  {
    SuffixLacksKey(es, key, insert, ttl, size);
    var left := Evicted(es, insert, ttl, size);
    TouchedAgents(left, key, made, insert);
    EvictionSplits(es, insert, ttl, size);
    assert Agents(Touched(left, key, made, insert)) + multiset{} == Agents(Touched(left, key, made, insert));
    BagSwap(Agents(Touched(left, key, made, insert)), Agents(left), multiset{made},
            EvictedAgents(es, insert, ttl, size), Agents(es));
  }

  lemma StepIsSound(s: State, op: Op, now: int, ttl: int, size: int)
    requires size >= 1 && Sound(s.entries, now, size) && OnTime(op, now)
    ensures Sound(Apply(s, op, ttl, size).entries, Clock(op, now), size)
  {
    match op
    case Remove(key) =>
      var i := WithoutKeyIs(s.entries, key);
      if i < |s.entries| {
        RemovedIsSound(s.entries, i, now, size);
      }
    case GetAgent(key, lookup, insert, made) =>
      var left := Evicted(s.entries, lookup, ttl, size);
      GetKeepsSound(s.entries, key, now, lookup, ttl, size);
      if AgentAt(left, key).Some? {
        LaterIsSound(AfterGet(s.entries, key, lookup, ttl, size), lookup, insert, size);
      } else {
        MissIsSound(left, key, lookup, insert, made, ttl, size);
      }
  }

  lemma HitIsAccounted(s: State, key: string, lookup: int, agent: Agent, ttl: int, size: int)
    requires size >= 1 && ByTime(s.entries, lookup) && Accounted(s)
    requires AgentAt(Evicted(s.entries, lookup, ttl, size), key) == Some(agent)
    ensures s.created == Agents(Touched(Evicted(s.entries, lookup, ttl, size), key, agent, lookup))
      + (s.cleaned + EvictedAgents(s.entries, lookup, ttl, size)) + s.released
  {
    var left := Evicted(s.entries, lookup, ttl, size);
    var now, gone := Agents(Touched(left, key, agent, lookup)), EvictedAgents(s.entries, lookup, ttl, size);
    EvictionSplits(s.entries, lookup, ttl, size);
    TouchedAgents(left, key, agent, lookup);
    BagCancel(now, Agents(left), multiset{agent});
    Balance(s, Agents(left), gone, multiset{}, multiset{}, now);
    assert s.cleaned + gone + multiset{} == s.cleaned + gone && s.created + multiset{} == s.created;
  }

  lemma MissIsAccounted(s: State, key: string, lookup: int, insert: int, made: Agent, ttl: int, size: int)
    requires size >= 1 && ByTime(s.entries, lookup) && lookup <= insert && Accounted(s)
    requires AgentAt(Evicted(s.entries, lookup, ttl, size), key) == None
    ensures var left := Evicted(s.entries, lookup, ttl, size);
      s.created + multiset{made} == Agents(Touched(Evicted(left, insert, ttl, size), key, made, insert))
        + (s.cleaned + EvictedAgents(s.entries, lookup, ttl, size) + EvictedAgents(left, insert, ttl, size))
         + s.released
  {
    var left := Evicted(s.entries, lookup, ttl, size);
    EvictionSplits(s.entries, lookup, ttl, size);
    StillByTime(s.entries, lookup, insert, ttl, size);
    MissAgents(left, key, insert, made, ttl, size);
    Balance(s, Agents(left), EvictedAgents(s.entries, lookup, ttl, size), multiset{made},
            EvictedAgents(left, insert, ttl, size),
            Agents(Touched(Evicted(left, insert, ttl, size), key, made, insert)));
  }

  lemma StillByTime(es: seq<Entry>, lookup: int, insert: int, ttl: int, size: int)
    requires size >= 1 && ByTime(es, lookup) && lookup <= insert
    ensures ByTime(Evicted(es, lookup, ttl, size), insert)
  {
    var k := EvictionTakesOldest(es, lookup, ttl, size);
  }

  lemma StepIsAccounted(s: State, op: Op, now: int, ttl: int, size: int)
    requires size >= 1 && ByTime(s.entries, now) && Accounted(s) && OnTime(op, now)
    ensures Accounted(Apply(s, op, ttl, size))
  {
    match op
    case Remove(key) =>
      RemovedAgents(s.entries, key);
    case GetAgent(key, lookup, insert, made) =>
      match AgentAt(Evicted(s.entries, lookup, ttl, size), key)
      case Some(agent) => HitIsAccounted(s, key, lookup, agent, ttl, size);
      case None => MissIsAccounted(s, key, lookup, insert, made, ttl, size);
  }

  /** The books after one request: `first` and `second` are cleaned up, `made` is new. */
  lemma Balance(s: State, left: multiset<Agent>, first: multiset<Agent>, made: multiset<Agent>,
                second: multiset<Agent>, now: multiset<Agent>)
    requires Accounted(s) && left + first == Agents(s.entries) && now + second == left + made
    ensures s.created + made == now + (s.cleaned + first + second) + s.released
  {
    forall x ensures (s.created + made)[x] == (now + (s.cleaned + first + second) + s.released)[x] {
      assert (left + first)[x] == Agents(s.entries)[x] && (now + second)[x] == (left + made)[x];
    }
  }

  lemma LaterIsSound(es: seq<Entry>, now: int, later: int, size: int)
    requires Sound(es, now, size) && now <= later
    ensures Sound(es, later, size)
  {
  }

  /** The clock after these operations. */
  function ClockAfter(ops: seq<Op>, now: int): int
    decreases |ops|
  {
    if ops == [] then now else ClockAfter(ops[1..], Clock(ops[0], now))
  }

  /** Over every run the cache stays sorted by last use and within its size, and no agent is lost. */
  lemma {:induction false} RunKeepsState(s: State, ops: seq<Op>, now: int, ttl: int, size: int)
    requires size >= 1 && Sound(s.entries, now, size) && Accounted(s) && RunsOnTime(ops, now)
    ensures Accounted(RunOps(s, ops, ttl, size))
    ensures Sound(RunOps(s, ops, ttl, size).entries, ClockAfter(ops, now), size)
    decreases |ops|
  {
    if ops != [] {
      StepIsSound(s, ops[0], now, ttl, size);
      StepIsAccounted(s, ops[0], now, ttl, size);
      RunKeepsState(Apply(s, ops[0], ttl, size), ops[1..], Clock(ops[0], now), ttl, size);
    }
  }

  // ---------------------------------------------------------------- how long an entry is kept

  function KeySet(es: seq<Entry>): set<string> {
    set i | 0 <= i < |es| :: es[i].key
  }

  lemma {:induction false} KeySetSize(es: seq<Entry>)
    requires DistinctKeys(es)
    ensures |KeySet(es)| == |es|
  {
    if es != [] {
      KeySetSize(es[1..]);
      assert es == [es[0]] + es[1..];
      assert KeySet(es) == {es[0].key} + KeySet(es[1..]);
    }
  }

  /** The entry stands at i, and these are the keys used after it. */
  ghost predicate StandsAt(es: seq<Entry>, i: nat, e: Entry, later: set<string>) {
    i < |es| && es[i] == e && KeySet(es[i + 1..]) == later
  }

  /** The entry, last used before these keys were, is there; or it has been evicted for good. */
  ghost predicate KeptOrGone(es: seq<Entry>, e: Entry, later: set<string>, clock: int, ttl: int, size: int) {
    if clock - e.time <= ttl && |later| + 1 < size then exists i :: StandsAt(es, i, e, later)
    else (exists i :: StandsAt(es, i, e, later)) || !HasKey(es, e.key)
  }

  lemma EvictOrKeep(es: seq<Entry>, i: nat, e: Entry, later: set<string>, now: int, ttl: int, size: int)
    requires size >= 1 && DistinctKeys(es) && ByTime(es, now) && StandsAt(es, i, e, later)
    ensures var left := Evicted(es, now, ttl, size);
      if now - e.time <= ttl && |later| + 1 < size then exists j :: StandsAt(left, j, e, later)
      else !HasKey(left, e.key)
  {
    var k := EvictionTakesOldest(es, now, ttl, size);
    DistinctTail(es, i + 1);
    KeySetSize(es[i + 1..]);
    if k <= i {
      assert es[k..][i - k + 1..] == es[i + 1..];
      assert StandsAt(es[k..], i - k, e, later);
    } else {
      forall j | 0 <= j < |es[k..]| ensures es[k..][j].key != e.key {
        assert es[k..][j] == es[k + j];
      }
    }
  }

  lemma DistinctTail(es: seq<Entry>, i: nat)
    requires DistinctKeys(es) && i <= |es|
    ensures DistinctKeys(es[i..])
  {
  }

  lemma KeySetConcat(a: seq<Entry>, b: seq<Entry>)
    ensures KeySet(a + b) == KeySet(a) + KeySet(b)
  {
    forall x | x in KeySet(b) ensures x in KeySet(a + b) {
      var i :| 0 <= i < |b| && b[i].key == x;
      assert (a + b)[|a| + i] == b[i];
    }
    forall x | x in KeySet(a) ensures x in KeySet(a + b) {
      var i :| 0 <= i < |a| && a[i].key == x;
      assert (a + b)[i] == a[i];
    }
  }

  /** Using another key puts that key behind the entry. */
  lemma UseOther(es: seq<Entry>, i: nat, e: Entry, later: set<string>, key: string, agent: Agent, now: int)
    requires DistinctKeys(es) && StandsAt(es, i, e, later) && key != e.key
    ensures exists j :: StandsAt(Touched(es, key, agent, now), j, e, later + {key})
  {
    var x := Entry(key, agent, now);
    var fa, fb := Filter(es[..i], OtherKey(key)), Filter(es[i + 1..], OtherKey(key));
    FilterAround(es, i, key);
    WithoutKeyFilters(es, key);
    KeySetConcat(fb, [x]);
    KeySetFilter(es[i + 1..], key);
    KeySetOne(x);
    StandsBetween(fa, e, fb + [x]);
    Regroup(fa + [e], fb, [x]);
    assert later - {key} + {key} == later + {key};
    assert StandsAt(Touched(es, key, agent, now), |fa|, e, later + {key});
  }

  lemma KeySetOne(x: Entry)
    ensures KeySet([x]) == {x.key}
  {
    assert [x][0].key == x.key;
  }

  lemma StandsBetween(a: seq<Entry>, e: Entry, b: seq<Entry>)
    ensures StandsAt(a + [e] + b, |a|, e, KeySet(b))
  {
    assert (a + [e] + b)[|a| + 1..] == b;
  }

  lemma FilterAround(es: seq<Entry>, i: nat, key: string)
    requires i < |es| && es[i].key != key
    ensures Filter(es, OtherKey(key))
         == Filter(es[..i], OtherKey(key)) + [es[i]] + Filter(es[i + 1..], OtherKey(key))
  {
    Around(es, i);
    FilterConcat(es[..i] + [es[i]], es[i + 1..], OtherKey(key));
    FilterConcat(es[..i], [es[i]], OtherKey(key));
    FilterOne(es[i], OtherKey(key));
  }

  lemma KeySetFilter(b: seq<Entry>, key: string)
    ensures KeySet(Filter(b, OtherKey(key))) == KeySet(b) - {key}
  {
    var f := Filter(b, OtherKey(key));
    forall x | x in KeySet(b) - {key} ensures x in KeySet(f) {
      var i :| 0 <= i < |b| && b[i].key == x;
      assert b[i] in f;
      var j :| 0 <= j < |f| && f[j] == b[i];
    }
    forall x | x in KeySet(f) ensures x in KeySet(b) - {key} {
      var j :| 0 <= j < |f| && f[j].key == x;
      assert f[j] in f && f[j] in b;
      var i :| 0 <= i < |b| && b[i] == f[j];
    }
  }

  lemma StaysGone(es: seq<Entry>, gone: string, key: string, agent: Agent, now: int)
    requires DistinctKeys(es) && !HasKey(es, gone) && key != gone
    ensures !HasKey(Touched(es, key, agent, now), gone)
  {
    WithoutKeyFilters(es, key);
    var f, t := Filter(es, OtherKey(key)), Touched(es, key, agent, now);
    forall j | 0 <= j < |t| ensures t[j].key != gone {
      if j < |f| {
        assert f[j] in f && f[j] in es;
        var i :| 0 <= i < |es| && es[i] == f[j];
      }
    }
  }

  lemma EvictedLacks(es: seq<Entry>, gone: string, now: int, ttl: int, size: int)
    requires size >= 1 && ByTime(es, now) && !HasKey(es, gone)
    ensures !HasKey(Evicted(es, now, ttl, size), gone)
  {
    var k := EvictionTakesOldest(es, now, ttl, size);
    forall j | 0 <= j < |es[k..]| ensures es[k..][j].key != gone {
      assert es[k..][j] == es[k + j];
    }
  }

  /** An eviction, then a use of another key. */
  lemma EvictThenUse(es: seq<Entry>, e: Entry, later: set<string>, clock: int, now: int, ttl: int, size: int,
                     key: string, agent: Agent)
    requires size >= 1 && Sound(es, clock, size) && clock <= now && key != e.key
    requires KeptOrGone(es, e, later, clock, ttl, size)
    ensures KeptOrGone(Evicted(es, now, ttl, size), e, later, now, ttl, size)
    ensures KeptOrGone(Touched(Evicted(es, now, ttl, size), key, agent, now), e, later + {key}, now, ttl, size)
    ensures !(now - e.time <= ttl && |later| + 1 < size) ==> !HasKey(Evicted(es, now, ttl, size), e.key)
  {
    var left := Evicted(es, now, ttl, size);
    EvictedKeepsSound(es, clock, now, ttl, size);
    LaterIsSound(es, clock, now, size);
    MoreLater(later, key);
    if i: nat :| StandsAt(es, i, e, later) {
      EvictOrKeep(es, i, e, later, now, ttl, size);
    } else {
      EvictedLacks(es, e.key, now, ttl, size);
    }
    if j: nat :| StandsAt(left, j, e, later) {
      UseOther(left, j, e, later, key, agent, now);
    } else {
      StaysGone(left, e.key, key, agent, now);
    }
  }

  lemma MoreLater(later: set<string>, key: string)
    ensures |later| <= |later + {key}|
  {
    SubsetFits(later, later + {key});
  }

  lemma OtherRequest(s: State, op: Op, e: Entry, later: set<string>, clock: int, ttl: int, size: int)
    requires size >= 1 && Sound(s.entries, clock, size) && OnTime(op, clock)
    requires op.GetAgent? && op.key != e.key && KeptOrGone(s.entries, e, later, clock, ttl, size)
    ensures KeptOrGone(Apply(s, op, ttl, size).entries, e, later + {op.key}, op.insert, ttl, size)
  {
    var left := Evicted(s.entries, op.lookup, ttl, size);
    EvictedKeepsSound(s.entries, clock, op.lookup, ttl, size);
    if AgentAt(left, op.key).Some? {
      EvictThenUse(s.entries, e, later, clock, op.lookup, ttl, size, op.key, AgentAt(left, op.key).value);
    } else {
      EvictThenUse(s.entries, e, later, clock, op.lookup, ttl, size, op.key, op.created);
      EvictThenUse(left, e, later, op.lookup, op.insert, ttl, size, op.key, op.created);
    }
  }

  function KeysUsed(ops: seq<Op>): set<string> {
    set i | 0 <= i < |ops| :: ops[i].key
  }

  lemma {:induction false} OtherRequests(s: State, ops: seq<Op>, e: Entry, later: set<string>, clock: int,
                                         ttl: int, size: int)
    requires size >= 1 && Sound(s.entries, clock, size) && RunsOnTime(ops, clock)
    requires forall op :: op in ops ==> op.GetAgent? && op.key != e.key
    requires KeptOrGone(s.entries, e, later, clock, ttl, size)
    ensures KeptOrGone(RunOps(s, ops, ttl, size).entries, e, later + KeysUsed(ops), ClockAfter(ops, clock), ttl, size)
    decreases |ops|
  {
    if ops == [] {
      assert later + KeysUsed(ops) == later;
    } else {
      FirstRequest(s, ops, e, later, clock, ttl, size);
      OtherRequests(Apply(s, ops[0], ttl, size), ops[1..], e, later + {ops[0].key}, ops[0].insert, ttl, size);
    }
  }

  lemma FirstRequest(s: State, ops: seq<Op>, e: Entry, later: set<string>, clock: int, ttl: int, size: int)
    requires size >= 1 && Sound(s.entries, clock, size) && RunsOnTime(ops, clock) && ops != []
    requires forall op :: op in ops ==> op.GetAgent? && op.key != e.key
    requires KeptOrGone(s.entries, e, later, clock, ttl, size)
    ensures ops[0].GetAgent? && forall op :: op in ops[1..] ==> op.GetAgent? && op.key != e.key
    ensures var t := Apply(s, ops[0], ttl, size);
      && Sound(t.entries, ops[0].insert, size) && RunsOnTime(ops[1..], ops[0].insert)
      && KeptOrGone(t.entries, e, later + {ops[0].key}, ops[0].insert, ttl, size)
    ensures later + {ops[0].key} + KeysUsed(ops[1..]) == later + KeysUsed(ops)
  {
    assert ops[0] in ops && forall op :: op in ops[1..] ==> op in ops;
    OtherRequest(s, ops[0], e, later, clock, ttl, size);
    StepIsSound(s, ops[0], clock, ttl, size);
    UsedFirst(ops);
  }

  lemma UsedFirst(ops: seq<Op>)
    requires ops != []
    ensures KeysUsed(ops) == {ops[0].key} + KeysUsed(ops[1..])
  {
    forall x | x in KeysUsed(ops[1..]) ensures x in KeysUsed(ops) {
      var i :| 0 <= i < |ops[1..]| && ops[1..][i].key == x;
      assert ops[i + 1].key == x;
    }
    forall x | x in KeysUsed(ops) ensures x in {ops[0].key} + KeysUsed(ops[1..]) {
      var i :| 0 <= i < |ops| && ops[i].key == x;
      assert i > 0 ==> ops[1..][i - 1].key == x;
    }
  }

  /**
   An agent used at some time is found again, after requests under other keys, exactly when it was
   not idle for longer than the time to live and fewer than size - 1 other keys were used since.
   */
  lemma FoundAgainIff(s: State, ops: seq<Op>, e: Entry, now: int, ttl: int, size: int)
    requires size >= 1 && Sound(s.entries, e.time, size) && s.entries != [] && s.entries[|s.entries| - 1] == e
    requires RunsOnTime(ops, e.time) && ClockAfter(ops, e.time) <= now
    requires forall op :: op in ops ==> op.GetAgent? && op.key != e.key
    ensures AgentAt(Evicted(RunOps(s, ops, ttl, size).entries, now, ttl, size), e.key)
         == if now - e.time <= ttl && |KeysUsed(ops)| < size - 1 then Some(e.agent) else None
  {
    var t := RunOps(s, ops, ttl, size).entries;
    var n := |s.entries| - 1;
    assert s.entries[n + 1..] == [];
    assert StandsAt(s.entries, n, e, {});
    OtherRequests(s, ops, e, {}, e.time, ttl, size);
    assert {} + KeysUsed(ops) == KeysUsed(ops);
    RunIsSound(s, ops, e.time, ttl, size);
    FoundIffKept(t, e, KeysUsed(ops), ClockAfter(ops, e.time), now, ttl, size);
  }

  /** A lookup finds the agent just if fewer than size - 1 keys stand behind its entry, in time. */
  lemma FoundIffKept(es: seq<Entry>, e: Entry, later: set<string>, clock: int, now: int, ttl: int, size: int)
    requires size >= 1 && Sound(es, clock, size) && clock <= now
    requires KeptOrGone(es, e, later, clock, ttl, size)
    ensures AgentAt(Evicted(es, now, ttl, size), e.key)
         == if now - e.time <= ttl && |later| < size - 1 then Some(e.agent) else None
  {
    var left := Evicted(es, now, ttl, size);
    EvictThenUse(es, e, later, clock, now, ttl, size, e.key + "x", e.agent);
    EvictedKeepsSound(es, clock, now, ttl, size);
    AgentAtIs(left, e.key);
    if i: nat :| StandsAt(left, i, e, later) {
      assert left[i].key == e.key;
    }
  }

  lemma {:induction false} RunIsSound(s: State, ops: seq<Op>, now: int, ttl: int, size: int)
    requires size >= 1 && Sound(s.entries, now, size) && RunsOnTime(ops, now)
    ensures Sound(RunOps(s, ops, ttl, size).entries, ClockAfter(ops, now), size)
    decreases |ops|
  {
    if ops != [] {
      StepIsSound(s, ops[0], now, ttl, size);
      RunIsSound(Apply(s, ops[0], ttl, size), ops[1..], Clock(ops[0], now), ttl, size);
    }
  }

  // ---------------------------------------------------------------- the registry

  type Cache = Dict<Agent>

  function EntriesOf(cache: Cache, last: map<string, int>): seq<Entry>
    requires Keys(cache) <= last.Keys
  {
    if cache == [] then []
    else [Entry(cache[0].key, cache[0].value, last[cache[0].key])] + EntriesOf(cache[1..], last)
  }

  lemma {:induction false} EntriesElsewhere(cache: Cache, a: map<string, int>, b: map<string, int>)
    requires Keys(cache) <= a.Keys && Keys(cache) <= b.Keys
    requires forall k :: k in Keys(cache) ==> a[k] == b[k]
    ensures EntriesOf(cache, a) == EntriesOf(cache, b)
  {
    if cache != [] {
      EntriesElsewhere(cache[1..], a, b);
    }
  }

  lemma {:induction false} PopEntry(cache: Cache, last: map<string, int>, key: string)
    requires NoRepeats(cache) && Keys(cache) <= last.Keys
    ensures Keys(Pop(cache, key)) <= last.Keys
    ensures EntriesOf(Pop(cache, key), last) == WithoutKey(EntriesOf(cache, last), key)
    ensures AgentAt(EntriesOf(cache, last), key) == Value(cache, key)
  {
    PopProperties(cache, key);
    if cache != [] {
      var head := Entry(cache[0].key, cache[0].value, last[cache[0].key]);
      assert ([head] + EntriesOf(cache[1..], last))[1..] == EntriesOf(cache[1..], last);
      if cache[0].key != key {
        PopEntry(cache[1..], last, key);
        assert ([cache[0]] + Pop(cache[1..], key))[1..] == Pop(cache[1..], key);
      }
    }
  }

  lemma CachedAgent(cache: Cache, last: map<string, int>, key: string)
    requires NoRepeats(cache) && Keys(cache) <= last.Keys
    ensures Value(cache, key) == AgentAt(EntriesOf(cache, last), key)
  {
    PopEntry(cache, last, key);
  }

  /** What a lookup comes to once the cache has been evicted. */
  lemma AfterGetIs(cache: Cache, last: map<string, int>, was: seq<Entry>, key: string, now: int, ttl: int, size: int)
    requires NoRepeats(cache) && Keys(cache) <= last.Keys && size >= 1
    requires EntriesOf(cache, last) == Evicted(was, now, ttl, size)
    ensures var left := Evicted(was, now, ttl, size);
      && Value(cache, key) == AgentAt(left, key)
      && AfterGet(was, key, now, ttl, size)
        == match Value(cache, key)
           case Some(agent) => Filter(left, OtherKey(key)) + [Entry(key, agent, now)]
           case None => left
  {
    CachedAgent(cache, last, key);
    EntriesDistinct(cache, last);
    WithoutKeyFilters(EntriesOf(cache, last), key);
  }

  lemma {:induction false} PushEntry(cache: Cache, last: map<string, int>, slot: Item<Agent>)
    requires NoRepeats(cache) && Keys(cache + [slot]) <= last.Keys && slot.key !in Keys(cache)
    ensures NoRepeats(cache + [slot]) && Keys(cache + [slot]) == Keys(cache) + {slot.key}
    ensures EntriesOf(cache + [slot], last) == EntriesOf(cache, last) + [Entry(slot.key, slot.value, last[slot.key])]
  {
    if cache == [] {
      assert cache + [slot] == [slot];
    } else {
      assert (cache + [slot])[1..] == cache[1..] + [slot];
      PushEntry(cache[1..], last, slot);
    }
  }

  lemma {:induction false} EntriesTimes(cache: Cache, last: map<string, int>)
    requires Keys(cache) <= last.Keys
    ensures |EntriesOf(cache, last)| == |cache|
    ensures forall i :: 0 <= i < |cache| ==>
      var e := EntriesOf(cache, last)[i]; e.key in Keys(cache) && e.time == last[e.key]
  {
    if cache != [] {
      EntriesTimes(cache[1..], last);
    }
  }

  lemma {:induction false} FreshWithoutExpired(es: seq<Entry>, key: string, now: int, ttl: int)
    requires forall i :: 0 <= i < |es| && es[i].key == key ==> Expired(es[i], now, ttl)
    ensures Fresh(WithoutKey(es, key), now, ttl) == Fresh(es, now, ttl)
  {
    if es != [] && es[0].key != key {
      FreshWithoutExpired(es[1..], key, now, ttl);
      assert ([es[0]] + WithoutKey(es[1..], key))[1..] == WithoutKey(es[1..], key);
    }
  }

  /** The keys last used longer ago than the time to live. */
  function Stale(last: map<string, int>, now: int, ttl: int): set<string> {
    set k | k in last && now - last[k] > ttl
  }

  lemma NoneStale(cache: Cache, last: map<string, int>, now: int, ttl: int)
    requires Keys(cache) <= last.Keys && Stale(last, now, ttl) == {}
    ensures Fresh(EntriesOf(cache, last), now, ttl) == EntriesOf(cache, last)
  {
    EntriesTimes(cache, last);
    var es := EntriesOf(cache, last);
    forall i | 0 <= i < |es| ensures !Expired(es[i], now, ttl) {
      assert es[i].key !in Stale(last, now, ttl);
    }
    NoneExpired(es, now, ttl);
  }

  lemma NewestTail(es: seq<Entry>, size: int)
    requires |es| >= size >= 1
    ensures WithoutKey(es, es[0].key) == es[1..]
    ensures Newest(es[1..], size) == Newest(es, size)
  {
    TailOfTail(es, |es| - size);
    FullTail(es[1..], size);
  }

  lemma FullTail(es: seq<Entry>, size: int)
    requires |es| >= size - 1 >= 0
    ensures Newest(es, size) == es[|es| - (size - 1)..]
  {
    assert es[0..] == es;
  }

  class AgentRegistry {
    var cache: Cache
    var lastActive: map<string, int>
    var cleaned: multiset<Agent>
    const cacheSize: int
    const idleTtl: int

    ghost predicate Valid()
      reads this
    {
      NoRepeats(cache) && lastActive.Keys == Keys(cache) && cacheSize >= 1
    }

    ghost function Entries(): seq<Entry>
      reads this
      requires Valid()
    {
      EntriesOf(cache, lastActive)
    }

    constructor (cacheSize: int, idleTtl: int)
      requires cacheSize >= 1
      ensures Valid() && Entries() == [] && cleaned == multiset{}
      ensures this.cacheSize == cacheSize && this.idleTtl == idleTtl
    {
      cache, lastActive, cleaned := [], map[], multiset{};
      this.cacheSize, this.idleTtl := cacheSize, idleTtl;
    }

    /** Take one key out of both tables. */
    method PopKey(key: string) returns (agent: Option<Agent>)
      requires Valid()
      modifies this`cache, this`lastActive
      ensures Valid() && Entries() == WithoutKey(old(Entries()), key)
      ensures agent == AgentAt(old(Entries()), key)
      ensures lastActive == old(lastActive) - {key}
    {
      PopProperties(cache, key);
      PopEntry(cache, lastActive, key);
      agent := Value(cache, key);
      EntriesElsewhere(Pop(cache, key), lastActive, lastActive - {key});
      cache := Pop(cache, key);
      lastActive := lastActive - {key};
    }

    method EvictIdle(now: int)
      requires Valid()
      modifies this
      ensures Valid() && Entries() == Fresh(old(Entries()), now, idleTtl)
      ensures cleaned + Agents(Entries()) == old(cleaned) + Agents(old(Entries()))
    {
      var evict := Stale(lastActive, now, idleTtl);
      while evict != {}
        invariant Valid() && evict == Stale(lastActive, now, idleTtl)
        invariant Fresh(Entries(), now, idleTtl) == Fresh(old(Entries()), now, idleTtl)
        invariant cleaned + Agents(Entries()) == old(cleaned) + Agents(old(Entries()))
        decreases evict
      {
        var k :| k in evict;
        EvictKey(k, now);
        evict := evict - {k};
      }
      NoneStale(cache, lastActive, now, idleTtl);
    }

    /** Evict one expired key and schedule the cleanup of its agent. */
    method EvictKey(k: string, now: int)
      requires Valid() && k in Stale(lastActive, now, idleTtl)
      modifies this
      ensures Valid() && lastActive == old(lastActive) - {k}
      ensures Stale(lastActive, now, idleTtl) == Stale(old(lastActive), now, idleTtl) - {k}
      ensures Fresh(Entries(), now, idleTtl) == Fresh(old(Entries()), now, idleTtl)
      ensures cleaned + Agents(Entries()) == old(cleaned) + Agents(old(Entries()))
    {
      EntriesTimes(cache, lastActive);
      FreshWithoutExpired(Entries(), k, now, idleTtl);
      RemovedAgents(Entries(), k);
      var agent := PopKey(k);
      cleaned := cleaned + OptionBag(agent);
    }

    method EvictLru()
      requires Valid()
      modifies this
      ensures Valid() && Entries() == Newest(old(Entries()), cacheSize)
      ensures cleaned + Agents(Entries()) == old(cleaned) + Agents(old(Entries()))
    {
      EntriesTimes(cache, lastActive);
      while |cache| >= cacheSize
        invariant Valid() && |Entries()| == |cache|
        invariant Newest(Entries(), cacheSize) == Newest(old(Entries()), cacheSize)
        invariant cleaned + Agents(Entries()) == old(cleaned) + Agents(old(Entries()))
        decreases |cache|
      {
        var key := cache[0].key;
        RemovedAgents(Entries(), key);
        NewestTail(Entries(), cacheSize);
        var agent := PopKey(key);
        cleaned := cleaned + OptionBag(agent);
        EntriesTimes(cache, lastActive);
      }
    }

    method Evict(now: int)
      requires Valid()
      modifies this
      ensures Valid() && Entries() == Evicted(old(Entries()), now, idleTtl, cacheSize)
      ensures cleaned + Agents(Entries()) == old(cleaned) + Agents(old(Entries()))
    {
      EvictIdle(now);
      EvictLru();
    }

    /** Move a key to the end of the cache with this agent, and note the use. */
    method Store(key: string, agent: Agent, now: int)
      requires Valid()
      modifies this`cache, this`lastActive
      ensures Valid() && Entries() == Touched(old(Entries()), key, agent, now)
      ensures Entries() == Filter(old(Entries()), OtherKey(key)) + [Entry(key, agent, now)]
      ensures lastActive == old(lastActive)[key := now]
      ensures cache != [] && cache[|cache| - 1] == Item(key, agent)
    {
      EntriesDistinct(cache, lastActive);
      WithoutKeyFilters(Entries(), key);
      var before := PopKey(key);
      var last := lastActive[key := now];
      EntriesElsewhere(cache, lastActive, last);
      KeysAppend(cache, Item(key, agent));
      PushEntry(cache, last, Item(key, agent));
      cache, lastActive := cache + [Item(key, agent)], last;
    }

    method Get(key: string, now: int) returns (agent: Option<Agent>)
      requires Valid()
      modifies this
      ensures Valid() && agent == AgentAt(Evicted(old(Entries()), now, idleTtl, cacheSize), key)
      ensures Entries() == AfterGet(old(Entries()), key, now, idleTtl, cacheSize)
      ensures Entries() == var left := Evicted(old(Entries()), now, idleTtl, cacheSize);
        if agent.Some? then Filter(left, OtherKey(key)) + [Entry(key, agent.value, now)] else left
      ensures agent.Some? ==>
        key in lastActive && lastActive[key] == now && cache != [] && cache[|cache| - 1] == Item(key, agent.value)
      ensures cleaned + Agents(Entries()) == old(cleaned) + Agents(old(Entries()))
    {
      ghost var was := Entries();
      Evict(now);
      AfterGetIs(cache, lastActive, was, key, now, idleTtl, cacheSize);
      agent := Value(cache, key);
      if agent.Some? {
        Refresh(key, agent.value, now);
      }
    }

    /** A hit moves the entry to the end of the cache and notes the use. */
    method Refresh(key: string, agent: Agent, now: int)
      requires Valid() && AgentAt(Entries(), key) == Some(agent)
      modifies this`cache, this`lastActive
      ensures Valid() && Entries() == Touched(old(Entries()), key, agent, now)
      ensures Entries() == Filter(old(Entries()), OtherKey(key)) + [Entry(key, agent, now)]
      ensures Agents(Entries()) == Agents(old(Entries()))
      ensures key in lastActive && lastActive[key] == now && cache != [] && cache[|cache| - 1] == Item(key, agent)
    {
      RefreshKeepsAgents(Entries(), key, agent, now);
      Store(key, agent, now);
    }

    method Put(key: string, agent: Agent, now: int)
      requires Valid()
      modifies this
      ensures Valid()
      ensures Entries() == Touched(Evicted(old(Entries()), now, idleTtl, cacheSize), key, agent, now)
      ensures Entries()
           == Filter(Evicted(old(Entries()), now, idleTtl, cacheSize), OtherKey(key)) + [Entry(key, agent, now)]
      ensures key in lastActive && lastActive[key] == now && cache != [] && cache[|cache| - 1] == Item(key, agent)
      ensures cleaned + Agents(Evicted(old(Entries()), now, idleTtl, cacheSize))
           == old(cleaned) + Agents(old(Entries()))
    {
      Evict(now);
      Store(key, agent, now);
    }

    method Remove(key: string) returns (agent: Option<Agent>)
      requires Valid()
      modifies this`cache, this`lastActive
      ensures Valid() && Entries() == WithoutKey(old(Entries()), key)
      ensures Entries() == Filter(old(Entries()), OtherKey(key))
      ensures agent == AgentAt(old(Entries()), key)
    {
      EntriesDistinct(cache, lastActive);
      WithoutKeyFilters(Entries(), key);
      agent := PopKey(key);
    }
  }

  lemma {:induction false} EntriesDistinct(cache: Cache, last: map<string, int>)
    requires NoRepeats(cache) && Keys(cache) <= last.Keys
    ensures DistinctKeys(EntriesOf(cache, last))
  {
    EntriesTimes(cache, last);
    if cache != [] {
      EntriesTimes(cache[1..], last);
      EntriesDistinct(cache[1..], last);
    }
  }

  lemma {:induction false} WithoutKeyLacksIt(es: seq<Entry>, key: string)
    requires DistinctKeys(es)
    ensures !HasKey(WithoutKey(es, key), key)
  {
    if es != [] && es[0].key != key {
      WithoutKeyLacksIt(es[1..], key);
    }
  }

  lemma {:induction false} LastIsFound(es: seq<Entry>, e: Entry)
    requires !HasKey(es, e.key)
    ensures AgentAt(es + [e], e.key) == Some(e.agent)
  {
    if es == [] {
      assert es + [e] == [e];
    } else {
      assert (es + [e])[1..] == es[1..] + [e];
      assert es[0].key != e.key;
      forall i | 0 <= i < |es[1..]| ensures es[1..][i].key != e.key {
        assert es[1..][i] == es[i + 1];
      }
      LastIsFound(es[1..], e);
    }
  }

  lemma StoredIsFound(es: seq<Entry>, key: string, agent: Agent, now: int)
    requires DistinctKeys(es)
    ensures AgentAt(Touched(es, key, agent, now), key) == Some(agent)
  {
    WithoutKeyLacksIt(es, key);
    LastIsFound(WithoutKey(es, key), Entry(key, agent, now));
  }

  lemma StoredAfterEviction(es: seq<Entry>, key: string, agent: Agent, now: int, ttl: int, size: int)
    requires size >= 1 && DistinctKeys(es) && ByTime(es, now)
    ensures AgentAt(Touched(Evicted(es, now, ttl, size), key, agent, now), key) == Some(agent)
    ensures DistinctKeys(Evicted(es, now, ttl, size)) && ByTime(Evicted(es, now, ttl, size), now)
  {
    var k := EvictionTakesOldest(es, now, ttl, size);
    StoredIsFound(es[k..], key, agent, now);
  }

  /** The router's cached lookup: `made` is the agent it creates on a miss. */
  method GetAgent(registry: AgentRegistry, key: string, lookup: int, insert: int, made: Agent)
    returns (agent: Agent, created: bool)
    requires registry.Valid() && ByTime(registry.Entries(), lookup) && lookup <= insert
    modifies registry
    ensures registry.Valid() && AgentAt(registry.Entries(), key) == Some(agent)
    ensures var s := State(old(registry.Entries()), multiset{}, multiset{}, multiset{});
      registry.Entries()
        == Apply(s, Op.GetAgent(key, lookup, insert, made), registry.idleTtl, registry.cacheSize).entries
    ensures created <==>
      AgentAt(Evicted(old(registry.Entries()), lookup, registry.idleTtl, registry.cacheSize), key) == None
    ensures created ==> agent == made
    ensures !created ==>
      AgentAt(Evicted(old(registry.Entries()), lookup, registry.idleTtl, registry.cacheSize), key) == Some(agent)
    ensures key in registry.lastActive && registry.lastActive[key] == if created then insert else lookup
    ensures registry.cache != [] && registry.cache[|registry.cache| - 1] == Item(key, agent)
    ensures registry.cleaned + Agents(registry.Entries())
         == old(registry.cleaned) + Agents(old(registry.Entries())) + if created then multiset{made} else multiset{}
  {
    ghost var was := registry.Entries();
    ghost var left := Evicted(was, lookup, registry.idleTtl, registry.cacheSize);
    EntriesDistinct(registry.cache, registry.lastActive);
    GetAgentEntries(was, key, lookup, insert, made, registry.idleTtl, registry.cacheSize);
    var cached := registry.Get(key, lookup);
    if cached.Some? {
      return cached.value, false;
    }
    ghost var cleaned := registry.cleaned;
    registry.Put(key, made, insert);
    PutAccounts(left, Evicted(left, insert, registry.idleTtl, registry.cacheSize), key, made, insert,
                cleaned, registry.cleaned);
    return made, true;
  }

  /** What a request leaves in the cache, hit or miss. */
  lemma GetAgentEntries(was: seq<Entry>, key: string, lookup: int, insert: int, made: Agent, ttl: int, size: int)
    requires size >= 1 && DistinctKeys(was) && ByTime(was, lookup) && lookup <= insert
    ensures var left := Evicted(was, lookup, ttl, size);
      var kept := Evicted(left, insert, ttl, size);
      var s := State(was, multiset{}, multiset{}, multiset{});
      var after := Apply(s, Op.GetAgent(key, lookup, insert, made), ttl, size);
      && match AgentAt(left, key)
         case Some(agent) =>
           after.entries == AfterGet(was, key, lookup, ttl, size) && AgentAt(after.entries, key) == Some(agent)
         case None =>
           && after.entries == Touched(kept, key, made, insert) && AgentAt(after.entries, key) == Some(made)
           && AgentAt(kept, key) == None
  {
    var left := Evicted(was, lookup, ttl, size);
    StoredAfterEviction(was, key, made, lookup, ttl, size);
    if AgentAt(left, key).Some? {
      StoredAfterEviction(was, key, AgentAt(left, key).value, lookup, ttl, size);
    } else {
      StoredAfterEviction(left, key, made, insert, ttl, size);
      SuffixLacksKey(left, key, insert, ttl, size);
    }
  }

  lemma PutAccounts(es: seq<Entry>, left: seq<Entry>, key: string, made: Agent, now: int,
                    before: multiset<Agent>, after: multiset<Agent>)
    requires AgentAt(left, key) == None && after + Agents(left) == before + Agents(es)
    ensures after + Agents(Touched(left, key, made, now)) == before + Agents(es) + multiset{made}
  {
    TouchedAgents(left, key, made, now);
    var stored := Agents(Touched(left, key, made, now));
    assert stored + multiset{} == stored;
    assert after + (Agents(left) + multiset{made}) == after + Agents(left) + multiset{made};
  }
}
