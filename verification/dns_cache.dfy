/** The DNS cache and the proxy in front of it, as interleaved steps of many requests. */
module DnsCache {
  import opened Wrappers
  import opened DnsQuestion

  datatype Entry = Entry(msg: Message, expires: int)

  type Items = map<string, Entry>

  const SECOND := 1_000_000_000

  // ----- the three locked sections -----

  /** Put, which at a full cache first drops some entry, whichever `victim` the map yields. */
  function Stored(items: Items, maxKeys: int, victim: string, key: string, msg: Message, ttl: int, now: int): Items {
    if ttl <= 0 then items
    else
      var items := if maxKeys > 0 && |items| >= maxKeys then items - {victim} else items;
      items[key := Entry(msg, now + ttl)]
  }

  /** A put leaves every other entry alone, but for one that it drops if the cache is full. */
  lemma StoredKeeps(items: Items, maxKeys: int, victim: string, key: string, msg: Message, ttl: int, now: int)
    ensures var items' := Stored(items, maxKeys, victim, key, msg, ttl, now);
            && (forall k | k in items && k != key && (k != victim || maxKeys <= 0 || |items| < maxKeys) ::
                  k in items' && items'[k] == items[k])
            && (forall k | k in items' && k != key :: k in items)
            && (ttl > 0 ==> key in items' && items'[key] == Entry(msg, now + ttl))
            && (ttl <= 0 ==> items' == items)
  {
  }

  /** The expiry path of Get, which looks again under the lock. */
  function Expired(items: Items, key: string, now: int): Items {
    if key in items && now > items[key].expires then items - {key} else items
  }

  function Lookup(items: Items, key: string, now: int): Option<Message> {
    if key in items && now <= items[key].expires then Some(items[key].msg) else None
  }

  class Cache {
    var items: Items
    const maxKeys: int

    constructor (maxKeys: int)
      ensures items == map[] && this.maxKeys == maxKeys
    {
      this.maxKeys := maxKeys;
      items := map[];
    }

    /** A Get that nothing interrupts. */
    method Get(key: string, now: int) returns (r: Option<Message>)
      modifies this
      ensures r == Lookup(old(items), key, now)
      ensures items == Expired(old(items), key, now)
    {
      if key !in items {
        return None;
      }
      var ent := items[key];
      if now > ent.expires {
        if key in items && now > items[key].expires {
          items := items - {key};
        }
        return None;
      }
      return Some(ent.msg);
    }

    method Put(key: string, msg: Message, ttl: int, now: int)
      modifies this
      ensures exists victim :: (maxKeys > 0 && |old(items)| >= maxKeys ==> victim in old(items))
                               && items == Stored(old(items), maxKeys, victim, key, msg, ttl, now)
    {
      ghost var before := items;
      ghost var dropped := "";
      if ttl <= 0 {
        if items != map[] {
          dropped :| dropped in items;
        }
        assert items == Stored(before, maxKeys, dropped, key, msg, ttl, now);
        return;
      }
      if maxKeys > 0 && |items| >= maxKeys {
        assert items.Keys != {};
        var k :| k in items;
        dropped := k;
        items := items - {k};
      }
      items := items[key := Entry(msg, now + ttl)];
      assert items == Stored(before, maxKeys, dropped, key, msg, ttl, now);
    }
  }

  // ----- the protocol -----

  /** Where a request is: past a miss it waits for the upstream server, and if it found an
      expired entry it first has to take the lock. */
  datatype Request = Dropping(q: Question, now: int) | Waiting(q: Question, now: int)

  /** A put that took effect. */
  datatype Written = Written(q: Question, msg: Message, ttl: nat, now: int)

  datatype System = System(items: Items, requests: map<nat, Request>, log: seq<Written>)

  datatype Action =
    | Ask(id: nat, q: Question, now: int)
    | Drop(id: nat)
    | Answer(id: nat, msg: Message, ttl: nat, victim: string)
    | GiveUp(id: nat)

  /** `reply` is what the request gets from the cache. */
  ghost predicate Next(s: System, a: Action, s': System, reply: Option<Message>, maxKeys: int) {
    match a
    case Ask(id, q, now) =>
      var key := CacheKey(q);
      && id !in s.requests
      && reply == Lookup(s.items, key, now)
      && s' == if reply.Some? then s
               else s.(requests := s.requests[id := if key in s.items then Dropping(q, now) else Waiting(q, now)])
    case Drop(id) =>
      && id in s.requests && s.requests[id].Dropping? && reply == None
      && var r := s.requests[id];
         s' == s.(items := Expired(s.items, CacheKey(r.q), r.now), requests := s.requests[id := Waiting(r.q, r.now)])
    case Answer(id, msg, ttl, victim) =>
      && id in s.requests && s.requests[id].Waiting? && reply == None
      && (if Ttls(msg) == [] then ttl == 0 else IsMinTtl(msg, ttl))
      && (maxKeys > 0 && |s.items| >= maxKeys ==> victim in s.items)
      && var r := s.requests[id];
         s' == System(Stored(s.items, maxKeys, victim, CacheKey(r.q), msg, ttl * SECOND, r.now), s.requests - {id},
                      if ttl > 0 then s.log + [Written(r.q, msg, ttl, r.now)] else s.log)
    case GiveUp(id) =>
      id in s.requests && s.requests[id].Waiting? && reply == None && s' == s.(requests := s.requests - {id})
  }

  function Init(): System {
    System(map[], map[], [])
  }

  // ----- the invariant -----

  function Latest(log: seq<Written>, key: string): Option<Written> {
    if log == [] then None
    else if CacheKey(log[|log| - 1].q) == key then Some(log[|log| - 1])
    else Latest(log[..|log| - 1], key)
  }

  /** The index of the last write under the key. */
  predicate LastUnder(log: seq<Written>, key: string, i: nat) {
    i < |log| && CacheKey(log[i].q) == key && forall j | i < j < |log| :: CacheKey(log[j].q) != key
  }

  lemma {:induction false} LatestIsLast(log: seq<Written>, key: string)
    ensures Latest(log, key).None? ==> forall i | 0 <= i < |log| :: CacheKey(log[i].q) != key
    ensures Latest(log, key).Some? ==> exists i: nat :: LastUnder(log, key, i) && log[i] == Latest(log, key).value
  {
    hide CacheKey;
    if log != [] {
      var n := |log| - 1;
      if CacheKey(log[n].q) == key {
        assert LastUnder(log, key, n);
      } else {
        LatestIsLast(log[..n], key);
        if Latest(log, key).Some? {
          var i: nat :| LastUnder(log[..n], key, i) && log[..n][i] == Latest(log, key).value;
          LastUnderNext(log, key, i);
        } else {
          forall i | 0 <= i < |log| ensures CacheKey(log[i].q) != key {
            assert i < n ==> log[..n][i] == log[i];
          }
        }
      }
    }
  }

  lemma LastUnderNext(log: seq<Written>, key: string, i: nat)
    requires log != [] && CacheKey(log[|log| - 1].q) != key && LastUnder(log[..|log| - 1], key, i)
    ensures LastUnder(log, key, i)
  {
    hide CacheKey;
    forall j | i < j < |log| ensures CacheKey(log[j].q) != key {
      assert j < |log| - 1 ==> log[..|log| - 1][j] == log[j];
    }
  }

  /** Whatever is in the cache is the last thing written under its key. */
  ghost predicate Inv(s: System, maxKeys: int) {
    && (forall key | key in s.items :: Backed(s, key))
    && (forall w | w in s.log :: w.ttl > 0 && IsMinTtl(w.msg, w.ttl))
    && (maxKeys > 0 ==> |s.items| <= maxKeys)
  }

  lemma LatestNext(log: seq<Written>, w: Written, key: string)
    ensures Latest(log + [w], key) == if CacheKey(w.q) == key then Some(w) else Latest(log, key)
  {
    assert (log + [w])[..|log|] == log;
  }

  lemma StoredSize(items: Items, maxKeys: int, victim: string, key: string, msg: Message, ttl: int, now: int)
    requires maxKeys > 0 && |items| <= maxKeys
    requires |items| >= maxKeys ==> victim in items
    ensures |Stored(items, maxKeys, victim, key, msg, ttl, now)| <= maxKeys
  {
    if ttl > 0 {
      var items1 := if |items| >= maxKeys then items - {victim} else items;
      SizeDrop(items, victim);
      SizePut(items1, key, Entry(msg, now + ttl));
    }
  }

  lemma SizeDrop(items: Items, k: string)
    ensures |items - {k}| <= |items|
    ensures k in items ==> |items - {k}| == |items| - 1
  {
    assert (items - {k}).Keys == items.Keys - {k};
    KeysSize(items);
    KeysSize(items - {k});
  }

  lemma SizePut(items: Items, k: string, e: Entry)
    ensures |items[k := e]| <= |items| + 1
  {
    assert items[k := e].Keys == items.Keys + {k};
    KeysSize(items);
    KeysSize(items[k := e]);
  }

  lemma KeysSize(items: Items)
    ensures |items| == |items.Keys|
  {
  }

  ghost predicate Backed(s: System, key: string) {
    && key in s.items && Latest(s.log, key).Some?
    && var w := Latest(s.log, key).value; s.items[key] == Entry(w.msg, w.now + w.ttl * SECOND)
  }

  lemma AnswerKeepsEntries(s: System, s': System, id: nat, msg: Message, ttl: nat, victim: string, maxKeys: int,
      key: string)
    requires (key in s.items ==> Backed(s, key)) && Next(s, Answer(id, msg, ttl, victim), s', None, maxKeys) &&
            key in s'.items
    ensures Backed(s', key)
  {
    hide CacheKey, Latest, IsMinTtl;
    if ttl > 0 {
      LatestNext(s.log, Written(s.requests[id].q, msg, ttl, s.requests[id].now), key);
    }
  }

  lemma AnswerKeepsInv(s: System, s': System, id: nat, msg: Message, ttl: nat, victim: string, maxKeys: int)
    requires Inv(s, maxKeys) && Next(s, Answer(id, msg, ttl, victim), s', None, maxKeys)
    ensures Inv(s', maxKeys)
  {
    hide CacheKey, Latest, IsMinTtl, Backed;
    forall key | key in s'.items ensures Backed(s', key) {
      AnswerKeepsEntries(s, s', id, msg, ttl, victim, maxKeys, key);
    }
    if maxKeys > 0 {
      StoredSize(s.items, maxKeys, victim, CacheKey(s.requests[id].q), msg, ttl * SECOND, s.requests[id].now);
    }
    assert forall w | w in s'.log ::
        w in s.log || (ttl > 0 && w == Written(s.requests[id].q, msg, ttl, s.requests[id].now));
  }

  /** Every step of every request keeps the invariant. */
  lemma StepKeepsInv(s: System, a: Action, s': System, reply: Option<Message>, maxKeys: int)
    requires Inv(s, maxKeys) && Next(s, a, s', reply, maxKeys)
    ensures Inv(s', maxKeys)
  {
    hide CacheKey, Latest, IsMinTtl;
    match a {
      case Ask(id, q, now) =>
      case Drop(id) =>
        SizeDrop(s.items, CacheKey(s.requests[id].q));
      case Answer(id, msg, ttl, victim) =>
        hide Inv;
        AnswerKeepsInv(s, s', id, msg, ttl, victim, maxKeys);
      case GiveUp(id) =>
    }
  }

  // ----- runs -----

  datatype Event = Event(action: Action, reply: Option<Message>)

  ghost predicate Run(states: seq<System>, events: seq<Event>, maxKeys: int) {
    && |states| == |events| + 1 && states[0] == Init()
    && forall i | 0 <= i < |events| :: Next(states[i], events[i].action, states[i + 1], events[i].reply, maxKeys)
  }

  lemma {:induction false} RunKeepsInv(states: seq<System>, events: seq<Event>, maxKeys: int, i: nat)
    requires Run(states, events, maxKeys) && i < |states|
    ensures Inv(states[i], maxKeys)
  {
    if i > 0 {
      RunKeepsInv(states, events, maxKeys, i - 1);
      hide Inv, Next;
      StepKeepsInv(states[i - 1], events[i - 1].action, states[i], events[i - 1].reply, maxKeys);
    }
  }

  /** The index of the last write for that question. */
  predicate LastFor(log: seq<Written>, q: Question, k: nat) {
    k < |log| && SameQuestion(log[k].q, q) && forall l | k < l < |log| :: !SameQuestion(log[l].q, q)
  }

  /** None of the message's records has outlived its TTL since it was written. */
  predicate Fresh(w: Written, now: int) {
    && (forall t | t in w.msg.answer :: now <= w.now + t * SECOND)
    && (forall t | t in w.msg.ns :: now <= w.now + t * SECOND)
    && (forall t | t in w.msg.extra :: now <= w.now + t * SECOND)
  }

  lemma LastUnderIsLastFor(log: seq<Written>, q: Question, k: nat)
    ensures LastUnder(log, CacheKey(q), k) <==> LastFor(log, q, k)
  {
    forall w | w in log ensures CacheKey(w.q) == CacheKey(q) <==> SameQuestion(w.q, q) {
      KeyIsExact(w.q, q);
    }
    hide CacheKey, SameQuestion;
  }

  lemma LatestFor(log: seq<Written>, q: Question) returns (k: nat)
    requires Latest(log, CacheKey(q)).Some?
    ensures k < |log| && LastFor(log, q, k) && log[k] == Latest(log, CacheKey(q)).value
  {
    LatestIsLast(log, CacheKey(q));
    hide Latest, CacheKey;
    k :| LastUnder(log, CacheKey(q), k) && log[k] == Latest(log, CacheKey(q)).value;
    LastUnderIsLastFor(log, q, k);
  }

  lemma FreshIs(w: Written, now: int)
    requires IsMinTtl(w.msg, w.ttl)
    ensures Fresh(w, now) <==> now <= w.now + w.ttl * SECOND
  {
    AllSections(w.msg);
    hide Ttls;
    assert HasTtl(w.msg, w.ttl);
    assert forall t | t in w.msg.answer :: HasTtl(w.msg, t);
    assert forall t | t in w.msg.ns :: HasTtl(w.msg, t);
    assert forall t | t in w.msg.extra :: HasTtl(w.msg, t);
    forall t: nat | HasTtl(w.msg, t) ensures w.ttl * SECOND <= t * SECOND {
    }
  }

  /** What a question is answered with, and when, by the last write under its key. */
  lemma ReplyIs(s: System, q: Question, id: nat, now: int, s': System, reply: Option<Message>, maxKeys: int)
    requires Inv(s, maxKeys) && Next(s, Ask(id, q, now), s', reply, maxKeys)
    ensures reply.Some? ==>
              && Latest(s.log, CacheKey(q)).Some?
              && var w := Latest(s.log, CacheKey(q)).value;
                 w.msg == reply.value && now <= w.now + w.ttl * SECOND
    ensures KeepsLive(s, now) && Latest(s.log, CacheKey(q)).Some? &&
            Latest(s.log, CacheKey(q)).value.now + Latest(s.log, CacheKey(q)).value.ttl * SECOND >= now ==>
              reply.Some?
  {
    hide CacheKey, Latest, IsMinTtl;
    assert KeepsLive(s, now) && Latest(s.log, CacheKey(q)).Some? ==> StaysLive(s, CacheKey(q), now);
  }

  lemma WritesAreMinimal(s: System, maxKeys: int, k: nat)
    requires Inv(s, maxKeys) && k < |s.log|
    ensures IsMinTtl(s.log[k].msg, s.log[k].ttl)
  {
    assert s.log[k] in s.log;
  }

  /** In every run, what the cache answers is the message last written for the very same
      question, and at that time no record of it has outlived its TTL. */
  lemma HitIsCurrent(states: seq<System>, events: seq<Event>, maxKeys: int, i: nat)
    requires Run(states, events, maxKeys) && i < |events| && events[i].action.Ask? && events[i].reply.Some?
    ensures exists k: nat :: LastFor(states[i].log, events[i].action.q, k) &&
              states[i].log[k].msg == events[i].reply.value && Fresh(states[i].log[k], events[i].action.now)
  {
    hide CacheKey, Latest, LastUnder, IsMinTtl, Fresh, Inv, LastFor, KeepsLive, Next, SameQuestion;
    RunKeepsInv(states, events, maxKeys, i);
    var q, now, log := events[i].action.q, events[i].action.now, states[i].log;
    assert events[i].action == Ask(events[i].action.id, q, now);
    assert Next(states[i], events[i].action, states[i + 1], events[i].reply, maxKeys);
    hide Run;
    ReplyIs(states[i], q, events[i].action.id, now, states[i + 1], events[i].reply, maxKeys);
    var k := LatestFor(log, q);
    WritesAreMinimal(states[i], maxKeys, k);
    FreshIs(log[k], now);
  }

  // ----- without a limit -----

  /** The last write under the key is in the cache, unless it has expired before `clock`. */
  ghost predicate StaysLive(s: System, key: string, clock: int)
    requires Latest(s.log, key).Some?
  {
    var w := Latest(s.log, key).value;
    w.now + w.ttl * SECOND < clock || (key in s.items && s.items[key] == Entry(w.msg, w.now + w.ttl * SECOND))
  }

  /** Nothing that could still be answered after `clock` has left the cache. */
  ghost predicate KeepsLive(s: System, clock: int) {
    && (forall key | Latest(s.log, key).Some? :: StaysLive(s, key, clock))
    && (forall id | id in s.requests :: s.requests[id].now <= clock)
  }

  lemma AnswerKeepsLive(s: System, id: nat, msg: Message, ttl: nat, victim: string, s': System, maxKeys: int,
      clock: int, key: string)
    requires maxKeys <= 0 && Next(s, Answer(id, msg, ttl, victim), s', None, maxKeys) && KeepsLive(s, clock)
    requires Latest(s'.log, key).Some?
    ensures StaysLive(s', key, clock)
  {
    hide CacheKey, Latest, IsMinTtl;
    if ttl > 0 {
      LatestNext(s.log, Written(s.requests[id].q, msg, ttl, s.requests[id].now), key);
    }
    assert Latest(s.log, key).Some? ==> StaysLive(s, key, clock);
  }

  lemma DropKeepsLive(s: System, id: nat, s': System, maxKeys: int, clock: int, key: string)
    requires Next(s, Drop(id), s', None, maxKeys) && KeepsLive(s, clock) && Latest(s'.log, key).Some?
    ensures StaysLive(s', key, clock)
  {
    hide CacheKey, Latest;
    assert StaysLive(s, key, clock);
  }

  lemma StepKeepsLive(s: System, a: Action, s': System, reply: Option<Message>, maxKeys: int, clock: int)
    requires maxKeys <= 0 && Next(s, a, s', reply, maxKeys) && KeepsLive(s, clock) && (a.Ask? ==> a.now <= clock)
    ensures KeepsLive(s', clock)
  {
    hide CacheKey, Latest, IsMinTtl, StaysLive;
    forall key | Latest(s'.log, key).Some? ensures StaysLive(s', key, clock) {
      match a {
        case Ask(id, q, now) =>
          SameLive(s, s', key, clock);
        case Drop(id) =>
          DropKeepsLive(s, id, s', maxKeys, clock, key);
        case Answer(id, msg, ttl, victim) =>
          AnswerKeepsLive(s, id, msg, ttl, victim, s', maxKeys, clock, key);
        case GiveUp(id) =>
          SameLive(s, s', key, clock);
      }
    }
  }

  lemma SameLive(s: System, s': System, key: string, clock: int)
    requires s'.items == s.items && s'.log == s.log && KeepsLive(s, clock) && Latest(s'.log, key).Some?
    ensures StaysLive(s', key, clock)
  {
    assert StaysLive(s, key, clock);
  }

  /** The times of the questions up to the i-th event do not run backwards, and `clock` is not
      before any of them. */
  ghost predicate Clocked(events: seq<Event>, i: nat, clock: int)
    requires i <= |events|
  {
    forall j | 0 <= j < i && events[j].action.Ask? :: events[j].action.now <= clock
  }

  lemma {:induction false} RunKeepsLive(states: seq<System>, events: seq<Event>, maxKeys: int, i: nat, clock: int)
    requires Run(states, events, maxKeys) && maxKeys <= 0 && i < |states| && Clocked(events, i, clock)
    ensures KeepsLive(states[i], clock)
  {
    if i > 0 {
      RunKeepsLive(states, events, maxKeys, i - 1, clock);
      hide Inv, Next, KeepsLive;
      StepKeepsLive(states[i - 1], events[i - 1].action, states[i], events[i - 1].reply, maxKeys, clock);
    }
  }

  /** Without a limit on the entries, and with a clock that does not run backwards, the cache
      answers exactly if the question was written before and all records of the last such
      message are within their TTLs. */
  lemma HitExactly(states: seq<System>, events: seq<Event>, maxKeys: int, i: nat)
    requires Run(states, events, maxKeys) && maxKeys <= 0 && i < |events| && events[i].action.Ask?
    requires forall j | 0 <= j < i && events[j].action.Ask? :: events[j].action.now <= events[i].action.now
    ensures events[i].reply.Some? <==>
              exists k: nat :: LastFor(states[i].log, events[i].action.q, k) &&
                Fresh(states[i].log[k], events[i].action.now)
  {
    hide CacheKey, Latest, LastUnder, IsMinTtl, Fresh, Inv, KeepsLive, Next, SameQuestion;
    if events[i].reply.Some? {
      HitIsCurrent(states, events, maxKeys, i);
    }
    RunKeepsInv(states, events, maxKeys, i);
    RunKeepsLive(states, events, maxKeys, i, events[i].action.now);
    assert events[i].action == Ask(events[i].action.id, events[i].action.q, events[i].action.now);
    assert Next(states[i], events[i].action, states[i + 1], events[i].reply, maxKeys);
    hide Run;
    if k: nat :| LastFor(states[i].log, events[i].action.q, k) && Fresh(states[i].log[k], events[i].action.now) {
      FreshIsHit(states[i], events[i].action.q, events[i].action.id, events[i].action.now, states[i + 1],
        events[i].reply, maxKeys, k);
    }
  }

  lemma FreshIsHit(s: System, q: Question, id: nat, now: int, s': System, reply: Option<Message>, maxKeys: int, k: nat)
    requires Inv(s, maxKeys) && KeepsLive(s, now) && Next(s, Ask(id, q, now), s', reply, maxKeys)
    requires k < |s.log| && LastFor(s.log, q, k) && Fresh(s.log[k], now)
    ensures reply.Some?
  {
    ReplyIs(s, q, id, now, s', reply, maxKeys);
    WritesAreMinimal(s, maxKeys, k);
    FreshIs(s.log[k], now);
    LastIsLatest(s.log, q, k);
    hide CacheKey, Latest, IsMinTtl, Fresh, LastFor, Inv, Next, KeepsLive;
  }

  lemma LastIsLatest(log: seq<Written>, q: Question, k: nat)
    requires k < |log| && LastFor(log, q, k)
    ensures Latest(log, CacheKey(q)) == Some(log[k])
  {
    LatestIsLast(log, CacheKey(q));
    LastUnderIsLastFor(log, q, k);
    hide Latest, CacheKey, LastFor, SameQuestion;
    assert LastUnder(log, CacheKey(q), k);
    assert CacheKey(log[k].q) == CacheKey(q);
    var l: nat :| LastUnder(log, CacheKey(q), l) && log[l] == Latest(log, CacheKey(q)).value;
    assert l == k;
  }

  /** The expiry path is invisible: no lookup at or after its time sees a difference, so an
      entry that was refreshed in between stays. */
  lemma DropIsInvisible(s: System, id: nat, s': System, maxKeys: int, key: string, t: int)
    requires Next(s, Drop(id), s', None, maxKeys) && t >= s.requests[id].now
    ensures Lookup(s'.items, key, t) == Lookup(s.items, key, t)
    ensures key in s.items && s.items[key].expires >= s.requests[id].now ==>
            key in s'.items && s'.items[key] == s.items[key]
  {
    hide CacheKey;
  }

  /** With a limit, no run ever holds more entries than that. */
  lemma NeverOverfull(states: seq<System>, events: seq<Event>, maxKeys: int, i: nat)
    requires Run(states, events, maxKeys) && i < |states| && maxKeys > 0
    ensures |states[i].items| <= maxKeys
  {
    RunKeepsInv(states, events, maxKeys, i);
  }

  /** An answer with a record of TTL zero, such as the EDNS record that an upstream server
      adds with no flag set, is never cached, and neither is one without records. */
  lemma ZeroTtlIsNotCached(s: System, id: nat, msg: Message, ttl: nat, victim: string, s': System, maxKeys: int)
    requires Next(s, Answer(id, msg, ttl, victim), s', None, maxKeys)
    ensures s'.log != s.log <==> (exists t :: HasTtl(msg, t)) && !HasTtl(msg, 0)
    ensures HasTtl(msg, 0) || (forall t :: !HasTtl(msg, t)) ==> s'.items == s.items
  {
    hide CacheKey;
    AllSections(msg);
    if Ttls(msg) != [] {
      CacheableExactly(msg, ttl);
    }
    assert |s.log + [Written(s.requests[id].q, msg, ttl, s.requests[id].now)]| == |s.log| + 1;
  }
}
