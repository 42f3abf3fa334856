/**
 Concurrency slots: `app/services/concurrency_limiter.py`.

 A slot is a counter in Redis, changed by two Lua scripts, or, when Redis fails, a counter in this
 process.  The Redis key gets its time to live only when its counter goes from nothing to one.
 */
module ConcurrencyLimiter {
  import opened Common

  // ----------------------------------------------------------- the local variant, all keys

  type Counts = map<string, nat>

  function CountOf(counts: Counts, key: string): nat {
    if key in counts then counts[key] else 0
  }

  function LocalAcquire(counts: Counts, key: string, limit: nat): (Counts, bool) {
    if CountOf(counts, key) >= limit then (counts, false) else (counts[key := CountOf(counts, key) + 1], true)
  }

  function LocalRelease(counts: Counts, key: string): Counts {
    if CountOf(counts, key) <= 1 then counts - {key} else counts[key := CountOf(counts, key) - 1]
  }

  class LocalSlots {
    var counts: Counts

    constructor ()
      ensures counts == map[]
    {
      counts := map[];
    }

    /** The entry of `_local_slot`; false stands for ConcurrencyLimitExceeded. */
    method Acquire(key: string, limit: nat) returns (ok: bool)
      modifies this
      ensures (counts, ok) == LocalAcquire(old(counts), key, limit)
    {
      var current := if key in counts then counts[key] else 0;
      if current >= limit {
        return false;
      }
      counts := counts[key := current + 1];
      ok := true;
    }

    /** The `finally` part of `_local_slot`. */
    method Release(key: string)
      modifies this
      ensures counts == LocalRelease(old(counts), key)
    {
      var current := (if key in counts then counts[key] else 1) as int - 1;
      if current <= 0 {
        counts := counts - {key};
      } else {
        counts := counts[key := current];
      }
    }
  }

  datatype LocalEvent = Enter(id: nat, key: string) | Leave(id: nat)

  /** `holders` says which task is inside which slot. */
  datatype LocalState = LocalState(counts: Counts, holders: map<nat, string>)

  function NextLocal(s: LocalState, limitOf: string -> nat, ev: LocalEvent): LocalState {
    match ev
    case Enter(id, key) =>
      if id in s.holders then s
      else
        var (counts, ok) := LocalAcquire(s.counts, key, limitOf(key));
        LocalState(counts, if ok then s.holders[id := key] else s.holders)
    case Leave(id) =>
      if id !in s.holders then s else LocalState(LocalRelease(s.counts, s.holders[id]), s.holders - {id})
  }

  function PlayLocal(s: LocalState, limitOf: string -> nat, events: seq<LocalEvent>): LocalState
    decreases |events|
  {
    if events == [] then s else PlayLocal(NextLocal(s, limitOf, events[0]), limitOf, events[1..])
  }

  lemma PlayLocalStep(s: LocalState, limitOf: string -> nat, ev: LocalEvent, rest: seq<LocalEvent>)
    ensures PlayLocal(s, limitOf, [ev] + rest) == PlayLocal(NextLocal(s, limitOf, ev), limitOf, rest)
  {
    assert ([ev] + rest)[1..] == rest;
  }

  function HoldersOf(holders: map<nat, string>, key: string): set<nat> {
    set id | id in holders && holders[id] == key
  }

  ghost predicate KeyExact(s: LocalState, limitOf: string -> nat, key: string) {
    && CountOf(s.counts, key) == |HoldersOf(s.holders, key)| <= limitOf(key)
    && (key in s.counts ==> s.counts[key] > 0)
  }

  ghost predicate LocalExact(s: LocalState, limitOf: string -> nat) {
    forall key :: KeyExact(s, limitOf, key)
  }

  /** One step adds or removes at most one holder, and of one key only. */
  lemma HoldersChange(s: LocalState, limitOf: string -> nat, ev: LocalEvent, key: string)
    ensures var before, after := HoldersOf(s.holders, key), HoldersOf(NextLocal(s, limitOf, ev).holders, key);
            if ev.Enter? && ev.id !in s.holders && ev.key == key && CountOf(s.counts, key) < limitOf(key)
            then |after| == |before| + 1
            else if ev.Leave? && ev.id in s.holders && s.holders[ev.id] == key then |after| == |before| - 1
            else after == before
  {
    var before, after := HoldersOf(s.holders, key), HoldersOf(NextLocal(s, limitOf, ev).holders, key);
    if ev.Enter? && ev.id !in s.holders && ev.key == key && CountOf(s.counts, key) < limitOf(key) {
      assert after == before + {ev.id};
    } else if ev.Leave? && ev.id in s.holders && s.holders[ev.id] == key {
      assert after == before - {ev.id};
    } else {
      assert after == before;
    }
  }

  lemma NextLocalStaysExact(s: LocalState, limitOf: string -> nat, ev: LocalEvent)
    requires LocalExact(s, limitOf)
    ensures LocalExact(NextLocal(s, limitOf, ev), limitOf)
  {
    forall key ensures KeyExact(NextLocal(s, limitOf, ev), limitOf, key) {
      assert KeyExact(s, limitOf, key);
      HoldersChange(s, limitOf, ev, key);
    }
  }

  /** On every interleaving each local counter is the number of its holders, within its limit. */
  lemma {:induction false} LocalCountersAreExact(s: LocalState, limitOf: string -> nat, events: seq<LocalEvent>)
    requires LocalExact(s, limitOf)
    ensures LocalExact(PlayLocal(s, limitOf, events), limitOf)
    decreases |events|
  {
    if events != [] {
      NextLocalStaysExact(s, limitOf, events[0]);
      LocalCountersAreExact(NextLocal(s, limitOf, events[0]), limitOf, events[1..]);
    }
  }

  lemma LocalSlotsStartExact(limitOf: string -> nat)
    ensures LocalExact(LocalState(map[], map[]), limitOf)
  {
    forall key ensures HoldersOf(map[], key) == {} {
    }
  }

  /** From an empty table on, whatever enters and leaves: as many holders of a key as counted, and no more than allowed. */
  lemma LocalHoldersStayWithinLimit(limitOf: string -> nat, events: seq<LocalEvent>, key: string)
    ensures var end := PlayLocal(LocalState(map[], map[]), limitOf, events);
            CountOf(end.counts, key) == |HoldersOf(end.holders, key)| <= limitOf(key)
  {
    LocalSlotsStartExact(limitOf);
    LocalCountersAreExact(LocalState(map[], map[]), limitOf, events);
    assert KeyExact(PlayLocal(LocalState(map[], map[]), limitOf, events), limitOf, key);
  }

  /** A task gets in exactly when fewer tasks than the limit hold the key. */
  lemma EntersIffRoom(s: LocalState, limitOf: string -> nat, id: nat, key: string)
    requires LocalExact(s, limitOf) && id !in s.holders
    ensures id in NextLocal(s, limitOf, Enter(id, key)).holders <==> |HoldersOf(s.holders, key)| < limitOf(key)
  {
    assert KeyExact(s, limitOf, key);
  }

  // ------------------------------------------------------------------- one key in Redis

  /** A live key: its counter and the time it expires. */
  datatype Key = Key(count: int, deadline: int)

  function KeyCount(k: Option<Key>): int {
    if k.Some? then k.value.count else 0
  }

  /** `_ACQUIRE_LUA` at time `now`. */
  function AcquireLua(k: Option<Key>, limit: nat, ttl: nat, now: int): (Option<Key>, bool) {
    var bumped := if k.None? then Key(1, now + ttl) else k.value.(count := k.value.count + 1);
    if bumped.count > limit then (Some(bumped.(count := bumped.count - 1)), false) else (Some(bumped), true)
  }

  /** `_RELEASE_LUA` */
  function ReleaseLua(k: Option<Key>): Option<Key> {
    if KeyCount(k) - 1 <= 0 then None else Some(k.value.(count := k.value.count - 1))
  }

  /** The key as the scripts see it; each method is one script, which Redis runs without interruption. */
  class KeyServer {
    var key: Option<Key>

    constructor ()
      ensures key == None
    {
      key := None;
    }

    method Incr(now: int) returns (current: int)
      modifies this
      ensures current == KeyCount(old(key)) + 1
      ensures key.Some? && key.value.count == current
      ensures key.value.deadline == if old(key).Some? then old(key).value.deadline else now
    {
      current := KeyCount(key) + 1;
      key := Some(Key(current, if key.Some? then key.value.deadline else now));
    }

    method RunAcquire(limit: nat, ttl: nat, now: int) returns (result: int)
      requires key.Some? ==> key.value.count > 0
      modifies this
      ensures (key, result == 1) == AcquireLua(old(key), limit, ttl, now) && (result == 0 || result == 1)
      ensures result == 1 <==> KeyCount(old(key)) < limit
      ensures key.Some? && key.value.count == KeyCount(old(key)) + result
      ensures key.value.deadline == if old(key).None? then now + ttl else old(key).value.deadline
    {
      var current := Incr(now);
      if current == 1 {
        key := Some(key.value.(deadline := now + ttl));
      }
      if current > limit {
        key := Some(key.value.(count := current - 1));
        return 0;
      }
      return 1;
    }

    method RunRelease() returns (val: int)
      modifies this
      ensures key == ReleaseLua(old(key)) && val == KeyCount(old(key)) - 1
    {
      val := KeyCount(key) - 1;
      if val <= 0 {
        key := None;
      } else {
        key := Some(key.value.(count := val));
      }
    }
  }

  /** Redis answers, cannot be reached, or runs the script and loses the reply. */
  datatype Link = Up | Down | ReplyLost

  datatype System = System(
    now: int,
    key: Option<Key>,
    redisHolders: set<nat>,
    localCount: nat,
    localHolders: set<nat>)

  datatype Event =
    | Acquire(id: nat, link: Link)
    | Release(id: nat, reachesRedis: bool)
    | Wait(seconds: nat)

  function Expire(k: Option<Key>, now: int): Option<Key> {
    if k.Some? && now >= k.value.deadline then None else k
  }

  function EnterLocal(s: System, id: nat, limit: nat): System {
    if s.localCount >= limit then s
    else s.(localCount := s.localCount + 1, localHolders := s.localHolders + {id})
  }

  function Next(s: System, limit: nat, ttl: nat, ev: Event): System {
    match ev
    case Wait(seconds) => s.(now := s.now + seconds, key := Expire(s.key, s.now + seconds))
    case Acquire(id, link) =>
      if id in s.redisHolders || id in s.localHolders then s
      else
        var (key, ok) := AcquireLua(s.key, limit, ttl, s.now);
        if link.Up? then s.(key := key, redisHolders := if ok then s.redisHolders + {id} else s.redisHolders)
        else EnterLocal(if link.ReplyLost? then s.(key := key) else s, id, limit)
    case Release(id, reachesRedis) =>
      if id in s.redisHolders
      then s.(key := if reachesRedis then ReleaseLua(s.key) else s.key, redisHolders := s.redisHolders - {id})
      else if id in s.localHolders
      then s.(localCount := if s.localCount <= 1 then 0 else s.localCount - 1, localHolders := s.localHolders - {id})
      else s
  }

  function Play(s: System, limit: nat, ttl: nat, events: seq<Event>): System
    decreases |events|
  {
    if events == [] then s else Play(Next(s, limit, ttl, events[0]), limit, ttl, events[1..])
  }

  const EMPTY: System := System(0, None, {}, 0, {})

  /** The key runs out of time while some task still holds a slot of it. */
  predicate ExpiresWhileHeld(s: System, ev: Event) {
    ev.Wait? && s.redisHolders != {} && s.key.Some? && s.now + ev.seconds >= s.key.value.deadline
  }

  ghost predicate NeverExpiresWhileHeld(s: System, limit: nat, ttl: nat, events: seq<Event>)
    decreases |events|
  {
    events == [] ||
    (!ExpiresWhileHeld(s, events[0]) && NeverExpiresWhileHeld(Next(s, limit, ttl, events[0]), limit, ttl, events[1..]))
  }

  ghost predicate Bounded(s: System, limit: nat) {
    && |s.redisHolders| <= KeyCount(s.key) <= limit
    && (s.key.Some? ==> s.key.value.count > 0)
    && |s.localHolders| == s.localCount <= limit
  }

  lemma AcquireStaysBounded(s: System, limit: nat, ttl: nat, id: nat, link: Link)
    requires limit > 0 && Bounded(s, limit)
    ensures Bounded(Next(s, limit, ttl, Acquire(id, link)), limit)
  {
    if id !in s.redisHolders && id !in s.localHolders {
      assert |s.redisHolders + {id}| == |s.redisHolders| + 1;
      assert |s.localHolders + {id}| == |s.localHolders| + 1;
    }
  }

  lemma ReleaseStaysBounded(s: System, limit: nat, ttl: nat, id: nat, reachesRedis: bool)
    requires Bounded(s, limit)
    ensures Bounded(Next(s, limit, ttl, Release(id, reachesRedis)), limit)
  {
    if id in s.redisHolders {
      assert |s.redisHolders - {id}| == |s.redisHolders| - 1;
    } else if id in s.localHolders {
      assert |s.localHolders - {id}| == |s.localHolders| - 1;
    }
  }

  lemma NextStaysBounded(s: System, limit: nat, ttl: nat, ev: Event)
    requires limit > 0 && Bounded(s, limit) && !ExpiresWhileHeld(s, ev)
    ensures Bounded(Next(s, limit, ttl, ev), limit)
  {
    match ev
    case Acquire(id, link) => AcquireStaysBounded(s, limit, ttl, id, link);
    case Release(id, reachesRedis) => ReleaseStaysBounded(s, limit, ttl, id, reachesRedis);
    case Wait(_) =>
  }

  /**
   Outages and lost messages may split the holders between Redis and the process: as long as the key
   does not expire under a holder, each part stays within the limit, and together within twice that.
   */
  lemma {:induction false} HoldersStayBounded(s: System, limit: nat, ttl: nat, events: seq<Event>)
    requires limit > 0 && Bounded(s, limit) && NeverExpiresWhileHeld(s, limit, ttl, events)
    ensures var end := Play(s, limit, ttl, events);
            && |end.redisHolders| <= KeyCount(end.key) <= limit && |end.localHolders| == end.localCount <= limit
            && |end.redisHolders| + |end.localHolders| <= 2 * limit
    decreases |events|
  {
    if events != [] {
      NextStaysBounded(s, limit, ttl, events[0]);
      HoldersStayBounded(Next(s, limit, ttl, events[0]), limit, ttl, events[1..]);
    }
  }

  /** From an empty system on. */
  lemma HoldersFromEmptyStayBounded(limit: nat, ttl: nat, events: seq<Event>)
    requires limit > 0 && NeverExpiresWhileHeld(EMPTY, limit, ttl, events)
    ensures |Play(EMPTY, limit, ttl, events).redisHolders| <= limit && |Play(EMPTY, limit, ttl, events).localHolders| <= limit
  {
    HoldersStayBounded(EMPTY, limit, ttl, events);
  }

  /** Redis answers every script, and every release reaches it. */
  ghost predicate Reliable(events: seq<Event>) {
    forall e | e in events :: (e.Acquire? ==> e.link.Up?) && (e.Release? ==> e.reachesRedis)
  }

  ghost predicate Exact(s: System, limit: nat) {
    && KeyCount(s.key) == |s.redisHolders| <= limit
    && (s.key.Some? <==> s.redisHolders != {})
  }

  /** After every prefix of the history the Redis counter is the number of holders. */
  ghost predicate ExactThroughout(s: System, limit: nat, ttl: nat, events: seq<Event>)
    decreases |events|
  {
    KeyCount(s.key) == |s.redisHolders| <= limit &&
    (events != [] ==> ExactThroughout(Next(s, limit, ttl, events[0]), limit, ttl, events[1..]))
  }

  lemma NextStaysExact(s: System, limit: nat, ttl: nat, ev: Event)
    requires limit > 0 && Exact(s, limit) && Reliable([ev])
    ensures !ExpiresWhileHeld(s, ev) ==> Exact(Next(s, limit, ttl, ev), limit)
    ensures ExpiresWhileHeld(s, ev) ==> KeyCount(Next(s, limit, ttl, ev).key) != |Next(s, limit, ttl, ev).redisHolders|
  {
    assert ev in [ev];
    if ev.Release? && ev.id in s.redisHolders {
      assert |s.redisHolders - {ev.id}| == |s.redisHolders| - 1;
    }
  }

  /** Where the counter is exact a task gets a Redis slot exactly when fewer tasks than the limit hold one. */
  lemma AcquiresIffRoom(s: System, limit: nat, ttl: nat, id: nat)
    requires limit > 0 && Exact(s, limit) && id !in s.redisHolders && id !in s.localHolders
    ensures id in Next(s, limit, ttl, Acquire(id, Up)).redisHolders <==> |s.redisHolders| < limit
  {
  }

  /** A task that Redis does not answer takes a local slot exactly when one is free; a lost reply leaves its count behind. */
  lemma OutageFallsBack(s: System, limit: nat, ttl: nat, id: nat, link: Link)
    requires limit > 0 && Bounded(s, limit) && !link.Up? && id !in s.redisHolders && id !in s.localHolders
    ensures var s' := Next(s, limit, ttl, Acquire(id, link));
            && s'.redisHolders == s.redisHolders
            && (id in s'.localHolders <==> |s.localHolders| < limit)
            && s'.key == (if link.ReplyLost? then AcquireLua(s.key, limit, ttl, s.now).0 else s.key)
  {
  }

  /** A release that does not reach Redis gives the slot up but leaves its count behind. */
  lemma LostReleaseLeavesItsCount(s: System, limit: nat, ttl: nat, id: nat, reachesRedis: bool)
    requires id in s.redisHolders
    ensures var s' := Next(s, limit, ttl, Release(id, reachesRedis));
            && s'.redisHolders == s.redisHolders - {id}
            && KeyCount(s'.key) == (if reachesRedis then Max(0, KeyCount(s.key) - 1) else KeyCount(s.key))
  {
  }

  /** The time to live runs from the acquisition that found no key; no later one moves the deadline. */
  lemma DeadlineIsSetOnce(s: System, limit: nat, ttl: nat, ev: Event)
    requires limit > 0 && Bounded(s, limit) && Next(s, limit, ttl, ev).key.Some?
    ensures s.key.Some? ==> Next(s, limit, ttl, ev).key.value.deadline == s.key.value.deadline
    ensures s.key.None? ==> ev.Acquire? && Next(s, limit, ttl, ev).key.value.deadline == s.now + ttl
  {
  }

  /** The key is gone exactly when the clock has reached its deadline. */
  lemma KeyExpiresAtDeadline(s: System, limit: nat, ttl: nat, seconds: nat)
    requires s.key.Some?
    ensures Next(s, limit, ttl, Wait(seconds)).key == if s.now + seconds < s.key.value.deadline then s.key else None
  {
  }

  /** With a reliable Redis the counter is exact throughout precisely when the key never expires under a holder. */
  lemma {:induction false} CounterIsExactIffKeyOutlivesHolders(s: System, limit: nat, ttl: nat, events: seq<Event>)
    requires limit > 0 && Exact(s, limit) && Reliable(events)
    ensures ExactThroughout(s, limit, ttl, events) <==> NeverExpiresWhileHeld(s, limit, ttl, events)
    decreases |events|
  {
    if events != [] {
      assert events[0] in events;
      NextStaysExact(s, limit, ttl, events[0]);
      if !ExpiresWhileHeld(s, events[0]) {
        CounterIsExactIffKeyOutlivesHolders(Next(s, limit, ttl, events[0]), limit, ttl, events[1..]);
      }
    }
  }

  /**
   Holding each slot for less than the time to live is not enough: the key expires that long after the
   first of an overlapping chain of holders, and then more tasks enter than the limit allows.
   */
  lemma ShortHoldsDoNotSuffice(ttl: nat)
    requires ttl >= 2
    ensures var events := [Acquire(0, Up), Wait(ttl - 1), Acquire(1, Up), Release(0, true), Wait(1), Acquire(2, Up), Acquire(3, Up)];
            Play(EMPTY, 2, ttl, events).redisHolders == {1, 2, 3}
  {
    var s1 := Next(EMPTY, 2, ttl, Acquire(0, Up));
    var s2 := Next(s1, 2, ttl, Wait(ttl - 1));
    var s3 := Next(s2, 2, ttl, Acquire(1, Up));
    var s4 := Next(s3, 2, ttl, Release(0, true));
    var s5 := Next(s4, 2, ttl, Wait(1));
    var s6 := Next(s5, 2, ttl, Acquire(2, Up));
    var s7 := Next(s6, 2, ttl, Acquire(3, Up));
    assert s4.key == Some(Key(1, ttl)) && s4.redisHolders == {1};
    assert s5.key == None && s7.redisHolders == {1, 2, 3};
    PlayTwo(EMPTY, 2, ttl, [Acquire(0, Up), Wait(ttl - 1), Acquire(1, Up), Release(0, true), Wait(1), Acquire(2, Up), Acquire(3, Up)]);
    PlayTwo(s2, 2, ttl, [Acquire(1, Up), Release(0, true), Wait(1), Acquire(2, Up), Acquire(3, Up)]);
    PlayTwo(s4, 2, ttl, [Wait(1), Acquire(2, Up), Acquire(3, Up)]);
    assert [Acquire(3, Up)][1..] == [];
  }

  lemma PlayTwo(s: System, limit: nat, ttl: nat, events: seq<Event>)
    requires |events| >= 2
    ensures Play(s, limit, ttl, events) == Play(Next(Next(s, limit, ttl, events[0]), limit, ttl, events[1]), limit, ttl, events[2..])
  {
    assert events[1..][1..] == events[2..];
  }
}
