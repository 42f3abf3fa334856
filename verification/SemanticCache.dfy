/**
 The in-process cache: `app/services/semantic_cache.py`, against a timed map that never evicts.

 The dictionary is kept as its entries in insertion order, which breaks ties in `sorted` by expiry.
 Times are seconds; every operation takes the clock reading it makes.
 */
module SemanticCache {
  import opened Common
  import opened StableSort

  datatype Entry = Entry(key: string, payload: string, expiresAt: int)

  predicate ExpiresSooner(a: Entry, b: Entry) {
    a.expiresAt < b.expiresAt
  }

  predicate Live(e: Entry, now: int) {
    now < e.expiresAt
  }

  function KeyOf(e: Entry): string {
    e.key
  }

  /** The first `n` entries of a stable sort by expiry. */
  function Earliest(es: seq<Entry>, n: nat): seq<Entry>
    requires n <= |es|
  {
    SortSorts(ExpiresSooner, es);
    Sort(ExpiresSooner, es)[..n]
  }

  function Remove(es: seq<Entry>, gone: seq<Entry>): seq<Entry> {
    Filter((e: Entry) => e !in gone, es)
  }

  /** Without the entries beyond `max` that expire first. */
  function Evict(live: seq<Entry>, max: nat): seq<Entry> {
    if |live| <= max then live else Remove(live, Earliest(live, |live| - max))
  }

  function AllLive(es: seq<Entry>, now: int): seq<Entry> {
    Filter((e: Entry) => Live(e, now), es)
  }

  /** `_prune_local_cache_locked` with `max(1, setting)` as `max`. */
  function Prune(es: seq<Entry>, max: nat, now: int): seq<Entry> {
    Evict(AllLive(es, now), max)
  }

  function Position(es: seq<Entry>, key: string): (i: nat)
    ensures i <= |es| && (i < |es| ==> es[i].key == key)
    ensures forall k | 0 <= k < i :: es[k].key != key
  {
    if es == [] || es[0].key == key then 0 else 1 + Position(es[1..], key)
  }

  /** Assignment into the dictionary: a known key keeps its place. */
  function Put(es: seq<Entry>, e: Entry): seq<Entry> {
    var at := Position(es, e.key);
    if at < |es| then es[at := e] else es + [e]
  }

  function Find(es: seq<Entry>, key: string): Option<string> {
    var at := Position(es, key);
    if at < |es| then Some(es[at].payload) else None
  }

  predicate HasPrefix(key: string, prefix: string) {
    prefix <= key
  }

  function Drop(es: seq<Entry>, prefix: Option<string>): seq<Entry> {
    if prefix.None? then [] else Filter(Spared(prefix.value), es)
  }

  function Matched(prefix: string): Entry -> bool {
    (e: Entry) => HasPrefix(e.key, prefix)
  }

  function Spared(prefix: string): Entry -> bool {
    (e: Entry) => !HasPrefix(e.key, prefix)
  }

  function KeyNotIn(keys: seq<string>): Entry -> bool {
    (e: Entry) => e.key !in keys
  }

  // ----------------------------------------------------------------------- the cache

  class LocalCache {
    const max: nat
    var entries: seq<Entry>

    /** Keys are unique, as in any dictionary. */
    ghost predicate Valid()
      reads this`entries
    {
      DistinctBy(KeyOf, entries)
    }

    constructor (maxSetting: int)
      ensures Valid() && max == Max(1, maxSetting) && entries == []
    {
      max, entries := Max(1, maxSetting), [];
    }

    method PruneLocked(now: int)
      modifies this`entries
      ensures entries == Prune(old(entries), max, now)
    {
      DropExpired(now);
      var overflow := |entries| - max;
      if overflow > 0 {
        SortSorts(ExpiresSooner, entries);
        var evictKeys := Sort(ExpiresSooner, entries)[..overflow];
        entries := Without(entries, evictKeys);
      }
    }

    method DropExpired(now: int)
      modifies this`entries
      ensures entries == AllLive(old(entries), now)
    {
      var i := 0;
      var live := [];
      ghost var alive := (e: Entry) => Live(e, now);
      while i < |entries|
        invariant i <= |entries|
        invariant live + Filter(alive, entries[i..]) == Filter(alive, entries)
      {
        assert entries[i..][1..] == entries[i + 1..];
        if now < entries[i].expiresAt {
          live := live + [entries[i]];
        }
        i := i + 1;
      }
      entries := live;
    }

    static method Without(es: seq<Entry>, gone: seq<Entry>) returns (kept: seq<Entry>)
      ensures kept == Remove(es, gone)
    {
      kept := [];
      var i := 0;
      ghost var keep := (e: Entry) => e !in gone;
      while i < |es|
        invariant i <= |es|
        invariant kept + Filter(keep, es[i..]) == Filter(keep, es)
      {
        assert es[i..][1..] == es[i + 1..];
        if es[i] !in gone {
          kept := kept + [es[i]];
        }
        i := i + 1;
      }
    }

    method Get(key: string, now: int) returns (payload: Option<string>)
      requires Valid()
      modifies this`entries
      ensures Valid() && entries == Prune(old(entries), max, now) && |entries| <= max
      ensures payload == Find(entries, key)
      ensures payload.Some? ==> exists e :: e in old(entries) && now < e.expiresAt && e.key == key && payload == Some(e.payload)
      ensures payload.None? ==> forall e | e in entries :: e.key != key
    {
      PruneLocked(now);
      PruneKeepsTheLatest(old(entries), max, now);
      FindIs(entries, key);
      payload := Find(entries, key);
    }

    /** The clock is read again, no earlier, for the expiry time. */
    method Set(key: string, payload: string, ttl: int, now: int, later: int)
      requires Valid()
      modifies this`entries
      ensures Valid() && entries == Put(Prune(old(entries), max, now), Entry(key, payload, later + ttl))
      ensures |entries| <= max + 1
      ensures forall x :: x in entries <==>
                x == Entry(key, payload, later + ttl) || (x in Prune(old(entries), max, now) && x.key != key)
    {
      PruneLocked(now);
      PruneKeepsTheLatest(old(entries), max, now);
      PutIs(entries, Entry(key, payload, later + ttl));
      entries := Put(entries, Entry(key, payload, later + ttl));
    }

    /** The count is that of the keys that matched. */
    method Invalidate(prefix: Option<string>) returns (count: nat)
      requires Valid()
      modifies this`entries
      ensures Valid() && entries == Drop(old(entries), prefix)
      ensures count == |old(entries)| - |entries|
      ensures forall e :: e in entries <==> e in old(entries) && prefix.Some? && !HasPrefix(e.key, prefix.value)
    {
      if prefix.None? {
        count := |entries|;
        entries := [];
        return;
      }
      var keys := MatchingKeys(prefix.value);
      DroppingKeysDrops(entries, keys, prefix.value);
      PopAll(keys);
      count := |keys|;
    }

    method MatchingKeys(prefix: string) returns (keys: seq<string>)
      ensures |keys| == |Filter(Matched(prefix), entries)|
      ensures forall e | e in entries :: e.key in keys <==> HasPrefix(e.key, prefix)
    {
      keys := [];
      var i := 0;
      while i < |entries|
        invariant i <= |entries|
        invariant |keys| + |Filter(Matched(prefix), entries[i..])| == |Filter(Matched(prefix), entries)|
        invariant forall k | k in keys :: HasPrefix(k, prefix)
        invariant forall j | 0 <= j < i && HasPrefix(entries[j].key, prefix) :: entries[j].key in keys
      {
        assert entries[i..][1..] == entries[i + 1..];
        if HasPrefix(entries[i].key, prefix) {
          keys := keys + [entries[i].key];
        }
        i := i + 1;
      }
    }

    method PopAll(keys: seq<string>)
      modifies this`entries
      ensures entries == Filter(KeyNotIn(keys), old(entries))
    {
      var i := 0;
      PopNone(keys, entries);
      while i < |keys|
        invariant i <= |keys|
        invariant entries == Filter(KeyNotIn(keys[..i]), old(entries))
      {
        PopOneMore(keys, i, old(entries));
        entries := Filter(KeyNotIn([keys[i]]), entries);
        i := i + 1;
      }
      assert keys[..i] == keys;
    }
  }

  lemma PopNone(keys: seq<string>, es: seq<Entry>)
    ensures Filter(KeyNotIn(keys[..0]), es) == es
  {
    FilterAllOrNone(KeyNotIn(keys[..0]), es);
  }

  lemma PopOneMore(keys: seq<string>, i: nat, es: seq<Entry>)
    requires i < |keys|
    ensures Filter(KeyNotIn([keys[i]]), Filter(KeyNotIn(keys[..i]), es)) == Filter(KeyNotIn(keys[..i + 1]), es)
  {
    assert keys[..i + 1] == keys[..i] + [keys[i]];
    FilterTwice(KeyNotIn([keys[i]]), KeyNotIn(keys[..i]), KeyNotIn(keys[..i + 1]), es);
  }

  lemma DroppingKeysDrops(es: seq<Entry>, keys: seq<string>, prefix: string)
    requires DistinctBy(KeyOf, es)
    requires forall e | e in es :: e.key in keys <==> HasPrefix(e.key, prefix)
    ensures Filter(KeyNotIn(keys), es) == Drop(es, Some(prefix)) && DistinctBy(KeyOf, Drop(es, Some(prefix)))
    ensures |Filter(Matched(prefix), es)| == |es| - |Drop(es, Some(prefix))|
    ensures forall e :: e in Drop(es, Some(prefix)) <==> e in es && !HasPrefix(e.key, prefix)
  {
    FiltersAgree(KeyNotIn(keys), Spared(prefix), es);
    FilterIsIn(Spared(prefix), es);
    FilterKeepsDistinct(KeyOf, Spared(prefix), es);
    FilterSplits(Matched(prefix), Spared(prefix), es);
  }

  // ---------------------------------------------------------------------- what pruning does

  lemma ExpiryIsWeakOrder()
    ensures IsWeakOrder(ExpiresSooner)
  {
  }

  /** `kept` is part of `live`, one entry per key, and nothing that was left out expires after it. */
  ghost predicate KeepsTheLatest(live: seq<Entry>, kept: seq<Entry>) {
    && DistinctBy(KeyOf, kept)
    && (forall e | e in kept :: e in live)
    && (forall e, s | e in live && e !in kept && s in kept :: e.expiresAt <= s.expiresAt)
  }

  /** Beyond `max` the cache loses what a stable sort by expiry puts first. */
  lemma EvictKeepsTheLatest(live: seq<Entry>, max: nat)
    requires DistinctBy(KeyOf, live)
    ensures KeepsTheLatest(live, Evict(live, max)) && |Evict(live, max)| == Min(|live|, max)
  {
    if |live| > max {
      EvictEarliest(live, |live| - max);
      assert Evict(live, max) == Remove(live, Earliest(live, |live| - max));
    } else {
      KeepsAll(live);
      assert Evict(live, max) == live;
    }
  }

  lemma KeepsAll(live: seq<Entry>)
    requires DistinctBy(KeyOf, live)
    ensures KeepsTheLatest(live, live)
  {
  }

  lemma EvictEarliest(live: seq<Entry>, n: nat)
    requires DistinctBy(KeyOf, live) && n <= |live|
    ensures var kept := Remove(live, Earliest(live, n)); KeepsTheLatest(live, kept) && |kept| == |live| - n
  {
    ExpiryIsWeakOrder();
    SortSorts(ExpiresSooner, live);
    var sorted := Sort(ExpiresSooner, live);
    var keep := (e: Entry) => e !in Earliest(live, n);
    var kept := Remove(live, Earliest(live, n));
    assert kept == Filter(keep, live);
    FilterIsIn(keep, live);
    FilterKeepsDistinct(KeyOf, keep, live);
    WithoutFirstSorted(ExpiresSooner, KeyOf, live, n);
    SortSorts(ExpiresSooner, kept);
    SameElements(kept, sorted[n..]);
    forall e, s | e in live && e !in kept && s in kept ensures e.expiresAt <= s.expiresAt {
      var i :| 0 <= i < n && sorted[i] == e;
      var k :| 0 <= k < |sorted[n..]| && sorted[n..][k] == s;
      assert !ExpiresSooner(sorted[n + k], sorted[i]);
    }
  }

  lemma AllLiveFacts(es: seq<Entry>, now: int)
    requires DistinctBy(KeyOf, es)
    ensures DistinctBy(KeyOf, AllLive(es, now))
    ensures forall e :: e in AllLive(es, now) <==> e in es && Live(e, now)
  {
    FilterIsIn((e: Entry) => Live(e, now), es);
    FilterKeepsDistinct(KeyOf, (e: Entry) => Live(e, now), es);
  }

  /** Size and contents after pruning; an entry is lost to capacity only to ones that expire no sooner. */
  lemma PruneKeepsTheLatest(es: seq<Entry>, max: nat, now: int)
    requires DistinctBy(KeyOf, es)
    ensures var kept := Prune(es, max, now);
            && DistinctBy(KeyOf, kept) && |kept| <= max
            && (forall e | e in kept :: e in es && Live(e, now))
            && (forall e, s | e in es && Live(e, now) && e !in kept && s in kept :: |kept| == max && e.expiresAt <= s.expiresAt)
  {
    AllLiveFacts(es, now);
    EvictKeepsTheLatest(AllLive(es, now), max);
  }

  // ------------------------------------------------------------- against a map that never evicts

  /** The ideal: the latest entry ever set per key and not invalidated since. */
  type Ideal = map<string, Entry>

  function IdealGet(m: Ideal, key: string, now: int): Option<string> {
    if key in m && Live(m[key], now) then Some(m[key].payload) else None
  }

  /** Operations in the order in which the lock lets them in; `Clean` is the cleanup thread's prune. */
  datatype Op =
    | Get(key: string, now: int)
    | Set(key: string, payload: string, ttl: int, now: int, later: int)
    | Invalidate(prefix: Option<string>)
    | Clean(now: int)

  function Next(es: seq<Entry>, max: nat, op: Op): seq<Entry> {
    match op
    case Get(_, now) => Prune(es, max, now)
    case Set(key, payload, ttl, now, later) => Put(Prune(es, max, now), Entry(key, payload, later + ttl))
    case Invalidate(prefix) => Drop(es, prefix)
    case Clean(now) => Prune(es, max, now)
  }

  function NextIdeal(m: Ideal, op: Op): Ideal {
    match op
    case Set(key, payload, ttl, _, later) => m[key := Entry(key, payload, later + ttl)]
    case Invalidate(prefix) =>
      if prefix.None? then map[] else map k | k in m && !HasPrefix(k, prefix.value) :: m[k]
    case _ => m
  }

  /** The cache's and the ideal's answers to the gets of a history. */
  function Answers(es: seq<Entry>, m: Ideal, max: nat, ops: seq<Op>): seq<(Option<string>, Option<string>)>
    decreases |ops|
  {
    if ops == [] then []
    else
      (if ops[0].Get? then [(Find(Next(es, max, ops[0]), ops[0].key), IdealGet(m, ops[0].key, ops[0].now))] else [])
      + Answers(Next(es, max, ops[0]), NextIdeal(m, ops[0]), max, ops[1..])
  }

  /** Only gets are answered, each with what the cache has after its prune. */
  lemma AnswersStep(es: seq<Entry>, m: Ideal, max: nat, op: Op, rest: seq<Op>)
    ensures var later := Answers(Next(es, max, op), NextIdeal(m, op), max, rest);
            Answers(es, m, max, [op] + rest) ==
            (if op.Get? then [(Find(Prune(es, max, op.now), op.key), IdealGet(m, op.key, op.now))] + later else later)
  {
    assert ([op] + rest)[1..] == rest;
  }

  function Play(es: seq<Entry>, max: nat, ops: seq<Op>): seq<Entry>
    decreases |ops|
  {
    if ops == [] then es else Play(Next(es, max, ops[0]), max, ops[1..])
  }

  /** Every entry of the cache is the ideal's entry for its key. */
  ghost predicate Within(es: seq<Entry>, m: Ideal) {
    && DistinctBy(KeyOf, es)
    && (forall e | e in es :: e.key in m && m[e.key] == e)
    && (forall k | k in m :: m[k].key == k)
  }

  lemma PutIs(es: seq<Entry>, e: Entry)
    requires DistinctBy(KeyOf, es)
    ensures DistinctBy(KeyOf, Put(es, e))
    ensures forall x :: x in Put(es, e) <==> x == e || (x in es && x.key != e.key)
    ensures |Put(es, e)| <= |es| + 1
  {
    var at := Position(es, e.key);
    var put := Put(es, e);
    assert forall i | 0 <= i < |es| && i != at :: es[i].key != e.key && put[i] == es[i] by {
      forall i | 0 <= i < |es| && i != at ensures es[i].key != e.key {
        assert at < |es| ==> KeyOf(es[i]) != KeyOf(es[at]);
      }
    }
    assert put[at] == e;
    forall x | x in es && x.key != e.key ensures x in put {
      var i :| 0 <= i < |es| && es[i] == x;
      assert put[i] == x;
    }
  }

  lemma PruneStaysWithin(es: seq<Entry>, m: Ideal, max: nat, now: int)
    requires Within(es, m)
    ensures Within(Prune(es, max, now), m) && |Prune(es, max, now)| <= max
  {
    PruneKeepsTheLatest(es, max, now);
  }

  lemma PutStaysWithin(es: seq<Entry>, m: Ideal, e: Entry)
    requires Within(es, m)
    ensures Within(Put(es, e), m[e.key := e]) && |Put(es, e)| <= |es| + 1
  {
    PutIs(es, e);
  }

  lemma DropStaysWithin(es: seq<Entry>, m: Ideal, prefix: Option<string>)
    requires Within(es, m)
    ensures Within(Drop(es, prefix), NextIdeal(m, Invalidate(prefix))) && |Drop(es, prefix)| <= |es|
  {
    if prefix.Some? {
      FilterIsIn(Spared(prefix.value), es);
      FilterKeepsDistinct(KeyOf, Spared(prefix.value), es);
    }
  }

  lemma NextStaysWithin(es: seq<Entry>, m: Ideal, max: nat, op: Op)
    requires Within(es, m)
    ensures Within(Next(es, max, op), NextIdeal(m, op))
    ensures |Next(es, max, op)| <= if op.Set? then max + 1 else if op.Invalidate? then |es| else max
  {
    match op
    case Get(_, now) => PruneStaysWithin(es, m, max, now);
    case Clean(now) => PruneStaysWithin(es, m, max, now);
    case Set(key, payload, ttl, now, later) =>
      var pruned, e := Prune(es, max, now), Entry(key, payload, later + ttl);
      PruneStaysWithin(es, m, max, now);
      PutStaysWithin(pruned, m, e);
      assert Next(es, max, op) == Put(pruned, e) && NextIdeal(m, op) == m[e.key := e];
    case Invalidate(prefix) => DropStaysWithin(es, m, prefix);
  }

  /** Looking a key up after pruning finds a live entry of that key or nothing. */
  lemma FindIs(es: seq<Entry>, key: string)
    ensures Find(es, key).Some? ==> exists e :: e in es && e.key == key && Find(es, key) == Some(e.payload)
    ensures Find(es, key).None? ==> forall e | e in es :: e.key != key
  {
    var at := Position(es, key);
    if at < |es| {
      assert es[at] in es;
    }
  }

  /** A hit is always the latest unexpired, uninvalidated payload, and the cache stays small. */
  lemma {:induction false} HitsAreIdeal(es: seq<Entry>, m: Ideal, max: nat, ops: seq<Op>)
    requires Within(es, m) && |es| <= max + 1
    ensures forall a | a in Answers(es, m, max, ops) :: a.0.None? || a.0 == a.1
    ensures |Play(es, max, ops)| <= max + 1
    decreases |ops|
  {
    if ops != [] {
      var op := ops[0];
      NextStaysWithin(es, m, max, op);
      if op.Get? {
        PruneKeepsTheLatest(es, max, op.now);
        FindIs(Prune(es, max, op.now), op.key);
      }
      HitsAreIdeal(Next(es, max, op), NextIdeal(m, op), max, ops[1..]);
    }
  }

  // ----------------------------------------------------------- the same in terms of the history

  /** Operation `j` set the key, has not expired at `now`, and nothing behind it set or invalidated the key. */
  predicate IsLatestSet(ops: seq<Op>, j: nat, key: string, now: int) {
    && j < |ops| && ops[j].Set? && ops[j].key == key && now < ops[j].later + ops[j].ttl
    && forall k | j < k < |ops| :: LeavesAlone(ops[k], key)
  }

  predicate LeavesAlone(op: Op, key: string) {
    && !(op.Set? && op.key == key)
    && !(op.Invalidate? && (op.prefix.None? || (|op.prefix.value| <= |key| && key[..|op.prefix.value|] == op.prefix.value)))
  }

  function PlayIdeal(ops: seq<Op>): Ideal {
    if ops == [] then map[] else NextIdeal(PlayIdeal(ops[..|ops| - 1]), ops[|ops| - 1])
  }

  lemma NextIdealKeeps(m: Ideal, op: Op, key: string)
    ensures LeavesAlone(op, key) ==> (key in NextIdeal(m, op) <==> key in m) && (key in m ==> NextIdeal(m, op)[key] == m[key])
    ensures !LeavesAlone(op, key) && !op.Set? ==> key !in NextIdeal(m, op)
  {
    if op.Invalidate? && op.prefix.Some? {
      assert HasPrefix(key, op.prefix.value) <==>
             |op.prefix.value| <= |key| && key[..|op.prefix.value|] == op.prefix.value;
    }
  }

  /** The ideal map answers with the latest set that counts, and with nothing if there is none. */
  lemma {:induction false} IdealIsTheLatestSet(ops: seq<Op>, key: string, now: int)
    ensures IdealGet(PlayIdeal(ops), key, now).Some? ==>
              exists j: nat :: IsLatestSet(ops, j, key, now) && IdealGet(PlayIdeal(ops), key, now) == Some(ops[j].payload)
    ensures (exists j: nat :: IsLatestSet(ops, j, key, now)) ==> IdealGet(PlayIdeal(ops), key, now).Some?
    decreases |ops|
  {
    if ops != [] {
      var n := |ops| - 1;
      var front, op := ops[..n], ops[n];
      IdealIsTheLatestSet(front, key, now);
      NextIdealKeeps(PlayIdeal(front), op, key);
      if op.Set? && op.key == key {
        assert now < op.later + op.ttl ==> IsLatestSet(ops, n, key, now);
      } else if LeavesAlone(op, key) {
        forall j: nat | j < n ensures IsLatestSet(ops, j, key, now) <==> IsLatestSet(front, j, key, now) {
          LatestSetOneMore(front, op, j, key, now);
          assert ops == front + [op];
        }
      }
    }
  }

  lemma LatestSetOneMore(front: seq<Op>, op: Op, j: nat, key: string, now: int)
    requires LeavesAlone(op, key) && j < |front|
    ensures IsLatestSet(front + [op], j, key, now) <==> IsLatestSet(front, j, key, now)
  {
    var ops := front + [op];
    assert forall k | 0 <= k < |front| :: ops[k] == front[k];
    if IsLatestSet(ops, j, key, now) {
      forall k | j < k < |front| ensures LeavesAlone(front[k], key) {
        assert LeavesAlone(ops[k], key);
      }
    }
  }

  lemma {:induction false} HistoriesStayWithin(es: seq<Entry>, max: nat, done: seq<Op>, ops: seq<Op>)
    requires Within(es, PlayIdeal(done))
    ensures Within(Play(es, max, ops), PlayIdeal(done + ops))
    decreases |ops|
  {
    if ops == [] {
      assert done + ops == done;
    } else {
      assert (done + [ops[0]])[..|done|] == done;
      NextStaysWithin(es, PlayIdeal(done), max, ops[0]);
      HistoriesStayWithin(Next(es, max, ops[0]), max, done + [ops[0]], ops[1..]);
      assert done + [ops[0]] + ops[1..] == done + ops;
    }
  }

  /** After any history a hit is the payload of the latest set of the key that neither expired nor was invalidated. */
  lemma HitIsTheLatestSet(max: nat, ops: seq<Op>, key: string, now: int)
    ensures var hit := Find(Prune(Play([], max, ops), max, now), key);
            hit.Some? ==> exists j: nat :: IsLatestSet(ops, j, key, now) && hit == Some(ops[j].payload)
  {
    var es := Play([], max, ops);
    HistoriesStayWithin([], max, [], ops);
    assert [] + ops == ops;
    PruneKeepsTheLatest(es, max, now);
    FindIs(Prune(es, max, now), key);
    IdealIsTheLatestSet(ops, key, now);
  }

  // --------------------------------------------------------------- with room for every live key

  function LiveKeys(m: Ideal, now: int): set<string> {
    set k | k in m && Live(m[k], now)
  }

  /** The latest reading of the clock. */
  function ClockAfter(start: int, op: Op): int {
    if op.Set? then op.later else if op.Invalidate? then start else op.now
  }

  /** The clock does not run backwards, and at every reading at most `max` keys are live. */
  ghost predicate Roomy(m: Ideal, max: nat, start: int, ops: seq<Op>)
    decreases |ops|
  {
    ops == [] || (RoomyOp(m, max, start, ops[0]) && Roomy(NextIdeal(m, ops[0]), max, ClockAfter(start, ops[0]), ops[1..]))
  }

  ghost predicate RoomyOp(m: Ideal, max: nat, start: int, op: Op) {
    var at := if op.Invalidate? then start else op.now;
    start <= at && (op.Set? ==> at <= op.later) && |LiveKeys(m, at)| <= max
  }

  /** Nothing that is live at `now` or later is missing from the cache. */
  ghost predicate Holds(es: seq<Entry>, m: Ideal, now: int) {
    forall k | k in m && Live(m[k], now) :: m[k] in es
  }

  lemma KeysOfDistinct(es: seq<Entry>)
    requires DistinctBy(KeyOf, es)
    ensures |(set e | e in es :: e.key)| == |es|
    decreases |es|
  {
    if es != [] {
      KeysOfDistinct(es[1..]);
      var keys, rest := set e | e in es :: e.key, set e | e in es[1..] :: e.key;
      assert keys == rest + {es[0].key};
      assert es[0].key !in rest by {
        forall e | e in es[1..] ensures e.key != es[0].key {
          var k :| 0 <= k < |es[1..]| && es[1..][k] == e;
          assert KeyOf(es[0]) != KeyOf(es[k + 1]);
        }
      }
    }
  }

  lemma PruneWithRoom(es: seq<Entry>, m: Ideal, max: nat, now: int)
    requires Within(es, m) && |LiveKeys(m, now)| <= max
    ensures Prune(es, max, now) == AllLive(es, now)
  {
    AllLiveFacts(es, now);
    KeysOfDistinct(AllLive(es, now));
    var keys := set e | e in AllLive(es, now) :: e.key;
    assert keys <= LiveKeys(m, now);
    SubsetIsSmaller(keys, LiveKeys(m, now));
  }

  lemma SubsetIsSmaller(a: set<string>, b: set<string>)
    requires a <= b
    ensures |a| <= |b|
  {
    assert b == a + (b - a);
  }

  lemma NextHolds(es: seq<Entry>, m: Ideal, max: nat, start: int, op: Op)
    requires Within(es, m) && Holds(es, m, start) && RoomyOp(m, max, start, op)
    ensures Holds(Next(es, max, op), NextIdeal(m, op), ClockAfter(start, op))
    ensures op.Get? ==> Find(Next(es, max, op), op.key) == IdealGet(m, op.key, op.now)
  {
    if op.Invalidate? {
      if op.prefix.Some? {
        FilterIsIn(Spared(op.prefix.value), es);
      }
    } else {
      PruneWithRoom(es, m, max, op.now);
      AllLiveFacts(es, op.now);
      if op.Set? {
        PutIs(Prune(es, max, op.now), Entry(op.key, op.payload, op.later + op.ttl));
      }
      if op.Get? {
        FindIs(AllLive(es, op.now), op.key);
      }
    }
  }

  /** With at most `max` live keys throughout, cache and ideal give the same answers. */
  lemma {:induction false} RoomyCacheIsIdeal(es: seq<Entry>, m: Ideal, max: nat, start: int, ops: seq<Op>)
    requires Within(es, m) && Holds(es, m, start) && Roomy(m, max, start, ops)
    ensures forall a | a in Answers(es, m, max, ops) :: a.0 == a.1
    decreases |ops|
  {
    if ops != [] {
      var op := ops[0];
      NextHolds(es, m, max, start, op);
      NextStaysWithin(es, m, max, op);
      RoomyCacheIsIdeal(Next(es, max, op), NextIdeal(m, op), max, ClockAfter(start, op), ops[1..]);
    }
  }

  ghost predicate InStep(es: seq<Entry>, done: seq<Op>, now: int) {
    Within(es, PlayIdeal(done)) && Holds(es, PlayIdeal(done), now)
  }

  lemma NextInStep(es: seq<Entry>, max: nat, start: int, done: seq<Op>, op: Op)
    requires InStep(es, done, start) && RoomyOp(PlayIdeal(done), max, start, op)
    ensures InStep(Next(es, max, op), done + [op], ClockAfter(start, op))
    ensures PlayIdeal(done + [op]) == NextIdeal(PlayIdeal(done), op)
  {
    assert (done + [op])[..|done|] == done;
    NextHolds(es, PlayIdeal(done), max, start, op);
    NextStaysWithin(es, PlayIdeal(done), max, op);
  }

  function ClockAtEnd(start: int, ops: seq<Op>): int
    decreases |ops|
  {
    if ops == [] then start else ClockAtEnd(ClockAfter(start, ops[0]), ops[1..])
  }

  lemma {:induction false} HistoriesInStep(es: seq<Entry>, max: nat, start: int, done: seq<Op>, ops: seq<Op>)
    requires InStep(es, done, start) && Roomy(PlayIdeal(done), max, start, ops)
    ensures InStep(Play(es, max, ops), done + ops, ClockAtEnd(start, ops))
    decreases |ops|
  {
    if ops == [] {
      assert done + ops == done;
    } else {
      NextInStep(es, max, start, done, ops[0]);
      HistoriesInStep(Next(es, max, ops[0]), max, ClockAfter(start, ops[0]), done + [ops[0]], ops[1..]);
      assert done + [ops[0]] + ops[1..] == done + ops;
    }
  }

  /** With room for every live key a get hits exactly when such a set exists. */
  lemma RoomyHitIff(max: nat, start: int, ops: seq<Op>, key: string, now: int)
    requires Roomy(map[], max, start, ops) && ClockAtEnd(start, ops) <= now && |LiveKeys(PlayIdeal(ops), now)| <= max
    ensures Find(Prune(Play([], max, ops), max, now), key).Some? <==> exists j: nat :: IsLatestSet(ops, j, key, now)
  {
    var es := Play([], max, ops);
    HistoriesInStep([], max, start, [], ops);
    assert [] + ops == ops;
    RoomyGetIsIdeal(es, PlayIdeal(ops), max, ClockAtEnd(start, ops), key, now);
    IdealIsTheLatestSet(ops, key, now);
  }

  lemma RoomyGetIsIdeal(es: seq<Entry>, m: Ideal, max: nat, start: int, key: string, now: int)
    requires Within(es, m) && Holds(es, m, start) && start <= now && |LiveKeys(m, now)| <= max
    ensures Find(Prune(es, max, now), key) == IdealGet(m, key, now)
  {
    NextHolds(es, m, max, start, Op.Get(key, now));
  }
}
