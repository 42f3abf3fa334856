/**
 The in-process rate limiter: `app/services/api_rate_limiter.py`.

 It keeps one (bucket, count) pair per identifier and forgets old ones.  Its history of admissions is
 kept beside it here, so that its decisions can be compared with counting without ever forgetting.
 */
module ApiRateLimiter {
  import opened Common

  type Windows = map<string, (int, nat)>

  datatype Verdict = Verdict(allowed: bool, retryAfter: int)

  function Bucket(now: int, window: int): int
    requires window > 0
  {
    now / window
  }

  /** The count the limiter works with for an identifier in a bucket. */
  function Current(w: Windows, id: string, bucket: int): nat {
    if id in w && w[id].0 == bucket then w[id].1 else 0
  }

  function Purge(w: Windows, bucket: int): Windows {
    map k | k in w && w[k].0 >= bucket - 1 :: w[k]
  }

  /** `_local_allow_request` at second `now`. */
  function Decide(w: Windows, id: string, limit: nat, window: int, now: int): (Windows, Verdict)
    requires window > 0
  {
    var bucket := Bucket(now, window);
    var kept := if id in w && w[id].0 != bucket then Purge(w, bucket) else w;
    if Current(w, id, bucket) >= limit
    then (kept, Verdict(false, Max(1, (bucket + 1) * window - now)))
    else (kept[id := (bucket, Current(w, id, bucket) + 1)], Verdict(true, 0))
  }

  class LocalRateLimiter {
    var windows: Windows

    constructor ()
      ensures windows == map[]
    {
      windows := map[];
    }

    method AllowRequest(id: string, limit: nat, window: int, now: int) returns (v: Verdict)
      requires window > 0
      modifies this
      ensures (windows, v) == Decide(old(windows), id, limit, window, now)
      ensures v.retryAfter == 0 <==> v.allowed
    {
      var bucket := now / window;
      var currentBucket, currentCount := bucket, 0;
      if id in windows {
        currentBucket, currentCount := windows[id].0, windows[id].1;
      }
      if currentBucket != bucket {
        currentBucket, currentCount := bucket, 0;
        var stale := set k | k in windows && windows[k].0 < bucket - 1;
        windows := windows - stale;
        assert windows == Purge(old(windows), bucket);
      }
      if currentCount >= limit {
        var retryAfter := (bucket + 1) * window - now;
        return Verdict(false, Max(1, retryAfter));
      }
      windows := windows[id := (currentBucket, currentCount + 1)];
      return Verdict(true, 0);
    }
  }

  /** A request whose identifier was last counted in another bucket forgets every bucket older than the one before its own. */
  lemma OldBucketsAreForgotten(w: Windows, id: string, limit: nat, window: int, now: int)
    requires window > 0 && id in w && w[id].0 != now / window
    ensures forall k | k in Decide(w, id, limit, window, now).0 :: Decide(w, id, limit, window, now).0[k].0 >= now / window - 1
    ensures forall k | k in w && k != id && w[k].0 >= now / window - 1 ::
              k in Decide(w, id, limit, window, now).0 && Decide(w, id, limit, window, now).0[k] == w[k]
  {
  }

  /** Any other request forgets nothing. */
  lemma SameBucketForgetsNothing(w: Windows, id: string, limit: nat, window: int, now: int)
    requires window > 0 && (id !in w || w[id].0 == now / window)
    ensures forall k | k in w && k != id ::
              k in Decide(w, id, limit, window, now).0 && Decide(w, id, limit, window, now).0[k] == w[k]
  {
  }

  // ------------------------------------------------------- request sequences and their history

  datatype Request = Request(id: string, limit: nat, at: int)

  datatype Admission = Admission(id: string, at: int)

  datatype State = State(windows: Windows, log: seq<Admission>)

  function Next(s: State, window: int, r: Request): State
    requires window > 0
  {
    var (w, v) := Decide(s.windows, r.id, r.limit, window, r.at);
    State(w, if v.allowed then s.log + [Admission(r.id, r.at)] else s.log)
  }

  function Play(s: State, window: int, requests: seq<Request>): State
    requires window > 0
    decreases |requests|
  {
    if requests == [] then s else Play(Next(s, window, requests[0]), window, requests[1..])
  }

  lemma PlayStep(s: State, window: int, r: Request, rest: seq<Request>)
    requires window > 0
    ensures Play(s, window, [r] + rest) == Play(Next(s, window, r), window, rest)
  {
    assert ([r] + rest)[1..] == rest;
  }

  /** Admissions of `id` in a bucket, counted from the whole history. */
  function BucketCount(log: seq<Admission>, id: string, window: int, bucket: int): nat
    requires window > 0
  {
    if log == [] then 0
    else
      var a := log[|log| - 1];
      BucketCount(log[..|log| - 1], id, window, bucket) + (if a.id == id && Bucket(a.at, window) == bucket then 1 else 0)
  }

  /** Admissions of `id` at seconds `from`, ..., `from + length - 1`. */
  function IntervalCount(log: seq<Admission>, id: string, from: int, length: int): nat {
    if log == [] then 0
    else
      var a := log[|log| - 1];
      IntervalCount(log[..|log| - 1], id, from, length) + (if a.id == id && from <= a.at < from + length then 1 else 0)
  }

  /** The clock does not run backwards, from second `start` on. */
  ghost predicate InTimeOrder(start: int, requests: seq<Request>)
    decreases |requests|
  {
    requests == [] || (start <= requests[0].at && InTimeOrder(requests[0].at, requests[1..]))
  }

  /** Nothing in the table or the history lies ahead of `bucket`, and the table has `bucket` right. */
  ghost predicate UpToDate(s: State, window: int, bucket: int)
    requires window > 0
  {
    && (forall id | id in s.windows :: s.windows[id].0 <= bucket)
    && (forall a | a in s.log :: Bucket(a.at, window) <= bucket)
    && (forall id :: Current(s.windows, id, bucket) == BucketCount(s.log, id, window, bucket))
  }

  lemma {:induction false} NothingAhead(log: seq<Admission>, id: string, window: int, bucket: int)
    requires window > 0 && forall a | a in log :: Bucket(a.at, window) < bucket
    ensures BucketCount(log, id, window, bucket) == 0
    decreases |log|
  {
    if log != [] {
      assert log[|log| - 1] in log;
      NothingAhead(log[..|log| - 1], id, window, bucket);
    }
  }

  lemma MulStep(a: int, b: int, window: int)
    requires window > 0 && a < b
    ensures a * window + window <= b * window
  {
    var d := b - a - 1;
    assert d * window >= 0;
    assert b * window == (a + 1 + d) * window == a * window + window + d * window;
  }

  lemma BucketBounds(t: int, window: int)
    requires window > 0
    ensures Bucket(t, window) * window <= t < Bucket(t, window) * window + window
  {
  }

  lemma BucketIs(t: int, window: int, q: int)
    requires window > 0 && q * window <= t < q * window + window
    ensures Bucket(t, window) == q
  {
    var b := Bucket(t, window);
    BucketBounds(t, window);
    if b < q {
      MulStep(b, q, window);
    } else if q < b {
      MulStep(q, b, window);
    }
  }

  lemma BucketsMoveForward(a: int, b: int, window: int)
    requires window > 0 && a <= b
    ensures Bucket(a, window) <= Bucket(b, window)
  {
    BucketBounds(a, window);
    BucketBounds(b, window);
    if Bucket(b, window) < Bucket(a, window) {
      MulStep(Bucket(b, window), Bucket(a, window), window);
    }
  }

  lemma LaterBucketIsUpToDate(s: State, window: int, bucket: int, later: int)
    requires window > 0 && UpToDate(s, window, bucket) && bucket <= later
    ensures UpToDate(s, window, later)
  {
    if bucket < later {
      forall id ensures Current(s.windows, id, later) == BucketCount(s.log, id, window, later) {
        NothingAhead(s.log, id, window, later);
      }
    }
  }

  lemma CountAppend(log: seq<Admission>, a: Admission, id: string, window: int, bucket: int)
    requires window > 0
    ensures BucketCount(log + [a], id, window, bucket)
         == BucketCount(log, id, window, bucket) + if a.id == id && Bucket(a.at, window) == bucket then 1 else 0
  {
    assert (log + [a])[..|log|] == log;
  }

  /** What a decision does to the table: one more for its identifier if allowed, no other change in this bucket. */
  lemma DecideCurrent(w: Windows, id: string, limit: nat, window: int, now: int)
    requires window > 0 && forall k | k in w :: w[k].0 <= Bucket(now, window)
    ensures var (w', v) := Decide(w, id, limit, window, now);
            && (forall k | k in w' :: w'[k].0 <= Bucket(now, window))
            && (forall k :: Current(w', k, Bucket(now, window))
                         == Current(w, k, Bucket(now, window)) + if k == id && v.allowed then 1 else 0)
  {
  }

  /** The decision is that of the unbounded counter, and the table stays right. */
  lemma NextIsIdeal(s: State, window: int, r: Request)
    requires window > 0 && UpToDate(s, window, Bucket(r.at, window))
    ensures Decide(s.windows, r.id, r.limit, window, r.at).1.allowed
       <==> BucketCount(s.log, r.id, window, Bucket(r.at, window)) < r.limit
    ensures UpToDate(Next(s, window, r), window, Bucket(r.at, window))
  {
    var bucket := Bucket(r.at, window);
    var s' := Next(s, window, r);
    DecideCurrent(s.windows, r.id, r.limit, window, r.at);
    forall id ensures Current(s'.windows, id, bucket) == BucketCount(s'.log, id, window, bucket) {
      assert Current(s.windows, id, bucket) == BucketCount(s.log, id, window, bucket);
      CountAppend(s.log, Admission(r.id, r.at), id, window, bucket);
    }
  }

  /** The verdicts a request sequence gets from the limiter, and from counting all admissions. */
  function Verdicts(s: State, window: int, requests: seq<Request>): seq<bool>
    requires window > 0
    decreases |requests|
  {
    if requests == [] then []
    else
      [Decide(s.windows, requests[0].id, requests[0].limit, window, requests[0].at).1.allowed]
      + Verdicts(Next(s, window, requests[0]), window, requests[1..])
  }

  function IdealVerdicts(log: seq<Admission>, window: int, requests: seq<Request>): seq<bool>
    requires window > 0
    decreases |requests|
  {
    if requests == [] then []
    else
      var r := requests[0];
      var allowed := BucketCount(log, r.id, window, Bucket(r.at, window)) < r.limit;
      [allowed] + IdealVerdicts(if allowed then log + [Admission(r.id, r.at)] else log, window, requests[1..])
  }

  /** Forgetting changes no decision, for every request sequence whose clock does not run backwards. */
  lemma {:induction false} ForgettingIsInvisible(s: State, window: int, start: int, requests: seq<Request>)
    requires window > 0 && UpToDate(s, window, Bucket(start, window)) && InTimeOrder(start, requests)
    ensures Verdicts(s, window, requests) == IdealVerdicts(s.log, window, requests)
    decreases |requests|
  {
    if requests != [] {
      var r := requests[0];
      BucketsMoveForward(start, r.at, window);
      LaterBucketIsUpToDate(s, window, Bucket(start, window), Bucket(r.at, window));
      NextIsIdeal(s, window, r);
      ForgettingIsInvisible(Next(s, window, r), window, r.at, requests[1..]);
    }
  }

  lemma {:induction false} HistoriesStayUpToDate(s: State, window: int, start: int, requests: seq<Request>, end: int)
    requires window > 0 && UpToDate(s, window, Bucket(start, window)) && InTimeOrder(start, requests)
    requires start <= end && forall r | r in requests :: r.at <= end
    ensures UpToDate(Play(s, window, requests), window, Bucket(end, window))
    decreases |requests|
  {
    BucketsMoveForward(start, end, window);
    if requests == [] {
      LaterBucketIsUpToDate(s, window, Bucket(start, window), Bucket(end, window));
    } else {
      var r := requests[0];
      assert r in requests;
      BucketsMoveForward(start, r.at, window);
      LaterBucketIsUpToDate(s, window, Bucket(start, window), Bucket(r.at, window));
      NextIsIdeal(s, window, r);
      HistoriesStayUpToDate(Next(s, window, r), window, r.at, requests[1..], end);
    }
  }

  // ------------------------------------------- requests that enter the lock out of order

  /** The table has this bucket of the identifier, or nothing was admitted in it. */
  predicate Remembered(s: State, window: int, id: string, bucket: int)
    requires window > 0
  {
    (id in s.windows && s.windows[id].0 == bucket) || BucketCount(s.log, id, window, bucket) == 0
  }

  ghost predicate EntriesExact(s: State, window: int)
    requires window > 0
  {
    forall id | id in s.windows :: s.windows[id].1 == BucketCount(s.log, id, window, s.windows[id].0)
  }

  /** Whatever the limit, the decision is that of counting the whole history. */
  ghost predicate DecidesIdeally(s: State, window: int, id: string, at: int)
    requires window > 0
  {
    forall limit: nat ::
      Decide(s.windows, id, limit, window, at).1.allowed <==> BucketCount(s.log, id, window, Bucket(at, window)) < limit
  }

  lemma DecidesIdeallyIffRemembered(s: State, window: int, id: string, at: int)
    requires window > 0 && EntriesExact(s, window)
    ensures DecidesIdeally(s, window, id, at) <==> Remembered(s, window, id, Bucket(at, window))
  {
    var bucket := Bucket(at, window);
    if Remembered(s, window, id, bucket) {
      forall limit: nat
        ensures Decide(s.windows, id, limit, window, at).1.allowed <==> BucketCount(s.log, id, window, bucket) < limit
      {
        assert Current(s.windows, id, bucket) == BucketCount(s.log, id, window, bucket);
      }
    } else {
      assert Decide(s.windows, id, 1, window, at).1.allowed;
    }
  }

  /** A remembered bucket is counted right, and so the table's entries stay exact. */
  lemma NextKeepsEntriesExact(s: State, window: int, r: Request)
    requires window > 0 && EntriesExact(s, window) && Remembered(s, window, r.id, Bucket(r.at, window))
    ensures EntriesExact(Next(s, window, r), window)
  {
    var s', bucket := Next(s, window, r), Bucket(r.at, window);
    forall id | id in s'.windows ensures s'.windows[id].1 == BucketCount(s'.log, id, window, s'.windows[id].0) {
      CountAppend(s.log, Admission(r.id, r.at), id, window, s'.windows[id].0);
    }
  }

  ghost predicate RememberedThroughout(s: State, window: int, requests: seq<Request>)
    requires window > 0
    decreases |requests|
  {
    requests == [] ||
    (Remembered(s, window, requests[0].id, Bucket(requests[0].at, window))
     && RememberedThroughout(Next(s, window, requests[0]), window, requests[1..]))
  }

  ghost predicate IdealThroughout(s: State, window: int, requests: seq<Request>)
    requires window > 0
    decreases |requests|
  {
    requests == [] ||
    (DecidesIdeally(s, window, requests[0].id, requests[0].at)
     && IdealThroughout(Next(s, window, requests[0]), window, requests[1..]))
  }

  /** In whatever order requests enter the lock: every decision is ideal exactly when every request is remembered. */
  lemma {:induction false} IdealIffRemembered(s: State, window: int, requests: seq<Request>)
    requires window > 0 && EntriesExact(s, window)
    ensures IdealThroughout(s, window, requests) <==> RememberedThroughout(s, window, requests)
    ensures RememberedThroughout(s, window, requests) ==> Verdicts(s, window, requests) == IdealVerdicts(s.log, window, requests)
    decreases |requests|
  {
    if requests != [] {
      var r := requests[0];
      DecidesIdeallyIffRemembered(s, window, r.id, r.at);
      if Remembered(s, window, r.id, Bucket(r.at, window)) {
        NextKeepsEntriesExact(s, window, r);
        IdealIffRemembered(Next(s, window, r), window, requests[1..]);
      }
    }
  }

  /** Each identifier's buckets do not go backwards, and no request is late by more than one bucket. */
  ghost predicate NearlyInOrder(window: int, requests: seq<Request>)
    requires window > 0
  {
    forall i, k | 0 <= i < k < |requests| :: MayPrecede(window, requests[i], requests[k])
  }

  predicate MayPrecede(window: int, early: Request, late: Request)
    requires window > 0
  {
    && Bucket(early.at, window) <= Bucket(late.at, window) + 1
    && (early.id == late.id ==> Bucket(early.at, window) <= Bucket(late.at, window))
  }

  /** From the request's bucket on, the table knows all that was admitted for its identifier. */
  ghost predicate Ready(s: State, window: int, r: Request)
    requires window > 0
  {
    && (r.id in s.windows ==> s.windows[r.id].0 <= Bucket(r.at, window))
    && (forall b | b >= Bucket(r.at, window) :: Remembered(s, window, r.id, b))
  }

  lemma NextStaysReady(s: State, window: int, now: Request, later: Request)
    requires window > 0 && Ready(s, window, now) && Ready(s, window, later) && MayPrecede(window, now, later)
    ensures Ready(Next(s, window, now), window, later)
  {
    var s' := Next(s, window, now);
    forall b | b >= Bucket(later.at, window) ensures Remembered(s', window, later.id, b) {
      assert Remembered(s, window, later.id, b);
      CountAppend(s.log, Admission(now.id, now.at), later.id, window, b);
    }
  }

  lemma {:induction false} ReadyRequestsAreRemembered(s: State, window: int, requests: seq<Request>)
    requires window > 0 && NearlyInOrder(window, requests)
    requires forall i | 0 <= i < |requests| :: Ready(s, window, requests[i])
    ensures RememberedThroughout(s, window, requests)
    decreases |requests|
  {
    if requests != [] {
      var s', rest := Next(s, window, requests[0]), requests[1..];
      forall i | 0 <= i < |rest| ensures Ready(s', window, rest[i]) {
        assert MayPrecede(window, requests[0], requests[i + 1]);
        NextStaysReady(s, window, requests[0], requests[i + 1]);
      }
      forall i, k | 0 <= i < k < |rest| ensures MayPrecede(window, rest[i], rest[k]) {
        assert MayPrecede(window, requests[i + 1], requests[k + 1]);
      }
      ReadyRequestsAreRemembered(s', window, rest);
    }
  }

  /** Forgetting is invisible even if requests of different identifiers are late by a bucket: it keeps the last two. */
  lemma OneBucketLateIsInvisible(window: int, requests: seq<Request>)
    requires window > 0 && NearlyInOrder(window, requests)
    ensures Verdicts(State(map[], []), window, requests) == IdealVerdicts([], window, requests)
  {
    ReadyRequestsAreRemembered(State(map[], []), window, requests);
    IdealIffRemembered(State(map[], []), window, requests);
  }

  /** Two requests of one identifier around one with an older reading, all with room for a single admission a bucket. */
  function OvertakenBy(id: string, newer: int, older: int): seq<Request> {
    [Request(id, 1, newer)] + ([Request(id, 1, older)] + ([Request(id, 1, newer)] + []))
  }

  /**
   The clock is read before the lock is taken, so one identifier's requests can enter with an older
   reading behind a newer one: the older bucket replaces the newer, whose count starts again.
   */
  lemma OlderReadingResetsTheCount(window: int, id: string, newer: int, older: int)
    requires window > 0 && Bucket(older, window) < Bucket(newer, window)
    ensures Verdicts(State(map[], []), window, OvertakenBy(id, newer, older)) == [true, true, true]
    ensures IdealVerdicts([], window, OvertakenBy(id, newer, older)) == [true, true, false]
  {
    OlderReadingVerdicts(window, id, newer, older);
    OlderReadingIdeals(window, id, newer, older);
  }

  lemma OlderReadingVerdicts(window: int, id: string, newer: int, older: int)
    requires window > 0 && Bucket(older, window) < Bucket(newer, window)
    ensures Verdicts(State(map[], []), window, OvertakenBy(id, newer, older)) == [true, true, true]
  {
    var r, o := Request(id, 1, newer), Request(id, 1, older);
    var s0 := State(map[], []);
    var s1 := Next(s0, window, r);
    var s2 := Next(s1, window, o);
    assert s1.windows[id] == (Bucket(newer, window), 1);
    assert s2.windows[id] == (Bucket(older, window), 1);
    VerdictsStep(s0, [], window, r, [o] + ([r] + []));
    VerdictsStep(s1, [], window, o, [r] + []);
    VerdictsStep(s2, [], window, r, []);
  }

  lemma OlderReadingIdeals(window: int, id: string, newer: int, older: int)
    requires window > 0 && Bucket(older, window) < Bucket(newer, window)
    ensures IdealVerdicts([], window, OvertakenBy(id, newer, older)) == [true, true, false]
  {
    var r, o := Request(id, 1, newer), Request(id, 1, older);
    var first := [] + [Admission(id, newer)];
    var both := first + [Admission(id, older)];
    CountAppend([], Admission(id, newer), id, window, Bucket(older, window));
    CountAppend([], Admission(id, newer), id, window, Bucket(newer, window));
    CountAppend(first, Admission(id, older), id, window, Bucket(newer, window));
    VerdictsStep(State(map[], []), [], window, r, [o] + ([r] + []));
    VerdictsStep(State(map[], []), first, window, o, [r] + []);
    VerdictsStep(State(map[], []), both, window, r, []);
  }

  lemma VerdictsStep(s: State, log: seq<Admission>, window: int, r: Request, rest: seq<Request>)
    requires window > 0
    ensures Verdicts(s, window, [r] + rest)
         == [Decide(s.windows, r.id, r.limit, window, r.at).1.allowed] + Verdicts(Next(s, window, r), window, rest)
    ensures IdealVerdicts(log, window, [r] + rest)
         == if BucketCount(log, r.id, window, Bucket(r.at, window)) < r.limit
            then [true] + IdealVerdicts(log + [Admission(r.id, r.at)], window, rest)
            else [false] + IdealVerdicts(log, window, rest)
  {
    assert ([r] + rest)[1..] == rest;
  }

  // ------------------------------------------------------------------------ consequences

  lemma {:induction false} BucketsStayWithinLimit(s: State, window: int, start: int, requests: seq<Request>, limit: nat)
    requires window > 0 && UpToDate(s, window, Bucket(start, window)) && InTimeOrder(start, requests)
    requires forall r | r in requests :: r.limit == limit
    requires forall id, b :: BucketCount(s.log, id, window, b) <= limit
    ensures forall id, b :: BucketCount(Play(s, window, requests).log, id, window, b) <= limit
    decreases |requests|
  {
    if requests != [] {
      var r := requests[0];
      assert r in requests;
      BucketsMoveForward(start, r.at, window);
      LaterBucketIsUpToDate(s, window, Bucket(start, window), Bucket(r.at, window));
      NextIsIdeal(s, window, r);
      var s' := Next(s, window, r);
      forall id, b ensures BucketCount(s'.log, id, window, b) <= limit {
        if s'.log != s.log {
          assert s'.log[..|s.log|] == s.log;
        }
      }
      BucketsStayWithinLimit(s', window, r.at, requests[1..], limit);
    }
  }

  /** A bucket is the interval of its seconds. */
  lemma {:induction false} BucketIsAnInterval(log: seq<Admission>, id: string, window: int, bucket: int)
    requires window > 0
    ensures BucketCount(log, id, window, bucket) == IntervalCount(log, id, bucket * window, window)
    decreases |log|
  {
    if log != [] {
      var at := log[|log| - 1].at;
      BucketIsAnInterval(log[..|log| - 1], id, window, bucket);
      BucketBounds(at, window);
      if bucket * window <= at < bucket * window + window {
        assert (bucket + 1) * window == bucket * window + window;
        BucketIs(at, window, bucket);
      }
    }
  }

  /** An interval of window length meets two buckets at most. */
  lemma {:induction false} IntervalMeetsTwoBuckets(log: seq<Admission>, id: string, window: int, from: int)
    requires window > 0
    ensures IntervalCount(log, id, from, window)
         <= BucketCount(log, id, window, Bucket(from, window)) + BucketCount(log, id, window, Bucket(from, window) + 1)
    decreases |log|
  {
    if log != [] {
      var at := log[|log| - 1].at;
      IntervalMeetsTwoBuckets(log[..|log| - 1], id, window, from);
      if from <= at < from + window {
        TwoBuckets(from, at, window);
      }
    }
  }

  lemma TwoBuckets(from: int, at: int, window: int)
    requires window > 0 && from <= at < from + window
    ensures Bucket(at, window) == Bucket(from, window) || Bucket(at, window) == Bucket(from, window) + 1
  {
    var q := Bucket(from, window);
    BucketBounds(from, window);
    assert (q + 1) * window == q * window + window;
    if at < q * window + window {
      BucketIs(at, window, q);
    } else {
      BucketIs(at, window, q + 1);
    }
  }

  /** In any stretch of `window` seconds at most twice the limit is admitted per identifier. */
  lemma AtMostTwiceTheLimit(window: int, start: int, requests: seq<Request>, limit: nat, id: string, from: int)
    requires window > 0 && InTimeOrder(start, requests) && forall r | r in requests :: r.limit == limit
    ensures IntervalCount(Play(State(map[], []), window, requests).log, id, from, window) <= 2 * limit
  {
    BucketsStayWithinLimit(State(map[], []), window, start, requests, limit);
    IntervalMeetsTwoBuckets(Play(State(map[], []), window, requests).log, id, window, from);
  }

  lemma {:induction false} CountsOnlyGrow(s: State, window: int, requests: seq<Request>, id: string, bucket: int)
    requires window > 0
    ensures BucketCount(s.log, id, window, bucket) <= BucketCount(Play(s, window, requests).log, id, window, bucket)
    ensures (forall r | r in requests :: r.id != id || Bucket(r.at, window) != bucket) ==>
              BucketCount(s.log, id, window, bucket) == BucketCount(Play(s, window, requests).log, id, window, bucket)
    decreases |requests|
  {
    if requests != [] {
      var s' := Next(s, window, requests[0]);
      if s'.log != s.log {
        assert s'.log[..|s.log|] == s.log;
      }
      CountsOnlyGrow(s', window, requests[1..], id, bucket);
    }
  }

  /**
   After a refusal at `now`, whatever requests `between` come, the identifier is refused at every second
   before `now + retryAfter`, and is admitted at that second if it has not been admitted there already.
   */
  lemma RetryAfterIsTheEarliestSecond(s: State, window: int, id: string, limit: nat, now: int, between: seq<Request>, at: int)
    requires window > 0 && limit > 0 && UpToDate(s, window, Bucket(now, window))
    requires !Decide(s.windows, id, limit, window, now).1.allowed
    requires InTimeOrder(now, between) && now <= at && forall r | r in between :: r.at <= at
    ensures var retry := Decide(s.windows, id, limit, window, now).1.retryAfter;
            var later := Decide(Play(s, window, between).windows, id, limit, window, at).1;
            && retry > 0
            && (at < now + retry ==> !later.allowed)
            && (at == now + retry && (forall r | r in between :: r.id != id || r.at < at) ==> later.allowed)
  {
    var bucket := Bucket(now, window);
    var retry := (bucket + 1) * window - now;
    NextBucketStart(now, window, at);
    HistoriesStayUpToDate(s, window, now, between, at);
    var later := Play(s, window, between);
    NextIsIdeal(s, window, Request(id, limit, now));
    NextIsIdeal(later, window, Request(id, limit, at));
    CountsOnlyGrow(s, window, between, id, Bucket(at, window));
    if at == now + retry && forall r | r in between :: r.id != id || r.at < at {
      forall r | r in between && r.id == id ensures Bucket(r.at, window) != Bucket(at, window) {
        SecondsBefore(r.at, at, bucket, window);
      }
      NothingAhead(s.log, id, window, Bucket(at, window));
    }
  }

  lemma NextBucketStart(now: int, window: int, at: int)
    requires window > 0 && now <= at
    ensures (Bucket(now, window) + 1) * window - now > 0
    ensures at < (Bucket(now, window) + 1) * window ==> Bucket(at, window) == Bucket(now, window)
    ensures at == (Bucket(now, window) + 1) * window ==> Bucket(at, window) == Bucket(now, window) + 1
  {
    var q := Bucket(now, window);
    BucketBounds(now, window);
    assert (q + 1) * window == q * window + window;
    if at < (q + 1) * window {
      BucketIs(at, window, q);
    } else if at == (q + 1) * window {
      BucketIs(at, window, q + 1);
    }
  }

  lemma SecondsBefore(t: int, at: int, bucket: int, window: int)
    requires window > 0 && t < at && at == (bucket + 1) * window
    ensures Bucket(t, window) != Bucket(at, window)
  {
    BucketBounds(t, window);
    BucketIs(at, window, bucket + 1);
  }
}
