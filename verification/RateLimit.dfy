/** The token bucket per key, and the sweep that drops the buckets nobody has touched. Time and tokens
    are reals, in seconds; the clock does not go back. */
module RateLimit {
  import opened Common

  datatype Limit = Limit(rate: real, burst: nat)

  const SWEEP_INTERVAL: real := 300.0
  const BUCKET_TTL: real := 600.0

  const LIMIT_DEFAULT := Limit(20.0, 40)
  const LIMIT_AUTH := Limit(0.5, 5)
  const LIMIT_EXPENSIVE := Limit(2.0, 5)
  const LIMIT_TELEMETRY := Limit(0.2, 10)

  datatype Bucket = Bucket(tokens: real, lastSeen: real)

  datatype Answer = Allowed | Denied(wait: real)

  datatype Call = Call(key: string, now: real)

  /** A limiter that has never swept is due at once. */
  datatype State = State(buckets: map<string, Bucket>, lastSweep: Option<real>)

  function Least(a: real, b: real): real {
    if a < b then a else b
  }

  /** Tokens earned over a stretch of time. */
  function Earned(l: Limit, elapsed: real): real {
    elapsed * l.rate
  }

  function Refilled(l: Limit, b: Bucket, now: real): real {
    Least(b.tokens + Earned(l, now - b.lastSeen), l.burst as real)
  }

  /** What one request does to its bucket. */
  function Drawn(l: Limit, b: Bucket, now: real): (Bucket, Answer)
    requires l.rate > 0.0
  {
    var tokens := Refilled(l, b, now);
    if tokens >= 1.0 then (Bucket(tokens - 1.0, now), Allowed)
    else (Bucket(tokens, now), Denied((1.0 - tokens) / l.rate))
  }

  function BucketOf(l: Limit, buckets: map<string, Bucket>, call: Call): Bucket {
    if call.key in buckets then buckets[call.key] else Bucket(l.burst as real, call.now)
  }

  /** A request to a limiter that never sweeps. */
  function Plain(l: Limit, buckets: map<string, Bucket>, call: Call): (map<string, Bucket>, Answer)
    requires l.rate > 0.0
  {
    var (b, answer) := Drawn(l, BucketOf(l, buckets, call), call.now);
    (buckets[call.key := b], answer)
  }

  predicate SweepDue(s: State, now: real) {
    s.lastSweep.None? || now - s.lastSweep.value >= SWEEP_INTERVAL
  }

  function Swept(s: State, now: real): State {
    if !SweepDue(s, now) then s
    else State(map k | k in s.buckets && now - s.buckets[k].lastSeen <= BUCKET_TTL :: s.buckets[k], Some(now))
  }

  function Requested(l: Limit, s: State, call: Call): (State, Answer)
    requires l.rate > 0.0
  {
    var swept := Swept(s, call.now);
    var (buckets, answer) := Plain(l, swept.buckets, call);
    (swept.(buckets := buckets), answer)
  }

  class Limiter {
    const limit: Limit
    var buckets: map<string, Bucket>
    var lastSweep: Option<real>

    function Now(): State
      reads this
    {
      State(buckets, lastSweep)
    }

    constructor (limit: Limit)
      ensures this.limit == limit && Now() == State(map[], None)
    {
      this.limit, buckets, lastSweep := limit, map[], None;
    }

    method Allow(key: string, now: real) returns (answer: Answer)
      requires limit.rate > 0.0
      modifies this
      ensures (Now(), answer) == Requested(limit, old(Now()), Call(key, now))
    {
      SweepLocked(now);
      ghost var swept := buckets;
      if key !in buckets {
        buckets := buckets[key := Bucket(limit.burst as real, now)];
      }
      var elapsed := now - buckets[key].lastSeen;
      var tokens := Least(buckets[key].tokens + Earned(limit, elapsed), limit.burst as real);
      if tokens >= 1.0 {
        buckets := buckets[key := Bucket(tokens - 1.0, now)];
        assert buckets == swept[key := Bucket(tokens - 1.0, now)];
        return Allowed;
      }
      buckets := buckets[key := Bucket(tokens, now)];
      assert buckets == swept[key := Bucket(tokens, now)];
      var deficit := 1.0 - tokens;
      return Denied(deficit / limit.rate);
    }

    method SweepLocked(now: real)
      modifies this
      ensures Now() == Swept(old(Now()), now)
    {
      if lastSweep.Some? && now - lastSweep.value < SWEEP_INTERVAL {
        return;
      }
      lastSweep := Some(now);
      var left := buckets.Keys;
      ghost var start := buckets;
      while left != {}
        invariant left <= start.Keys && lastSweep == Some(now)
        invariant forall k :: k in buckets <==> k in start && (k in left || now - start[k].lastSeen <= BUCKET_TTL)
        invariant forall k :: k in buckets ==> buckets[k] == start[k]
        decreases left
      {
        var k :| k in left;
        left := left - {k};
        if now - buckets[k].lastSeen > BUCKET_TTL {
          buckets := buckets - {k};
        }
      }
    }
  }

  // Runs.

  ghost predicate ClockRuns(calls: seq<Call>) {
    forall i, j :: 0 <= i < j < |calls| ==> calls[i].now <= calls[j].now
  }

  function Run(l: Limit, calls: seq<Call>): State
    requires l.rate > 0.0
  {
    if calls == [] then State(map[], None)
    else Requested(l, Run(l, calls[..|calls| - 1]), calls[|calls| - 1]).0
  }

  function RunPlain(l: Limit, calls: seq<Call>): map<string, Bucket>
    requires l.rate > 0.0
  {
    if calls == [] then map[] else Plain(l, RunPlain(l, calls[..|calls| - 1]), calls[|calls| - 1]).0
  }

  /** The answer the i-th request gets, and the one it would get if nothing were ever swept. */
  function AnswerTo(l: Limit, calls: seq<Call>, i: nat): Answer
    requires l.rate > 0.0 && i < |calls|
  {
    Requested(l, Run(l, calls[..i]), calls[i]).1
  }

  function PlainAnswerTo(l: Limit, calls: seq<Call>, i: nat): Answer
    requires l.rate > 0.0 && i < |calls|
  {
    Plain(l, RunPlain(l, calls[..i]), calls[i]).1
  }

  // The sweep is invisible exactly when an idle bucket is full by the time it may be swept.

  /** Nothing a caller can see tells this limiter from one that never sweeps. */
  ghost predicate SweepInvisible(l: Limit)
    requires l.rate > 0.0
  {
    forall calls: seq<Call>, i: nat :: ClockRuns(calls) && i < |calls| ==>
      AnswerTo(l, calls, i) == PlainAnswerTo(l, calls, i)
  }

  /** A bucket that was dropped would be full by now. */
  ghost predicate Follows(l: Limit, s: State, plain: map<string, Bucket>, now: real) {
    && (forall k :: k in s.buckets ==> k in plain && s.buckets[k] == plain[k])
    && (forall k :: k in plain ==> plain[k].lastSeen <= now && plain[k].tokens >= 0.0)
    && (forall k :: k in plain && k !in s.buckets ==> Refilled(l, plain[k], now) == l.burst as real)
  }

  lemma EarnedGrows(l: Limit, a: real, b: real)
    requires l.rate > 0.0 && a <= b
    ensures Earned(l, a) <= Earned(l, b)
  {
    assert (b - a) * l.rate >= 0.0;
  }

  lemma EarnedAdds(l: Limit, a: real, b: real)
    ensures Earned(l, a + b) == Earned(l, a) + Earned(l, b)
    ensures Earned(l, 0.0) == 0.0
  {
  }

  lemma RefillGrows(l: Limit, b: Bucket, now: real, later: real)
    requires l.rate > 0.0 && now <= later
    ensures Refilled(l, b, now) <= Refilled(l, b, later)
    ensures Refilled(l, b, later) <= Refilled(l, b, now) + Earned(l, later - now)
    ensures Earned(l, later - now) >= 0.0
  {
    EarnedAdds(l, now - b.lastSeen, later - now);
    EarnedGrows(l, 0.0, later - now);
    assert later - b.lastSeen == (now - b.lastSeen) + (later - now);
  }

  lemma IdleIsFull(l: Limit, b: Bucket, now: real)
    requires l.rate > 0.0 && l.burst as real <= l.rate * BUCKET_TTL
    requires b.tokens >= 0.0 && now - b.lastSeen > BUCKET_TTL
    ensures Refilled(l, b, now) == l.burst as real
  {
    EarnedGrows(l, BUCKET_TTL, now - b.lastSeen);
    assert Earned(l, BUCKET_TTL) >= l.burst as real;
  }

  lemma SweepFollows(l: Limit, s: State, plain: map<string, Bucket>, before: real, now: real)
    requires l.rate > 0.0 && l.burst as real <= l.rate * BUCKET_TTL
    requires Follows(l, s, plain, before) && before <= now
    ensures Follows(l, Swept(s, now), plain, now)
  {
    forall k | k in plain && k !in Swept(s, now).buckets ensures Refilled(l, plain[k], now) == l.burst as real {
      if k in s.buckets {
        IdleIsFull(l, plain[k], now);
      } else {
        RefillGrows(l, plain[k], before, now);
      }
    }
  }

  lemma RefilledAtOnce(l: Limit, tokens: real, now: real)
    ensures Refilled(l, Bucket(tokens, now), now) == Least(tokens, l.burst as real)
  {
    EarnedAdds(l, 0.0, 0.0);
    assert now - now == 0.0;
  }

  lemma RefilledNotNegative(l: Limit, b: Bucket, now: real)
    requires l.rate > 0.0 && b.lastSeen <= now && b.tokens >= 0.0
    ensures Refilled(l, b, now) >= 0.0
  {
    EarnedAdds(l, 0.0, 0.0);
    EarnedGrows(l, 0.0, now - b.lastSeen);
  }

  /** The bucket a request finds, and the one it would find if nothing had been swept, hold as much. */
  lemma SameRefill(l: Limit, s: State, plain: map<string, Bucket>, call: Call)
    requires l.rate > 0.0 && Follows(l, s, plain, call.now)
    ensures Refilled(l, BucketOf(l, s.buckets, call), call.now) ==
            Refilled(l, BucketOf(l, plain, call), call.now) >= 0.0
  {
    RefilledAtOnce(l, l.burst as real, call.now);
    if call.key in plain {
      RefilledNotNegative(l, plain[call.key], call.now);
    }
  }

  lemma DrawnByRefill(l: Limit, a: Bucket, b: Bucket, now: real)
    requires l.rate > 0.0 && Refilled(l, a, now) == Refilled(l, b, now) >= 0.0
    ensures Drawn(l, a, now) == Drawn(l, b, now)
            && Drawn(l, a, now).0.tokens >= 0.0 && Drawn(l, a, now).0.lastSeen == now
  {
  }

  lemma PutFollows(l: Limit, s: State, plain: map<string, Bucket>, key: string, b: Bucket, now: real)
    requires Follows(l, s, plain, now) && b.tokens >= 0.0 && b.lastSeen == now
    ensures Follows(l, s.(buckets := s.buckets[key := b]), plain[key := b], now)
  {
  }

  lemma CallFollows(l: Limit, s: State, plain: map<string, Bucket>, before: real, call: Call)
    requires l.rate > 0.0 && l.burst as real <= l.rate * BUCKET_TTL
    requires Follows(l, s, plain, before) && before <= call.now
    ensures Requested(l, s, call).1 == Plain(l, plain, call).1
    ensures Follows(l, Requested(l, s, call).0, Plain(l, plain, call).0, call.now)
  {
    SweepFollows(l, s, plain, before, call.now);
    var swept := Swept(s, call.now);
    SameRefill(l, swept, plain, call);
    DrawnByRefill(l, BucketOf(l, swept.buckets, call), BucketOf(l, plain, call), call.now);
    PutFollows(l, swept, plain, call.key, Drawn(l, BucketOf(l, plain, call), call.now).0, call.now);
  }

  lemma {:induction false} RunFollows(l: Limit, calls: seq<Call>)
    requires l.rate > 0.0 && l.burst as real <= l.rate * BUCKET_TTL
    requires ClockRuns(calls) && calls != []
    ensures Follows(l, Run(l, calls), RunPlain(l, calls), calls[|calls| - 1].now)
    decreases |calls|
  {
    var n := |calls| - 1;
    if n > 0 {
      RunFollows(l, calls[..n]);
      CallFollows(l, Run(l, calls[..n]), RunPlain(l, calls[..n]), calls[n - 1].now, calls[n]);
    } else {
      CallFollows(l, State(map[], None), map[], calls[0].now, calls[0]);
    }
  }

  lemma FullIdleBucketsHideTheSweep(l: Limit)
    requires l.rate > 0.0 && l.burst as real <= l.rate * BUCKET_TTL
    ensures SweepInvisible(l)
  {
    forall calls: seq<Call>, i: nat | ClockRuns(calls) && i < |calls|
      ensures AnswerTo(l, calls, i) == PlainAnswerTo(l, calls, i)
    {
      if i > 0 {
        RunFollows(l, calls[..i]);
        CallFollows(l, Run(l, calls[..i]), RunPlain(l, calls[..i]), calls[i - 1].now, calls[i]);
      } else {
        CallFollows(l, State(map[], None), map[], calls[0].now, calls[0]);
      }
    }
  }

  /** n requests for one key at one moment, on top of earlier ones. */
  function Burst(calls: seq<Call>, key: string, now: real, n: nat): seq<Call> {
    calls + seq(n, i => Call(key, now))
  }

  lemma BurstStep(calls: seq<Call>, key: string, now: real, n: nat)
    requires n > 0
    ensures Burst(calls, key, now, n) == Burst(calls, key, now, n - 1) + [Call(key, now)]
  {
  }

  /** What a bucket holding this much does with a request, and where that leaves the next one. */
  lemma DrawnFrom(l: Limit, b: Bucket, now: real, tokens: real)
    requires l.rate > 0.0 && Refilled(l, b, now) == tokens
    ensures tokens >= 1.0 ==> Drawn(l, b, now) == (Bucket(tokens - 1.0, now), Allowed)
    ensures tokens >= 1.0 ==> Refilled(l, Bucket(tokens - 1.0, now), now) == tokens - 1.0
    ensures tokens < 1.0 ==> Drawn(l, b, now).1 != Allowed
  {
    RefilledAtOnce(l, tokens - 1.0, now);
  }

  /** What the key could draw from the limiter that never sweeps, and from the one that does. */
  function PlainTokens(l: Limit, calls: seq<Call>, key: string, now: real): real
    requires l.rate > 0.0
  {
    Refilled(l, BucketOf(l, RunPlain(l, calls), Call(key, now)), now)
  }

  function SweptTokens(l: Limit, calls: seq<Call>, key: string, now: real): real
    requires l.rate > 0.0
  {
    Refilled(l, BucketOf(l, Swept(Run(l, calls), now).buckets, Call(key, now)), now)
  }

  lemma PlainCall(l: Limit, calls: seq<Call>, key: string, now: real)
    requires l.rate > 0.0 && PlainTokens(l, calls, key, now) >= 1.0
    ensures PlainTokens(l, calls + [Call(key, now)], key, now) == PlainTokens(l, calls, key, now) - 1.0
    ensures SeenAt(RunPlain(l, calls + [Call(key, now)]), key, now)
  {
    assert (calls + [Call(key, now)])[..|calls|] == calls;
    DrawnFrom(l, BucketOf(l, RunPlain(l, calls), Call(key, now)), now, PlainTokens(l, calls, key, now));
  }

  ghost predicate SeenAt(buckets: map<string, Bucket>, key: string, now: real) {
    key in buckets && buckets[key].lastSeen == now
  }

  lemma SweptCall(l: Limit, calls: seq<Call>, key: string, now: real)
    requires l.rate > 0.0 && SweptTokens(l, calls, key, now) >= 1.0
    requires Swept(Run(l, calls), now).lastSweep == Some(now)
    ensures var s := Run(l, calls + [Call(key, now)]);
            Swept(s, now) == s && s.lastSweep == Some(now) && SeenAt(s.buckets, key, now)
    ensures SweptTokens(l, calls + [Call(key, now)], key, now) == SweptTokens(l, calls, key, now) - 1.0
  {
    assert (calls + [Call(key, now)])[..|calls|] == calls;
    DrawnFrom(l, BucketOf(l, Swept(Run(l, calls), now).buckets, Call(key, now)), now, SweptTokens(l, calls, key, now));
  }

  /** Requests at one moment draw whole tokens one by one. */
  lemma {:induction false} PlainBurst(l: Limit, calls: seq<Call>, key: string, now: real, n: nat)
    requires l.rate > 0.0 && PlainTokens(l, calls, key, now) >= n as real
    ensures PlainTokens(l, Burst(calls, key, now, n), key, now) == PlainTokens(l, calls, key, now) - n as real
    ensures n > 0 ==> SeenAt(RunPlain(l, Burst(calls, key, now, n)), key, now)
  {
    if n > 0 {
      var fewer := Burst(calls, key, now, n - 1);
      PlainBurst(l, calls, key, now, n - 1);
      PlainCall(l, fewer, key, now);
      BurstStep(calls, key, now, n);
    } else {
      assert Burst(calls, key, now, 0) == calls;
    }
  }

  lemma {:induction false} SweptBurst(l: Limit, calls: seq<Call>, key: string, now: real, n: nat)
    requires l.rate > 0.0 && SweptTokens(l, calls, key, now) >= n as real
    requires Swept(Run(l, calls), now).lastSweep == Some(now)
    ensures SweptTokens(l, Burst(calls, key, now, n), key, now) == SweptTokens(l, calls, key, now) - n as real
    ensures var s := Run(l, Burst(calls, key, now, n));
            Swept(s, now).lastSweep == Some(now) && (n > 0 ==> Swept(s, now) == s && SeenAt(s.buckets, key, now))
  {
    if n > 0 {
      var fewer := Burst(calls, key, now, n - 1);
      SweptBurst(l, calls, key, now, n - 1);
      SweptCall(l, fewer, key, now);
      BurstStep(calls, key, now, n);
    } else {
      assert Burst(calls, key, now, 0) == calls;
    }
  }

  /** One more request that the sweeping limiter can grant, where the sweep is invisible. */
  lemma GrantedToBoth(l: Limit, calls: seq<Call>, key: string, now: real)
    requires l.rate > 0.0 && SweepInvisible(l) && ClockRuns(calls + [Call(key, now)])
    requires SweptTokens(l, calls, key, now) >= 1.0
    ensures PlainTokens(l, calls, key, now) >= 1.0
  {
    var more := calls + [Call(key, now)];
    assert more[..|calls|] == calls;
    DrawnFrom(l, BucketOf(l, Swept(Run(l, calls), now).buckets, Call(key, now)), now, SweptTokens(l, calls, key, now));
    assert AnswerTo(l, more, |calls|) == Allowed;
    assert PlainAnswerTo(l, more, |calls|) == Allowed;
    DrawnFrom(l, BucketOf(l, RunPlain(l, calls), Call(key, now)), now, PlainTokens(l, calls, key, now));
  }

  /** If a limiter whose sweep is invisible grants a whole burst, the one that never sweeps had as much
      to grant. */
  lemma {:induction false} AllGranted(l: Limit, calls: seq<Call>, key: string, now: real, n: nat)
    requires l.rate > 0.0 && SweepInvisible(l) && ClockRuns(Burst(calls, key, now, n))
    requires SweptTokens(l, calls, key, now) >= n as real && Swept(Run(l, calls), now).lastSweep == Some(now)
    ensures n > 0 ==> PlainTokens(l, calls, key, now) >= n as real
  {
    if n > 0 {
      var burst := Burst(calls, key, now, n);
      var fewer := Burst(calls, key, now, n - 1);
      BurstStep(calls, key, now, n);
      assert ClockRuns(fewer) by {
        assert forall i :: 0 <= i < |fewer| ==> fewer[i] == burst[i];
      }
      AllGranted(l, calls, key, now, n - 1);
      SweptBurst(l, calls, key, now, n - 1);
      GrantedToBoth(l, fewer, key, now);
      if n > 1 {
        PlainBurst(l, calls, key, now, n - 1);
      } else {
        assert fewer == calls;
      }
    }
  }

  /** A moment when an emptied bucket may be swept though it has not refilled. */
  lemma TooSoon(l: Limit) returns (later: real)
    requires l.rate > 0.0 && l.burst as real > l.rate * BUCKET_TTL
    ensures later > BUCKET_TTL && Earned(l, later) == l.rate * later < l.burst as real
  {
    var full := l.burst as real / l.rate;
    assert full * l.rate == l.burst as real;
    assert full > BUCKET_TTL;
    later := (full + BUCKET_TTL) / 2.0;
    assert later < full;
    assert later * l.rate < full * l.rate;
  }

  /** Otherwise somebody can tell: empty a bucket, wait until it is swept but not yet full, and ask for
      a whole burst again. */
  lemma PartlyFullBucketsShowTheSweep(l: Limit)
    requires l.rate > 0.0 && l.burst >= 1 && l.burst as real > l.rate * BUCKET_TTL
    ensures !SweepInvisible(l)
  {
    var b, key := l.burst, "a";
    var later := TooSoon(l);
    RefilledAtOnce(l, b as real, 0.0);
    RefilledAtOnce(l, b as real, later);
    PlainBurst(l, [], key, 0.0, b);
    SweptBurst(l, [], key, 0.0, b);
    var first := Burst([], key, 0.0, b);
    RefilledAtOnce(l, RunPlain(l, first)[key].tokens, 0.0);
    RefilledAtOnce(l, Run(l, first).buckets[key].tokens, 0.0);
    assert RunPlain(l, first)[key] == Bucket(0.0, 0.0) && Run(l, first).buckets[key] == Bucket(0.0, 0.0);
    assert Swept(Run(l, first), later).lastSweep == Some(later);
    assert SweptTokens(l, first, key, later) == b as real;
    assert later - 0.0 == later;
    assert PlainTokens(l, first, key, later) < b as real;
    if SweepInvisible(l) {
      var second := Burst(first, key, later, b);
      assert ClockRuns(second) by {
        assert forall i :: 0 <= i < |second| ==> second[i].now == if i < b then 0.0 else later;
      }
      AllGranted(l, first, key, later, b);
    }
  }

  /** Sweeping idle buckets is invisible exactly when an idle bucket refills within the time it is kept. */
  lemma SweepInvisibleExactlyWhen(l: Limit)
    requires l.rate > 0.0 && l.burst >= 1
    ensures SweepInvisible(l) <==> l.burst as real <= l.rate * BUCKET_TTL
  {
    if l.burst as real <= l.rate * BUCKET_TTL {
      FullIdleBucketsHideTheSweep(l);
    } else {
      PartlyFullBucketsShowTheSweep(l);
    }
  }

  /** Every limit the server is configured with meets it. */
  lemma ConfiguredLimitsHideTheSweep(l: Limit)
    requires l in {LIMIT_DEFAULT, LIMIT_AUTH, LIMIT_EXPENSIVE, LIMIT_TELEMETRY}
    ensures SweepInvisible(l)
  {
    FullIdleBucketsHideTheSweep(l);
  }

  // How much gets through.

  /** Requests for the key allowed among calls[lo..hi], and as many as would be if nothing were swept. */
  function AllowedIn(l: Limit, calls: seq<Call>, key: string, lo: nat, hi: nat): nat
    requires l.rate > 0.0 && lo <= hi <= |calls|
    decreases hi
  {
    if lo == hi then 0
    else
      AllowedIn(l, calls, key, lo, hi - 1)
      + if calls[hi - 1].key == key && AnswerTo(l, calls, hi - 1) == Allowed then 1 else 0
  }

  function PlainAllowedIn(l: Limit, calls: seq<Call>, key: string, lo: nat, hi: nat): nat
    requires l.rate > 0.0 && lo <= hi <= |calls|
    decreases hi
  {
    if lo == hi then 0
    else PlainAllowedIn(l, calls, key, lo, hi - 1) + PlainGranted(l, calls, key, hi - 1)
  }

  /** What the key could draw at this moment. */
  function Level(l: Limit, buckets: map<string, Bucket>, key: string, now: real): (level: real)
    ensures level <= l.burst as real
  {
    if key in buckets then Refilled(l, buckets[key], now) else l.burst as real
  }

  /** Drawing takes exactly what it is granted. */
  lemma DrawSpends(l: Limit, b: Bucket, now: real)
    requires l.rate > 0.0
    ensures var (after, answer) := Drawn(l, b, now);
            Refilled(l, after, now) + (if answer == Allowed then 1.0 else 0.0) == Refilled(l, b, now)
  {
    RefilledAtOnce(l, Refilled(l, b, now), now);
    RefilledAtOnce(l, Refilled(l, b, now) - 1.0, now);
  }

  /** One request takes what it is granted out of the level, which time refills at the rate. */
  lemma CallSpendsLevel(l: Limit, buckets: map<string, Bucket>, call: Call, key: string, before: real)
    requires l.rate > 0.0 && before <= call.now
    ensures var (after, answer) := Plain(l, buckets, call);
            Level(l, after, key, call.now) + (if call.key == key && answer == Allowed then 1.0 else 0.0)
            <= Level(l, buckets, key, before) + Earned(l, call.now - before)
  {
    if key in buckets {
      RefillGrows(l, buckets[key], before, call.now);
    } else {
      EarnedAdds(l, 0.0, 0.0);
      EarnedGrows(l, 0.0, call.now - before);
    }
    if call.key == key {
      RefilledAtOnce(l, l.burst as real, call.now);
      DrawSpends(l, BucketOf(l, buckets, call), call.now);
    }
  }

  /** 1 for a request of the key's that is allowed, 0 for anything else. */
  function PlainGranted(l: Limit, calls: seq<Call>, key: string, i: nat): nat
    requires l.rate > 0.0 && i < |calls|
  {
    if calls[i].key == key && PlainAnswerTo(l, calls, i) == Allowed then 1 else 0
  }

  lemma StepSpendsLevel(l: Limit, calls: seq<Call>, key: string, i: nat, before: real)
    requires l.rate > 0.0 && i < |calls| && before <= calls[i].now
    ensures Level(l, RunPlain(l, calls[..i + 1]), key, calls[i].now) + PlainGranted(l, calls, key, i) as real
         <= Level(l, RunPlain(l, calls[..i]), key, before) + Earned(l, calls[i].now - before)
  {
    assert calls[..i + 1][..i] == calls[..i] && calls[..i + 1][i] == calls[i];
    CallSpendsLevel(l, RunPlain(l, calls[..i]), calls[i], key, before);
  }

  lemma {:induction false} WindowSpendsLevel(l: Limit, calls: seq<Call>, key: string, lo: nat, hi: nat)
    requires l.rate > 0.0 && ClockRuns(calls) && lo < hi <= |calls|
    ensures Level(l, RunPlain(l, calls[..hi]), key, calls[hi - 1].now) + PlainAllowedIn(l, calls, key, lo, hi) as real
         <= l.burst as real + Earned(l, calls[hi - 1].now - calls[lo].now)
    decreases hi
  {
    var n := hi - 1;
    if n > lo {
      WindowSpendsLevel(l, calls, key, lo, n);
      StepSpendsLevel(l, calls, key, n, calls[n - 1].now);
      EarnedAdds(l, calls[n - 1].now - calls[lo].now, calls[n].now - calls[n - 1].now);
      assert calls[n].now - calls[lo].now == (calls[n - 1].now - calls[lo].now) + (calls[n].now - calls[n - 1].now);
    } else {
      StepSpendsLevel(l, calls, key, n, calls[n].now);
      assert PlainAllowedIn(l, calls, key, lo, n) == 0;
    }
  }

  lemma {:induction false} TokensNotNegative(l: Limit, calls: seq<Call>, key: string)
    requires l.rate > 0.0 && ClockRuns(calls) && calls != [] && key in RunPlain(l, calls)
    ensures RunPlain(l, calls)[key].tokens >= 0.0 && RunPlain(l, calls)[key].lastSeen <= calls[|calls| - 1].now
    decreases |calls|
  {
    var n := |calls| - 1;
    var buckets := RunPlain(l, calls[..n]);
    if key in buckets {
      TokensNotNegative(l, calls[..n], key);
    }
    if calls[n].key == key {
      var b := BucketOf(l, buckets, calls[n]);
      RefilledNotNegative(l, b, calls[n].now);
      DrawnByRefill(l, b, b, calls[n].now);
    }
  }

  lemma PlainWindowIsBounded(l: Limit, calls: seq<Call>, key: string, lo: nat, hi: nat)
    requires l.rate > 0.0 && ClockRuns(calls) && lo < hi <= |calls|
    ensures PlainAllowedIn(l, calls, key, lo, hi) as real
         <= l.burst as real + Earned(l, calls[hi - 1].now - calls[lo].now)
  {
    WindowSpendsLevel(l, calls, key, lo, hi);
    if key in RunPlain(l, calls[..hi]) {
      TokensNotNegative(l, calls[..hi], key);
      RefilledNotNegative(l, RunPlain(l, calls[..hi])[key], calls[hi - 1].now);
    }
  }

  lemma {:induction false} InvisibleSweepAllowsTheSame(l: Limit, calls: seq<Call>, key: string, lo: nat, hi: nat)
    requires l.rate > 0.0 && SweepInvisible(l) && ClockRuns(calls) && lo <= hi <= |calls|
    ensures AllowedIn(l, calls, key, lo, hi) == PlainAllowedIn(l, calls, key, lo, hi)
    decreases hi
  {
    if lo < hi {
      InvisibleSweepAllowsTheSame(l, calls, key, lo, hi - 1);
      assert AnswerTo(l, calls, hi - 1) == PlainAnswerTo(l, calls, hi - 1);
    }
  }

  /** Whatever else is asked for, the requests for one key allowed in any window are at most a burst and
      the rate times the window's length. */
  ghost predicate WindowsBounded(l: Limit)
    requires l.rate > 0.0
  {
    forall calls: seq<Call>, key: string, lo: nat, hi: nat :: ClockRuns(calls) && lo < hi <= |calls| ==>
      AllowedIn(l, calls, key, lo, hi) as real <= l.burst as real + l.rate * (calls[hi - 1].now - calls[lo].now)
  }

  lemma {:induction false} AllAllowed(l: Limit, calls: seq<Call>, key: string, hi: nat)
    requires l.rate > 0.0 && hi <= |calls|
    requires forall i :: 0 <= i < hi ==> calls[i].key == key && AnswerTo(l, calls, i) == Allowed
    ensures AllowedIn(l, calls, key, 0, hi) == hi
  {
    if hi > 0 {
      AllAllowed(l, calls, key, hi - 1);
    }
  }

  /** Every request of a burst the bucket can pay for is allowed. */
  lemma BurstIsAllowed(l: Limit, calls: seq<Call>, key: string, now: real, n: nat, i: nat)
    requires l.rate > 0.0 && SweptTokens(l, calls, key, now) >= n as real && i < n
    requires Swept(Run(l, calls), now).lastSweep == Some(now)
    ensures AnswerTo(l, Burst(calls, key, now, n), |calls| + i) == Allowed
  {
    var before := Burst(calls, key, now, i);
    SweptBurst(l, calls, key, now, i);
    assert Burst(calls, key, now, n)[..|calls| + i] == before;
    DrawnFrom(l, BucketOf(l, Swept(Run(l, before), now).buckets, Call(key, now)), now,
              SweptTokens(l, before, key, now));
  }

  function TwoBursts(b: nat, later: real): seq<Call> {
    Burst(Burst([], "a", 0.0, b), "a", later, b)
  }

  lemma TwoBurstsAreAllowed(l: Limit, later: real, i: nat)
    requires l.rate > 0.0 && later > BUCKET_TTL && i < 2 * l.burst
    ensures AnswerTo(l, TwoBursts(l.burst, later), i) == Allowed
  {
    hide AnswerTo, SweptTokens, Refilled;
    var first := Burst([], "a", 0.0, l.burst);
    SecondBurstIsPaidFor(l, later);
    if i < l.burst {
      BurstIsAllowed(l, [], "a", 0.0, l.burst, i);
      SameAnswer(l, first, TwoBursts(l.burst, later), i);
    } else {
      BurstIsAllowed(l, first, "a", later, l.burst, i - l.burst);
    }
  }

  lemma SameAnswer(l: Limit, calls: seq<Call>, more: seq<Call>, i: nat)
    requires l.rate > 0.0 && i < |calls| && calls <= more
    ensures AnswerTo(l, calls, i) == AnswerTo(l, more, i)
  {
    assert calls[..i] == more[..i];
  }

  /** A burst, a wait long enough to be swept and too short to refill, and another burst. */
  lemma SweptTooSoonExceedsTheWindow(l: Limit)
    requires l.rate > 0.0 && l.burst >= 1 && l.burst as real > l.rate * BUCKET_TTL
    ensures !WindowsBounded(l)
  {
    hide AnswerTo, AllowedIn, Earned;
    var b := l.burst;
    var later := TooSoon(l);
    var calls := TwoBursts(b, later);
    forall i | 0 <= i < 2 * b ensures calls[i].key == "a" && AnswerTo(l, calls, i) == Allowed {
      TwoBurstsAreAllowed(l, later, i);
    }
    AllAllowed(l, calls, "a", 2 * b);
    assert calls[0].now == 0.0 && calls[2 * b - 1].now == later && later - 0.0 == later;
    assert ClockRuns(calls);
    assert l.rate * (calls[2 * b - 1].now - calls[0].now) == l.rate * later;
    assert AllowedIn(l, calls, "a", 0, 2 * b) as real > b as real + l.rate * later;
  }

  lemma SecondBurstIsPaidFor(l: Limit, later: real)
    requires l.rate > 0.0 && later > BUCKET_TTL
    ensures var first := Burst([], "a", 0.0, l.burst);
            && Swept(Run(l, []), 0.0).lastSweep == Some(0.0) && SweptTokens(l, [], "a", 0.0) == l.burst as real
            && Swept(Run(l, first), later).lastSweep == Some(later)
            && SweptTokens(l, first, "a", later) == l.burst as real
  {
    RefilledAtOnce(l, l.burst as real, 0.0);
    RefilledAtOnce(l, l.burst as real, later);
    SweptBurst(l, [], "a", 0.0, l.burst);
  }

  /** Windows are bounded exactly when an idle bucket refills within the time it is kept: the same limits
      whose sweep nobody can see. */
  lemma WindowsBoundedExactlyWhen(l: Limit)
    requires l.rate > 0.0 && l.burst >= 1
    ensures WindowsBounded(l) <==> l.burst as real <= l.rate * BUCKET_TTL
  {
    if l.burst as real <= l.rate * BUCKET_TTL {
      FullIdleBucketsHideTheSweep(l);
      forall calls: seq<Call>, key: string, lo: nat, hi: nat | ClockRuns(calls) && lo < hi <= |calls|
        ensures AllowedIn(l, calls, key, lo, hi) as real
             <= l.burst as real + Earned(l, calls[hi - 1].now - calls[lo].now)
      {
        InvisibleSweepAllowsTheSame(l, calls, key, lo, hi);
        PlainWindowIsBounded(l, calls, key, lo, hi);
      }
    } else {
      SweptTooSoonExceedsTheWindow(l);
    }
  }

  // Exactly what gets through.

  /** After a request, the key's level is what it was without what was granted, refilled up to the burst. */
  lemma LevelAfter(l: Limit, calls: seq<Call>, key: string, i: nat, later: real)
    requires l.rate > 0.0 && i < |calls| && calls[i].now <= later
    ensures Level(l, RunPlain(l, calls[..i + 1]), key, later)
         == Least(Level(l, RunPlain(l, calls[..i]), key, calls[i].now) - PlainGranted(l, calls, key, i) as real
                  + Earned(l, later - calls[i].now), l.burst as real)
  {
    assert calls[..i + 1][..i] == calls[..i] && calls[..i + 1][i] == calls[i];
    var buckets, call := RunPlain(l, calls[..i]), calls[i];
    EarnedGrows(l, 0.0, later - call.now);
    EarnedAdds(l, 0.0, 0.0);
    if call.key == key {
      RefilledAtOnce(l, l.burst as real, call.now);
    } else if key in buckets {
      EarnedAdds(l, call.now - buckets[key].lastSeen, later - call.now);
      assert later - buckets[key].lastSeen == (call.now - buckets[key].lastSeen) + (later - call.now);
    }
  }

  /** What the windows of calls that end at request i leave of the burst. */
  function Left(l: Limit, calls: seq<Call>, key: string, lo: nat, i: nat): real
    requires l.rate > 0.0 && lo <= i < |calls|
  {
    l.burst as real + Earned(l, calls[i].now - calls[lo].now) - PlainAllowedIn(l, calls, key, lo, i) as real
  }

  lemma LeftNext(l: Limit, calls: seq<Call>, key: string, lo: nat, i: nat)
    requires l.rate > 0.0 && lo <= i && i + 1 < |calls|
    ensures Left(l, calls, key, lo, i + 1)
         == Left(l, calls, key, lo, i) - PlainGranted(l, calls, key, i) as real
            + Earned(l, calls[i + 1].now - calls[i].now)
    ensures Left(l, calls, key, i + 1, i + 1) == l.burst as real
  {
    EarnedAdds(l, calls[i].now - calls[lo].now, calls[i + 1].now - calls[i].now);
    assert calls[i + 1].now - calls[lo].now == (calls[i].now - calls[lo].now) + (calls[i + 1].now - calls[i].now);
    assert calls[i + 1].now - calls[i + 1].now == 0.0;
  }

  /** The level a request finds is the least that any window ending there leaves. */
  lemma {:induction false} LevelIsLeast(l: Limit, calls: seq<Call>, key: string, i: nat)
    requires l.rate > 0.0 && ClockRuns(calls) && i < |calls|
    ensures var level := Level(l, RunPlain(l, calls[..i]), key, calls[i].now);
            && (forall lo :: 0 <= lo <= i ==> level <= Left(l, calls, key, lo, i))
            && exists lo :: 0 <= lo <= i && level == Left(l, calls, key, lo, i)
  {
    hide Left, Earned, Level, PlainGranted;
    var level := Level(l, RunPlain(l, calls[..i]), key, calls[i].now);
    if i == 0 {
      NothingDrawn(l, calls, key);
      assert level == Left(l, calls, key, 0, 0);
    } else {
      LevelIsLeast(l, calls, key, i - 1);
      LevelAfter(l, calls, key, i - 1, calls[i].now);
      var lo :| 0 <= lo <= i - 1
                && Level(l, RunPlain(l, calls[..i - 1]), key, calls[i - 1].now) == Left(l, calls, key, lo, i - 1);
      LeftNext(l, calls, key, lo, i - 1);
      assert level == Left(l, calls, key, lo, i) || level == Left(l, calls, key, i, i);
      forall lo | 0 <= lo <= i ensures level <= Left(l, calls, key, lo, i) {
        if lo < i {
          LeftNext(l, calls, key, lo, i - 1);
        }
      }
    }
  }

  lemma NothingDrawn(l: Limit, calls: seq<Call>, key: string)
    requires l.rate > 0.0 && calls != []
    ensures Level(l, RunPlain(l, calls[..0]), key, calls[0].now) == l.burst as real == Left(l, calls, key, 0, 0)
  {
    EarnedAdds(l, 0.0, 0.0);
    assert calls[0].now - calls[0].now == 0.0;
  }

  /** Allowing the request would keep the window of calls that begins with request lo within its bound. */
  ghost predicate FitsWindow(l: Limit, calls: seq<Call>, lo: nat, i: nat)
    requires l.rate > 0.0 && lo <= i < |calls|
  {
    AllowedIn(l, calls, calls[i].key, lo, i) as real + 1.0
    <= l.burst as real + l.rate * (calls[i].now - calls[lo].now)
  }

  /** A request is allowed exactly when every window that ends with it has room for it: the limiter refuses nothing
      that the burst and the rate admit, and admits nothing else. */
  lemma AllowedExactlyWhenWindowsFit(l: Limit, calls: seq<Call>, i: nat)
    requires l.rate > 0.0 && l.burst >= 1 && l.burst as real <= l.rate * BUCKET_TTL
    requires ClockRuns(calls) && i < |calls|
    ensures AnswerTo(l, calls, i) == Allowed <==> forall lo :: 0 <= lo <= i ==> FitsWindow(l, calls, lo, i)
  {
    var key := calls[i].key;
    FullIdleBucketsHideTheSweep(l);
    assert AnswerTo(l, calls, i) == PlainAnswerTo(l, calls, i);
    hide Level, Left, FitsWindow, PlainAnswerTo, AnswerTo, SweepInvisible, ClockRuns;
    LevelIsLeast(l, calls, key, i);
    AllowedByLevel(l, calls, i);
    forall lo | 0 <= lo <= i ensures FitsWindow(l, calls, lo, i) <==> Left(l, calls, key, lo, i) >= 1.0 {
      FitsIsLeft(l, calls, lo, i);
    }
  }

  lemma AllowedByLevel(l: Limit, calls: seq<Call>, i: nat)
    requires l.rate > 0.0 && i < |calls|
    ensures PlainAnswerTo(l, calls, i) == Allowed <==>
            Level(l, RunPlain(l, calls[..i]), calls[i].key, calls[i].now) >= 1.0
  {
    RefilledAtOnce(l, l.burst as real, calls[i].now);
  }

  lemma FitsIsLeft(l: Limit, calls: seq<Call>, lo: nat, i: nat)
    requires l.rate > 0.0 && SweepInvisible(l) && ClockRuns(calls) && lo <= i < |calls|
    ensures FitsWindow(l, calls, lo, i) <==> Left(l, calls, calls[i].key, lo, i) >= 1.0
  {
    InvisibleSweepAllowsTheSame(l, calls, calls[i].key, lo, i);
  }

  // How long to wait.

  /** Other keys' requests leave a bucket alone, unless it is swept. */
  lemma {:induction false} OthersLeaveBucket(l: Limit, s: State, others: seq<Call>, key: string)
    requires l.rate > 0.0 && forall i :: 0 <= i < |others| ==> others[i].key != key
    ensures var t := RunFrom(l, s, others);
            key in t.buckets ==> key in s.buckets && t.buckets[key] == s.buckets[key]
    decreases |others|
  {
    if others != [] {
      OthersLeaveBucket(l, s, others[..|others| - 1], key);
    }
  }

  function RunFrom(l: Limit, s: State, calls: seq<Call>): State
    requires l.rate > 0.0
  {
    if calls == [] then s else Requested(l, RunFrom(l, s, calls[..|calls| - 1]), calls[|calls| - 1]).0
  }

  /** The wait a denied caller is told is enough: repeated no sooner, whatever others ask for and
      whatever is swept meanwhile, the request is allowed. */
  lemma WaitIsEnough(l: Limit, s: State, key: string, now: real, others: seq<Call>, later: real)
    requires l.rate > 0.0 && l.burst >= 1
    requires forall i :: 0 <= i < |others| ==> others[i].key != key
    requires Requested(l, s, Call(key, now)).1.Denied?
    requires later >= now + Requested(l, s, Call(key, now)).1.wait
    ensures Requested(l, RunFrom(l, Requested(l, s, Call(key, now)).0, others), Call(key, later)).1 == Allowed
  {
    var after := Requested(l, s, Call(key, now)).0;
    OthersLeaveBucket(l, after, others, key);
    var swept := Swept(RunFrom(l, after, others), later);
    var b := BucketOf(l, swept.buckets, Call(key, later));
    DeniedLeaves(l, s, key, now);
    if key in swept.buckets {
      WaitRefills(l, b, Requested(l, s, Call(key, now)).1.wait, later);
    } else {
      RefilledAtOnce(l, l.burst as real, later);
    }
    DrawnFrom(l, b, later, Refilled(l, b, later));
  }

  lemma DeniedLeaves(l: Limit, s: State, key: string, now: real)
    requires l.rate > 0.0 && Requested(l, s, Call(key, now)).1.Denied?
    ensures var (after, answer) := Requested(l, s, Call(key, now));
            && SeenAt(after.buckets, key, now) && after.buckets[key].tokens < 1.0
            && answer.wait == (1.0 - after.buckets[key].tokens) / l.rate
  {
  }

  lemma WaitRefills(l: Limit, b: Bucket, wait: real, later: real)
    requires l.rate > 0.0 && l.burst >= 1 && b.tokens < 1.0 && wait == (1.0 - b.tokens) / l.rate
    requires later >= b.lastSeen + wait
    ensures Refilled(l, b, later) >= 1.0
  {
    assert Earned(l, wait) == 1.0 - b.tokens;
    var ready := b.lastSeen + wait;
    assert ready - b.lastSeen == wait;
    RefillGrows(l, b, ready, later);
  }

  /** Buckets as calls leave them. */
  ghost predicate Sane(s: State, now: real) {
    forall k :: k in s.buckets ==> s.buckets[k].tokens >= 0.0 && s.buckets[k].lastSeen <= now
  }

  lemma CallKeepsSane(l: Limit, s: State, call: Call)
    requires l.rate > 0.0 && Sane(s, call.now)
    ensures Sane(Requested(l, s, call).0, call.now)
  {
    var b := BucketOf(l, Swept(s, call.now).buckets, call);
    RefilledAtOnce(l, l.burst as real, call.now);
    if call.key in s.buckets {
      RefilledNotNegative(l, s.buckets[call.key], call.now);
    }
    hide Refilled;
  }

  lemma {:induction false} RunIsSane(l: Limit, calls: seq<Call>, now: real)
    requires l.rate > 0.0 && ClockRuns(calls) && forall i :: 0 <= i < |calls| ==> calls[i].now <= now
    ensures Sane(Run(l, calls), now)
    decreases |calls|
  {
    if calls != [] {
      var n := |calls| - 1;
      RunIsSane(l, calls[..n], calls[n].now);
      CallKeepsSane(l, Run(l, calls[..n]), calls[n]);
    }
  }

  /** And until it is over, what a denied caller is told to wait for has not come. */
  lemma {:induction false} OthersKeepBucket(l: Limit, s: State, others: seq<Call>, key: string, until: real)
    requires l.rate > 0.0 && forall i :: 0 <= i < |others| ==> others[i].key != key && others[i].now <= until
    requires key in s.buckets && until - s.buckets[key].lastSeen <= BUCKET_TTL
    ensures var t := RunFrom(l, s, others); key in t.buckets && t.buckets[key] == s.buckets[key]
    decreases |others|
  {
    if others != [] {
      OthersKeepBucket(l, s, others[..|others| - 1], key, until);
    }
  }

  lemma WaitIsWithinTtl(l: Limit, tokens: real)
    requires l.rate > 0.0 && l.burst >= 1 && l.burst as real <= l.rate * BUCKET_TTL && tokens >= 0.0
    ensures (1.0 - tokens) / l.rate <= BUCKET_TTL
  {
    var wait := (1.0 - tokens) / l.rate;
    assert wait * l.rate == 1.0 - tokens;
    assert (BUCKET_TTL - wait) * l.rate == l.rate * BUCKET_TTL - wait * l.rate >= 0.0;
  }

  lemma ShortWaitRefillsLess(l: Limit, b: Bucket, wait: real, later: real)
    requires l.rate > 0.0 && wait == (1.0 - b.tokens) / l.rate && later < b.lastSeen + wait
    ensures Refilled(l, b, later) < 1.0
  {
    assert Earned(l, wait) == 1.0 - b.tokens;
    EarnedGrowsStrictly(l, later - b.lastSeen, wait);
  }

  lemma EarnedGrowsStrictly(l: Limit, a: real, b: real)
    requires l.rate > 0.0 && a < b
    ensures Earned(l, a) < Earned(l, b)
  {
    assert (b - a) * l.rate > 0.0;
  }

  /** The wait is exact: in any reachable state, with others asking for what they like meanwhile, the request is
      allowed once the wait is over and not before. */
  lemma WaitIsExact(l: Limit, calls: seq<Call>, key: string, now: real, others: seq<Call>, later: real)
    requires l.rate > 0.0 && l.burst >= 1 && l.burst as real <= l.rate * BUCKET_TTL
    requires ClockRuns(calls) && (forall i :: 0 <= i < |calls| ==> calls[i].now <= now) && now <= later
    requires forall i :: 0 <= i < |others| ==> others[i].key != key && now <= others[i].now <= later
    requires Requested(l, Run(l, calls), Call(key, now)).1.Denied?
    ensures var (after, answer) := Requested(l, Run(l, calls), Call(key, now));
            Requested(l, RunFrom(l, after, others), Call(key, later)).1 == Allowed <==> later >= now + answer.wait
  {
    var s := Run(l, calls);
    var (after, answer) := Requested(l, s, Call(key, now));
    if later >= now + answer.wait {
      WaitIsEnough(l, s, key, now, others, later);
    } else {
      RunIsSane(l, calls, now);
      CallKeepsSane(l, s, Call(key, now));
      DeniedLeaves(l, s, key, now);
      var b := after.buckets[key];
      WaitIsWithinTtl(l, b.tokens);
      OthersKeepBucket(l, after, others, key, later);
      ShortWaitRefillsLess(l, b, answer.wait, later);
      hide Refilled, Run, RunFrom;
    }
  }
}
