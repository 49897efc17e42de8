/**
 The token-bucket limiter with its evicting store (gateway/internal/middleware/ratelimit.go), as functions on values.
 Times and durations are integer nanoseconds, tokens are reals.
 */
module RateLimitSpec {
  import opened Prelude

  datatype Rule = Rule(rate: real, burst: real) {
    predicate Enabled() {
      rate > 0.0 && burst > 0.0
    }
  }

  /** Rules are configured with integers. */
  function NewRule(ratePerSecond: int, burst: int): Rule {
    Rule(ratePerSecond as real, burst as real)
  }

  datatype Bucket = Bucket(rate: real, capacity: real, tokens: real, lastRefill: int)

  datatype Entry = Entry(bucket: Bucket, lastSeen: int)

  type Limiters = map<string, Entry>

  datatype Config = Config(entryTTL: int, cleanupInterval: int)

  datatype Store = Store(limiters: Limiters, lastCleanup: int)

  /** Tokens gained over a duration. */
  function Gain(rate: real, d: int): real {
    (d as real / 1000000000.0) * rate
  }

  function NewBucket(rule: Rule, now: int): Bucket {
    Bucket(rule.rate, rule.burst, rule.burst, now)
  }

  function Refill(b: Bucket, now: int): Bucket {
    if now - b.lastRefill > 0 then
      var tokens := b.tokens + Gain(b.rate, now - b.lastRefill);
      b.(tokens := if tokens > b.capacity then b.capacity else tokens, lastRefill := now)
    else b
  }

  function Allowed(b: Bucket, now: int): bool {
    Refill(b, now).tokens >= 1.0
  }

  function AfterAllow(b: Bucket, now: int): Bucket {
    var r := Refill(b, now);
    if r.tokens < 1.0 then r else r.(tokens := r.tokens - 1.0)
  }

  predicate CleanupDue(cfg: Config, st: Store, now: int) {
    cfg.entryTTL > 0 && cfg.cleanupInterval > 0 && now - st.lastCleanup >= cfg.cleanupInterval
  }

  /** Entries idle for longer than the TTL. */
  function Stale(cfg: Config, limiters: Limiters, now: int): set<string> {
    set k | k in limiters && now - limiters[k].lastSeen > cfg.entryTTL
  }

  function Cleanup(cfg: Config, st: Store, now: int): Store {
    if CleanupDue(cfg, st, now) then Store(st.limiters - Stale(cfg, st.limiters, now), now) else st
  }

  /** The bucket a call on `key` meets, before its own refill. */
  function BucketFor(limiters: Limiters, key: string, rule: Rule, now: int): Bucket {
    if key in limiters then limiters[key].bucket else NewBucket(rule, now)
  }

  function StoreAllows(cfg: Config, st: Store, key: string, rule: Rule, now: int): bool {
    Allowed(BucketFor(Cleanup(cfg, st, now).limiters, key, rule, now), now)
  }

  function AfterStoreAllow(cfg: Config, st: Store, key: string, rule: Rule, now: int): Store {
    var clean := Cleanup(cfg, st, now);
    clean.(limiters := clean.limiters[key := Entry(AfterAllow(BucketFor(clean.limiters, key, rule, now), now), now)])
  }

  lemma GainAdds(rate: real, a: int, b: int)
    ensures Gain(rate, a) + Gain(rate, b) == Gain(rate, a + b)
  {
    var x, y := a as real / 1000000000.0, b as real / 1000000000.0;
    assert (a + b) as real / 1000000000.0 == x + y;
    assert (x + y) * rate == x * rate + y * rate;
  }

  lemma GainGrows(rate: real, a: int, b: int)
    requires rate >= 0.0 && a <= b
    ensures Gain(rate, a) <= Gain(rate, b)
  {
    var x, y := a as real / 1000000000.0, b as real / 1000000000.0;
    assert x <= y;
    assert (y - x) * rate >= 0.0;
    assert y * rate == x * rate + (y - x) * rate;
  }

  /** In billionths of a token, a duration in nanoseconds gains the rate times the duration. */
  lemma GainInBillionths(rate: real, d: int)
    ensures Gain(rate, d) * 1000000000.0 == rate * d as real
  {
    var x := d as real / 1000000000.0;
    assert x * 1000000000.0 == d as real;
    assert (x * rate) * 1000000000.0 == (x * 1000000000.0) * rate;
  }

  lemma BoundInBillionths(n: real, burst: real, rate: real, d: int)
    ensures n <= burst + Gain(rate, d) <==> n * 1000000000.0 <= burst * 1000000000.0 + rate * d as real
  {
    GainInBillionths(rate, d);
  }

  // One bucket.

  ghost predicate BucketOk(b: Bucket) {
    b.rate >= 0.0 && 0.0 <= b.tokens <= b.capacity
  }

  /** A call keeps 0 <= tokens <= capacity, whatever the clock does. */
  lemma AllowKeepsBucketOk(b: Bucket, now: int)
    requires BucketOk(b)
    ensures BucketOk(Refill(b, now)) && BucketOk(AfterAllow(b, now))
  {
    if now > b.lastRefill {
      GainGrows(b.rate, 0, now - b.lastRefill);
    }
  }

  /** Billionths of a token in the bucket once it is refilled, the cap aside; a clock that goes back adds nothing. */
  function Supply(b: Bucket, now: int): real {
    b.tokens * 1000000000.0 + (if now > b.lastRefill then b.rate * (now - b.lastRefill) as real else 0.0)
  }

  /** A call is admitted exactly when a whole token is there, and takes it. */
  lemma AllowedExactly(b: Bucket, now: int)
    requires BucketOk(b)
    ensures Allowed(b, now) <==> b.capacity >= 1.0 && Supply(b, now) >= 1000000000.0
    ensures var after := AfterAllow(b, now);
      && after.rate == b.rate && after.capacity == b.capacity && after.lastRefill == Max(b.lastRefill, now)
      && (after.tokens + (if Allowed(b, now) then 1.0 else 0.0)) * 1000000000.0
        == if Supply(b, now) > b.capacity * 1000000000.0 then b.capacity * 1000000000.0 else Supply(b, now)
  {
    GainInBillionths(b.rate, now - b.lastRefill);
  }

  /** Capped refill composes. */
  lemma RefillComposes(b: Bucket, t: int, now: int)
    requires BucketOk(b) && b.lastRefill <= t <= now
    ensures Refill(Refill(b, t), now) == Refill(b, now)
  {
    if b.lastRefill < t < now {
      GainAdds(b.rate, t - b.lastRefill, now - t);
      GainGrows(b.rate, 0, now - t);
    }
  }

  ghost function RunBucket(b: Bucket, times: seq<int>): Bucket
    decreases |times|
  {
    if times == [] then b else RunBucket(AfterAllow(b, times[0]), times[1..])
  }

  ghost function Admitted(b: Bucket, times: seq<int>): nat
    decreases |times|
  {
    if times == [] then 0
    else (if Allowed(b, times[0]) then 1 else 0) + Admitted(AfterAllow(b, times[0]), times[1..])
  }

  /** Tokens are conserved: what is admitted and what is left came from the start or from the refill. */
  lemma {:induction false} AdmissionBudget(b: Bucket, times: seq<int>)
    requires BucketOk(b)
    ensures var e := RunBucket(b, times);
      && BucketOk(e) && e.lastRefill >= b.lastRefill && e.rate == b.rate && e.capacity == b.capacity
      && Admitted(b, times) as real + e.tokens <= b.tokens + Gain(b.rate, e.lastRefill - b.lastRefill)
    decreases |times|
  {
    if times == [] {
      assert Gain(b.rate, 0) == 0.0;
    } else {
      var next := AfterAllow(b, times[0]);
      AllowKeepsBucketOk(b, times[0]);
      AdmissionBudget(next, times[1..]);
      var e := RunBucket(next, times[1..]);
      GainAdds(b.rate, next.lastRefill - b.lastRefill, e.lastRefill - next.lastRefill);
      assert Gain(b.rate, 0) == 0.0;
    }
  }

  ghost predicate Within(times: seq<int>, lo: int, hi: int) {
    forall k :: 0 <= k < |times| ==> lo <= times[k] <= hi
  }

  lemma {:induction false} LastRefillStaysWithin(b: Bucket, times: seq<int>, lo: int, hi: int)
    requires Within(times, lo, hi)
    ensures RunBucket(b, times).lastRefill <= Max(b.lastRefill, hi)
    decreases |times|
  {
    if times != [] {
      LastRefillStaysWithin(AfterAllow(b, times[0]), times[1..], lo, hi);
    }
  }

  /** Over any window, in any order of clock readings, a bucket admits at most burst + rate * window calls. */
  lemma AdmissionBound(b: Bucket, times: seq<int>, lo: int, hi: int)
    requires BucketOk(b) && Within(times, lo, hi) && lo <= hi
    ensures Admitted(b, times) as real <= b.capacity + Gain(b.rate, hi - lo)
    ensures Admitted(b, times) as real * 1000000000.0 <= b.capacity * 1000000000.0 + b.rate * (hi - lo) as real
  {
    GainGrows(b.rate, 0, hi - lo);
    assert Gain(b.rate, 0) == 0.0;
    if times != [] { AdmissionBoundFrom(b, times, lo, hi); }
    BoundInBillionths(Admitted(b, times) as real, b.capacity, b.rate, hi - lo);
  }

  lemma AdmissionBoundFrom(b: Bucket, times: seq<int>, lo: int, hi: int)
    requires BucketOk(b) && Within(times, lo, hi) && lo <= hi && times != []
    ensures Admitted(b, times) as real <= b.capacity + Gain(b.rate, hi - lo)
  {
    GainGrows(b.rate, 0, hi - lo);
    assert Gain(b.rate, 0) == 0.0;
    var start := if b.lastRefill < times[0] then Refill(b, times[0]) else b;
    AllowKeepsBucketOk(b, times[0]);
    assert Allowed(start, times[0]) == Allowed(b, times[0]) && AfterAllow(start, times[0]) == AfterAllow(b, times[0]);
    assert Admitted(start, times) == Admitted(b, times);
    AdmissionBudget(start, times);
    LastRefillStaysWithin(start, times, lo, hi);
    var e := RunBucket(start, times);
    if e.lastRefill - start.lastRefill > 0 {
      GainGrows(b.rate, e.lastRefill - start.lastRefill, hi - lo);
    }
  }
}
