/**
 What a waiting client gets (gateway/internal/middleware/ratelimit.go:180-197): the lower bounds beside the upper ones. All
 quantities are in billionths of a token, so that rate times nanoseconds is a gain.
 */
module RateLimitRate {
  import opened RateLimitSpec
  import opened RateLimitGuarantees

  /** A bucket refills before it is evicted where the rule earns its burst in the TTL and one nanosecond. */
  lemma RefillsExactly(cfg: Config, rule: Rule)
    ensures RefillsBeforeEviction(cfg, rule) <==>
      cfg.entryTTL <= 0 || cfg.cleanupInterval <= 0 || rule.rate * (cfg.entryTTL + 1) as real >= rule.burst * 1000000000.0
  {
    GainInBillionths(rule.rate, cfg.entryTTL + 1);
  }

  // A client that waits.

  /** In d nanoseconds the rule earns a token. */
  predicate EarnsOne(rate: real, d: int) {
    rate * d as real >= 1000000000.0
  }

  /** A bucket that has had the time to earn a token admits. */
  lemma EarnedIsAdmitted(b: Bucket, now: int)
    requires BucketOk(b) && b.capacity >= 1.0 && EarnsOne(b.rate, now - b.lastRefill)
    ensures Allowed(b, now) && BucketOk(AfterAllow(b, now)) && AfterAllow(b, now).lastRefill == now
  {
    assert now <= b.lastRefill ==> b.rate * (b.lastRefill - now) as real >= 0.0;
    AllowedExactly(b, now);
    AllowKeepsBucketOk(b, now);
  }

  /** The calls on a key wait for each other; other keys may call at any time. */
  ghost predicate KeyWaits(calls: seq<Call>, key: string, rate: real) {
    forall i, j :: 0 <= i < j < |calls| && calls[i].key == key && calls[j].key == key ==>
      EarnsOne(rate, calls[j].now - calls[i].now)
  }

  ghost predicate KeyAdmitted(calls: seq<Call>, key: string, ds: seq<bool>) {
    |ds| == |calls| && forall i :: 0 <= i < |calls| && calls[i].key == key ==> ds[i]
  }

  /** The key's entry, if it has one, is a token's time behind every call to come. */
  ghost predicate Behind(st: Store, calls: seq<Call>, key: string, rule: Rule) {
    key in st.limiters ==>
      var b := st.limiters[key].bucket;
      && BucketOk(b) && b.rate == rule.rate && b.capacity == rule.burst
      && forall i :: 0 <= i < |calls| && calls[i].key == key ==>
           EarnsOne(rule.rate, calls[i].now - b.lastRefill)
  }

  lemma OneCallWaits(cfg: Config, st: Store, calls: seq<Call>, rules: Rules, key: string)
    requires calls != [] && rules(key).rate >= 0.0 && rules(key).burst >= 1.0
    requires KeyWaits(calls, key, rules(key).rate) && Behind(st, calls, key, rules(key))
    ensures var c := calls[0];
      && (c.key == key ==> StoreAllows(cfg, st, key, rules(key), c.now))
      && Behind(AfterStoreAllow(cfg, st, c.key, rules(c.key), c.now), calls[1..], key, rules(key))
  {
    var c, tail := calls[0], calls[1..];
    assert forall i :: 0 <= i < |tail| ==> tail[i] == calls[i + 1];
    if c.key == key {
      var clean := Cleanup(cfg, st, c.now).limiters;
      if key in clean { EarnedIsAdmitted(clean[key].bucket, c.now); }
    }
  }

  lemma {:induction false} WaitingCalls(cfg: Config, st: Store, calls: seq<Call>, rules: Rules, key: string)
    requires rules(key).rate >= 0.0 && rules(key).burst >= 1.0
    requires KeyWaits(calls, key, rules(key).rate) && Behind(st, calls, key, rules(key))
    ensures KeyAdmitted(calls, key, Decisions(cfg, st, calls, rules))
    decreases |calls|
  {
    if calls != [] {
      var c := calls[0];
      OneCallWaits(cfg, st, calls, rules, key);
      assert forall i :: 0 <= i < |calls| - 1 ==> calls[1..][i] == calls[i + 1];
      WaitingCalls(cfg, AfterStoreAllow(cfg, st, c.key, rules(c.key), c.now), calls[1..], rules, key);
    }
  }

  /**
   A client that waits one token's time between its calls is never denied, whatever other keys do, in whatever order, and
   whatever the store evicts.
   */
  lemma WaitingIsNeverDenied(cfg: Config, calls: seq<Call>, rules: Rules, key: string, start: int)
    requires rules(key).rate >= 0.0 && rules(key).burst >= 1.0 && KeyWaits(calls, key, rules(key).rate)
    ensures KeyAdmitted(calls, key, Decisions(cfg, EmptyStore(start), calls, rules))
  {
    WaitingCalls(cfg, EmptyStore(start), calls, rules, key);
  }

  // A client that keeps asking.

  /** Calls come in order, and between two of them the bucket earns at most one token and never overflows. */
  ghost predicate KeepsAsking(rate: real, capacity: real, times: seq<int>, since: int)
    decreases |times|
  {
    times != [] ==>
      var earned := rate * (times[0] - since) as real;
      && since <= times[0] && earned <= 1000000000.0 && earned <= (capacity - 1.0) * 1000000000.0
      && KeepsAsking(rate, capacity, times[1..], times[0])
  }

  ghost predicate Emptied(b: Bucket, rate: real, capacity: real, since: int) {
    BucketOk(b) && b.tokens < 1.0 <= capacity && b.rate == rate && b.capacity == capacity && b.lastRefill == since
  }

  lemma GainUpTo(rate: real, d: int, limit: real)
    requires rate * d as real <= limit * 1000000000.0
    ensures Gain(rate, d) <= limit
  {
    GainInBillionths(rate, d);
  }

  lemma GainsLittle(rate: real, capacity: real, times: seq<int>, since: int)
    requires times != [] && KeepsAsking(rate, capacity, times, since)
    ensures since <= times[0] && Gain(rate, times[0] - since) <= 1.0 && Gain(rate, times[0] - since) <= capacity - 1.0
    ensures KeepsAsking(rate, capacity, times[1..], times[0])
  {
    GainUpTo(rate, times[0] - since, 1.0);
    GainUpTo(rate, times[0] - since, capacity - 1.0);
  }

  lemma OneAsk(b: Bucket, rate: real, capacity: real, since: int, now: int, gain: real)
    requires Emptied(b, rate, capacity, since) && since <= now && gain == Gain(rate, now - since)
    requires gain <= 1.0 && gain <= capacity - 1.0
    ensures Emptied(AfterAllow(b, now), rate, capacity, now)
    ensures (if Allowed(b, now) then 1.0 else 0.0) + AfterAllow(b, now).tokens == b.tokens + gain
  {
    AllowKeepsBucketOk(b, now);
    assert now == since ==> gain == 0.0;
  }

  ghost function LastOf(times: seq<int>, since: int): int {
    if times == [] then since else times[|times| - 1]
  }

  /**
   From an emptied bucket such a client loses nothing: what is admitted and what is left is exactly what was there and what
   the time earned, and less than one token is left.
   */
  lemma {:induction false} AskingLosesNothing(b: Bucket, rate: real, capacity: real, times: seq<int>, since: int)
    requires Emptied(b, rate, capacity, since) && KeepsAsking(rate, capacity, times, since)
    ensures 0.0 <= RunBucket(b, times).tokens < 1.0
    ensures Admitted(b, times) as real + RunBucket(b, times).tokens == b.tokens + Gain(rate, LastOf(times, since) - since)
    decreases |times|
  {
    if times == [] {
      assert Gain(rate, 0) == 0.0;
    } else {
      GainsLittle(rate, capacity, times, since);
      OneAsk(b, rate, capacity, since, times[0], Gain(rate, times[0] - since));
      AskingLosesNothing(AfterAllow(b, times[0]), rate, capacity, times[1..], times[0]);
      GainAdds(rate, times[0] - since, LastOf(times, since) - times[0]);
    }
  }

  /** As many calls as there are whole tokens after d nanoseconds. */
  ghost predicate Served(n: nat, tokens: real, rate: real, d: int) {
    n as real * 1000000000.0 <= tokens * 1000000000.0 + rate * d as real < (n + 1) as real * 1000000000.0
  }

  /** Such a client is admitted as often as the time up to its last call earned tokens, rounded down. */
  lemma AskingIsServed(b: Bucket, times: seq<int>)
    requires Emptied(b, b.rate, b.capacity, b.lastRefill) && KeepsAsking(b.rate, b.capacity, times, b.lastRefill)
    ensures Served(Admitted(b, times), b.tokens, b.rate, LastOf(times, b.lastRefill) - b.lastRefill)
  {
    var elapsed := LastOf(times, b.lastRefill) - b.lastRefill;
    AskingLosesNothing(b, b.rate, b.capacity, times, b.lastRefill);
    RoundedDown(Admitted(b, times), RunBucket(b, times).tokens, b.tokens, b.rate, elapsed);
  }

  lemma RoundedDown(n: nat, left: real, tokens: real, rate: real, d: int)
    requires n as real + left == tokens + Gain(rate, d) && 0.0 <= left < 1.0
    ensures Served(n, tokens, rate, d)
  {
    GainInBillionths(rate, d);
  }
}
