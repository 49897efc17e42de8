/** How many calls the evicting store admits over any window of any run. */
module RateLimitAdmission {
  import opened RateLimitSpec
  import opened RateLimitGuarantees
  import opened RateLimitExact

  ghost function AdmittedFor(calls: seq<Call>, ds: seq<bool>, key: string): nat
    requires |calls| == |ds|
  {
    if calls == [] then 0
    else (if calls[0].key == key && ds[0] then 1 else 0) + AdmittedFor(calls[1..], ds[1..], key)
  }

  ghost function TimesOf(calls: seq<Call>, key: string): seq<int> {
    if calls == [] then [] else (if calls[0].key == key then [calls[0].now] else []) + TimesOf(calls[1..], key)
  }

  /** In the never-evicting store a key's calls run on its own bucket. */
  lemma {:induction false} AdmittedFromOwnBucket(st: Store, calls: seq<Call>, rules: Rules, key: string, b: Bucket)
    requires match TimesOf(calls, key) case times => times != [] ==> b == BucketFor(st.limiters, key, rules(key), times[0])
    ensures AdmittedFor(calls, Decisions(NEVER, st, calls, rules), key) == Admitted(b, TimesOf(calls, key))
    decreases |calls|
  {
    if calls != [] {
      var c := calls[0];
      var next := AfterStoreAllow(NEVER, st, c.key, rules(c.key), c.now);
      var ds := Decisions(NEVER, st, calls, rules);
      assert ds[1..] == Decisions(NEVER, next, calls[1..], rules);
      if c.key == key {
        assert TimesOf(calls, key)[1..] == TimesOf(calls[1..], key);
        AdmittedFromOwnBucket(next, calls[1..], rules, key, AfterAllow(b, c.now));
      } else {
        assert TimesOf(calls, key) == TimesOf(calls[1..], key);
        AdmittedFromOwnBucket(next, calls[1..], rules, key, b);
      }
    }
  }

  ghost predicate CallsWithin(calls: seq<Call>, lo: int, hi: int) {
    forall i :: 0 <= i < |calls| ==> lo <= calls[i].now <= hi
  }

  lemma {:induction false} TimesWithin(calls: seq<Call>, key: string, lo: int, hi: int)
    requires CallsWithin(calls, lo, hi)
    ensures Within(TimesOf(calls, key), lo, hi)
  {
    if calls != [] {
      TimesWithin(calls[1..], key, lo, hi);
    }
  }

  lemma {:induction false} EntriesStayOk(st: Store, calls: seq<Call>, rules: Rules, t: int) returns (now: int)
    requires RulesOk(rules) && EntriesOk(st.limiters, rules, t) && NonDecreasing(calls, t)
    ensures EntriesOk(After(NEVER, st, calls, rules).limiters, rules, now)
    decreases |calls|
  {
    now := t;
    if calls != [] {
      AllowMeets(st.limiters, calls[0].key, rules, calls[0].now);
      var next := AfterStoreAllow(NEVER, st, calls[0].key, rules(calls[0].key), calls[0].now);
      now := EntriesStayOk(next, calls[1..], rules, calls[0].now);
    }
  }

  /**
   Whatever came before, and however often the store evicted: calls between `lo` and `hi` admit, for each key, at most
   its burst plus its rate times the window.
   */
  lemma StoreAdmissionBound(cfg: Config, before: seq<Call>, window: seq<Call>, rules: Rules, start: int, key: string,
        lo: int, hi: int)
    requires RulesOk(rules) && NonDecreasing(before + window, start)
    requires forall k :: RefillsBeforeEviction(cfg, rules(k))
    requires lo <= hi && CallsWithin(window, lo, hi)
    ensures var st := After(cfg, EmptyStore(start), before, rules);
      AdmittedFor(window, Decisions(cfg, st, window, rules), key) as real
        <= rules(key).burst + Gain(rules(key).rate, hi - lo)
    ensures var st := After(cfg, EmptyStore(start), before, rules);
      AdmittedFor(window, Decisions(cfg, st, window, rules), key) as real * 1000000000.0
        <= rules(key).burst * 1000000000.0 + rules(key).rate * (hi - lo) as real
  {
    var empty := EmptyStore(start);
    EvictionIsInvisible(cfg, before + window, rules, start);
    DecisionsSplit(cfg, empty, before, window, rules);
    DecisionsSplit(NEVER, empty, before, window, rules);
    var a, b := After(cfg, empty, before, rules), After(NEVER, empty, before, rules);
    var all := Decisions(NEVER, empty, before + window, rules);
    assert Decisions(cfg, a, window, rules) == all[|before|..] == Decisions(NEVER, b, window, rules);
    PrefixOrdered(before, window, start);
    var t := EntriesStayOk(empty, before, rules, start);
    var times := TimesOf(window, key);
    var bucket := if times == [] then NewBucket(rules(key), lo) else BucketFor(b.limiters, key, rules(key), times[0]);
    AdmittedFromOwnBucket(b, window, rules, key, bucket);
    TimesWithin(window, key, lo, hi);
    AdmissionBound(bucket, times, lo, hi);
    var n := AdmittedFor(window, Decisions(cfg, a, window, rules), key);
    BoundInBillionths(n as real, rules(key).burst, rules(key).rate, hi - lo);
  }

  lemma {:induction false} PrefixOrdered(xs: seq<Call>, ys: seq<Call>, start: int)
    requires NonDecreasing(xs + ys, start)
    ensures NonDecreasing(xs, start)
    decreases |xs|
  {
    if xs != [] {
      assert (xs + ys)[1..] == xs[1..] + ys;
      PrefixOrdered(xs[1..], ys, xs[0].now);
    }
  }

  // The bound is exact: without the refill condition it fails.

  ghost predicate WindowOk(cfg: Config, rules: Rules, start: int, before: seq<Call>, window: seq<Call>, key: string,
      lo: int, hi: int) {
    var n := AdmittedFor(window, Decisions(cfg, After(cfg, EmptyStore(start), before, rules), window, rules), key);
    n as real * 1000000000.0 <= rules(key).burst * 1000000000.0 + rules(key).rate * (hi - lo) as real
  }

  /** Every window of every run stays within burst plus rate times its length. */
  ghost predicate Bounded(cfg: Config, rules: Rules, start: int) {
    forall before, window, key, lo, hi ::
      NonDecreasing(before + window, start) && lo <= hi && CallsWithin(window, lo, hi) ==>
      WindowOk(cfg, rules, start, before, window, key, lo, hi)
  }

  lemma {:induction false} AdmittedForAppend(xs: seq<Call>, ys: seq<Call>, ds: seq<bool>, es: seq<bool>, key: string)
    requires |xs| == |ds| && |ys| == |es|
    ensures AdmittedFor(xs + ys, ds + es, key) == AdmittedFor(xs, ds, key) + AdmittedFor(ys, es, key)
    decreases |xs|
  {
    if xs == [] {
      assert xs + ys == ys && ds + es == es;
    } else {
      assert (xs + ys)[1..] == xs[1..] + ys && (ds + es)[1..] == ds[1..] + es;
      AdmittedForAppend(xs[1..], ys, ds[1..], es, key);
    }
  }

  lemma {:induction false} FullBurstCounts(key: string, now: int, n: nat, ds: seq<bool>)
    requires |ds| == n && AllAdmitted(ds)
    ensures AdmittedFor(Burst(key, now, n), ds, key) == n
    decreases n
  {
    if n > 0 {
      var calls := Burst(key, now, n);
      assert calls[0] == Call(key, now) && calls[1..] == Burst(key, now, n - 1);
      FullBurstCounts(key, now, n - 1, ds[1..]);
    }
  }

  lemma {:induction false} BurstWithin(key: string, now: int, n: nat)
    ensures CallsWithin(Burst(key, now, n), now, now)
  {
    if n > 0 { BurstWithin(key, now, n - 1); }
  }

  /** Two full bursts either side of an eviction are admitted completely. */
  lemma BothBurstsAdmitted(cfg: Config, key: string, rules: Rules, n: nat, start: int, t0: int, first: seq<Call>,
      second: seq<Call>)
    requires rules(key).burst == n as real && n > 0
    requires cfg.entryTTL > 0 && cfg.cleanupInterval > 0 && t0 == start + cfg.cleanupInterval - 1
    requires first == Burst(key, t0, n) && second == Burst(key, t0 + cfg.entryTTL + 1, n)
    ensures AdmittedFor(first + second, Decisions(cfg, EmptyStore(start), first + second, rules), key) == 2 * n
  {
    var st := AfterFirstBurst(cfg, key, rules, n, start, t0, second);
    FirstBurstSpends(cfg, EmptyStore(start), key, rules, t0, n);
    EvictingStoreAdmitsAgain(cfg, st, key, rules, t0, n);
    var ds, es := Decisions(cfg, EmptyStore(start), first, rules), Decisions(cfg, st, second, rules);
    FullBurstCounts(key, t0, n, ds);
    FullBurstCounts(key, t0 + cfg.entryTTL + 1, n, es);
    AdmittedForAppend(first, second, ds, es, key);
  }

  /** Twice the burst in a window that earns less than one burst. */
  lemma SlowRefillBreaksTheBound(cfg: Config, key: string, rules: Rules, n: nat, start: int)
    requires rules(key).rate > 0.0 && rules(key).burst == n as real && n > 0
    requires !RefillsBeforeEviction(cfg, rules(key))
    ensures !Bounded(cfg, rules, start)
  {
    var t0 := start + cfg.cleanupInterval - 1;
    var t1 := t0 + cfg.entryTTL + 1;
    var first, second := Burst(key, t0, n), Burst(key, t1, n);
    var before, window: seq<Call> := [], first + second;
    BurstsAreOrdered(key, t0, t1, n, n, start);
    BurstWithin(key, t0, n);
    BurstWithin(key, t1, n);
    BothBurstsAdmitted(cfg, key, rules, n, start, t0, first, second);
    assert before + window == window;
    BoundInBillionths((2 * n) as real, rules(key).burst, rules(key).rate, t1 - t0);
    assert !WindowOk(cfg, rules, start, before, window, key, t0, t1);
  }

  /**
   For configured (integer) rules, the evicting store admits at most burst plus rate times the window in every window of
   every run exactly when every bucket refills completely before it can be evicted.
   */
  lemma AdmissionBoundExactly(cfg: Config, rates: string -> int, bursts: string -> int, start: int)
    requires forall k :: rates(k) > 0 && bursts(k) > 0
    ensures var rules := (k: string) => NewRule(rates(k), bursts(k));
      Bounded(cfg, rules, start) <==> forall k :: RefillsBeforeEviction(cfg, rules(k))
  {
    var rules := (k: string) => NewRule(rates(k), bursts(k));
    if forall k :: RefillsBeforeEviction(cfg, rules(k)) {
      forall before, window, key, lo, hi |
          NonDecreasing(before + window, start) && lo <= hi && CallsWithin(window, lo, hi)
        ensures WindowOk(cfg, rules, start, before, window, key, lo, hi)
      {
        StoreAdmissionBound(cfg, before, window, rules, start, key, lo, hi);
      }
    } else {
      var k :| !RefillsBeforeEviction(cfg, rules(k));
      SlowRefillBreaksTheBound(cfg, k, rules, bursts(k), start);
    }
  }
}
