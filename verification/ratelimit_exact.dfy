/** When eviction can be noticed: exactly when some rule refills too slowly. */
module RateLimitExact {
  import opened RateLimitSpec
  import opened RateLimitGuarantees

  /** `n` calls on one key at one time. */
  function Burst(key: string, now: int, n: nat): (calls: seq<Call>)
    ensures |calls| == n
  {
    if n == 0 then [] else [Call(key, now)] + Burst(key, now, n - 1)
  }

  ghost predicate Holds(limiters: Limiters, key: string, rule: Rule, tokens: real, now: int) {
    key in limiters && limiters[key] == Entry(Bucket(rule.rate, rule.burst, tokens, now), now)
  }

  /** No cleanup happens during a burst. */
  ghost predicate Calm(cfg: Config, st: Store, now: int) {
    !CleanupDue(cfg, st, now)
  }

  ghost predicate AllAdmitted(ds: seq<bool>) {
    forall i :: 0 <= i < |ds| ==> ds[i]
  }

  lemma AllAdmittedCons(d: bool, rest: seq<bool>)
    ensures AllAdmitted([d] + rest) <==> d && AllAdmitted(rest)
  {
    assert AllAdmitted([d] + rest) ==> ([d] + rest)[0];
    assert forall i :: 0 <= i < |rest| ==> rest[i] == ([d] + rest)[i + 1];
  }

  lemma BurstUnfolds(cfg: Config, st: Store, key: string, rules: Rules, now: int, n: nat)
    requires n > 0
    ensures var next := AfterStoreAllow(cfg, st, key, rules(key), now);
      var rest := Decisions(cfg, next, Burst(key, now, n - 1), rules);
      && Decisions(cfg, st, Burst(key, now, n), rules) == [StoreAllows(cfg, st, key, rules(key), now)] + rest
      && After(cfg, st, Burst(key, now, n), rules) == After(cfg, next, Burst(key, now, n - 1), rules)
      && (AllAdmitted(Decisions(cfg, st, Burst(key, now, n), rules)) <==>
            StoreAllows(cfg, st, key, rules(key), now) && AllAdmitted(rest))
  {
    var calls := Burst(key, now, n);
    assert calls[0] == Call(key, now) && calls[1..] == Burst(key, now, n - 1);
    var rest := Decisions(cfg, AfterStoreAllow(cfg, st, key, rules(key), now), calls[1..], rules);
    AllAdmittedCons(StoreAllows(cfg, st, key, rules(key), now), rest);
  }

  /** A burst is admitted in full exactly when the bucket holds that many tokens, and is paid for one by one. */
  lemma {:induction false} BurstSpends(cfg: Config, st: Store, key: string, rules: Rules, tokens: real, now: int,
        n: nat)
    requires Calm(cfg, st, now) && Holds(st.limiters, key, rules(key), tokens, now) && tokens >= 0.0
    ensures AllAdmitted(Decisions(cfg, st, Burst(key, now, n), rules)) <==> tokens >= n as real
    ensures tokens >= n as real ==>
      var e := After(cfg, st, Burst(key, now, n), rules);
      e.lastCleanup == st.lastCleanup && Holds(e.limiters, key, rules(key), tokens - n as real, now)
    decreases n
  {
    if n > 0 {
      BurstUnfolds(cfg, st, key, rules, now, n);
      assert (n - 1) as real == n as real - 1.0;
      if tokens >= 1.0 {
        BurstSpends(cfg, AfterStoreAllow(cfg, st, key, rules(key), now), key, rules, tokens - 1.0, now, n - 1);
      }
    }
  }

  /** The same burst on a key the store does not hold. */
  lemma FirstBurstSpends(cfg: Config, st: Store, key: string, rules: Rules, now: int, n: nat)
    requires Calm(cfg, st, now) && key !in st.limiters && n > 0 && rules(key).burst == n as real
    ensures AllAdmitted(Decisions(cfg, st, Burst(key, now, n), rules))
    ensures var e := After(cfg, st, Burst(key, now, n), rules);
      e.lastCleanup == st.lastCleanup && Holds(e.limiters, key, rules(key), 0.0, now)
  {
    BurstUnfolds(cfg, st, key, rules, now, n);
    assert (n - 1) as real == n as real - 1.0;
    BurstSpends(cfg, AfterStoreAllow(cfg, st, key, rules(key), now), key, rules, n as real - 1.0, now, n - 1);
  }

  lemma {:induction false} DecisionsSplit(cfg: Config, st: Store, xs: seq<Call>, ys: seq<Call>, rules: Rules)
    ensures Decisions(cfg, st, xs + ys, rules) ==
        Decisions(cfg, st, xs, rules) + Decisions(cfg, After(cfg, st, xs, rules), ys, rules)
    ensures After(cfg, st, xs + ys, rules) == After(cfg, After(cfg, st, xs, rules), ys, rules)
    decreases |xs|
  {
    if xs == [] {
      assert xs + ys == ys;
    } else {
      assert (xs + ys)[1..] == xs[1..] + ys;
      DecisionsSplit(cfg, AfterStoreAllow(cfg, st, xs[0].key, rules(xs[0].key), xs[0].now), xs[1..], ys, rules);
    }
  }

  lemma {:induction false} BurstsAreOrdered(key: string, t0: int, t1: int, n: nat, m: nat, start: int)
    requires start <= t0 <= t1
    ensures NonDecreasing(Burst(key, t0, n) + Burst(key, t1, m), start)
    decreases n, m
  {
    var calls := Burst(key, t0, n) + Burst(key, t1, m);
    if n > 0 {
      assert calls[1..] == Burst(key, t0, n - 1) + Burst(key, t1, m);
      BurstsAreOrdered(key, t0, t1, n - 1, m, t0);
    } else if m > 0 {
      assert calls == Burst(key, t1, m) && calls[1..] == Burst(key, t1, 0) + Burst(key, t1, m - 1);
      BurstsAreOrdered(key, t1, t1, 0, m - 1, t1);
    }
  }

  lemma {:induction false} CallBetween(key: string, other: string, t0: int, t1: int, t2: int, n: nat, m: nat, start: int)
    requires start <= t0 <= t1 <= t2
    ensures NonDecreasing(Burst(key, t0, n) + [Call(other, t1)] + Burst(key, t2, m), start)
    decreases n
  {
    var calls := Burst(key, t0, n) + [Call(other, t1)] + Burst(key, t2, m);
    if n > 0 {
      assert calls[1..] == Burst(key, t0, n - 1) + [Call(other, t1)] + Burst(key, t2, m);
      CallBetween(key, other, t0, t1, t2, n - 1, m, t0);
    } else {
      assert calls[0] == Call(other, t1) && calls[1..] == Burst(key, t2, 0) + Burst(key, t2, m);
      BurstsAreOrdered(key, t2, t2, 0, m, t1);
    }
  }

  /** The evicting store forgets the spent bucket and admits the second burst in full. */
  lemma EvictingStoreAdmitsAgain(cfg: Config, st: Store, key: string, rules: Rules, t0: int, n: nat)
    requires n > 0 && rules(key).burst == n as real
    requires Holds(st.limiters, key, rules(key), 0.0, t0) && CleanupDue(cfg, st, t0 + cfg.entryTTL + 1)
    ensures AllAdmitted(Decisions(cfg, st, Burst(key, t0 + cfg.entryTTL + 1, n), rules))
  {
    var t1 := t0 + cfg.entryTTL + 1;
    CleanFirst(cfg, st, key, rules, t1, n);
    FirstBurstSpends(cfg, Cleanup(cfg, st, t1), key, rules, t1, n);
  }

  /** A bucket that a cleanup leaves in place and that has refilled to less than the burst denies a call of it. */
  lemma ShortBucketDenies(cfg: Config, st: Store, key: string, rules: Rules, now: int, tokens: real, n: nat)
    requires n > 0 && 0.0 <= tokens < n as real
    requires key in Cleanup(cfg, st, now).limiters
    requires Refill(Cleanup(cfg, st, now).limiters[key].bucket, now)
      == Bucket(rules(key).rate, rules(key).burst, tokens, now)
    ensures !AllAdmitted(Decisions(cfg, st, Burst(key, now, n), rules))
  {
    var clean := Cleanup(cfg, st, now);
    var refilled := clean.(limiters := clean.limiters[key := Entry(Refill(clean.limiters[key].bucket, now), now)]);
    assert AfterStoreAllow(cfg, st, key, rules(key), now) == AfterStoreAllow(cfg, refilled, key, rules(key), now);
    BurstUnfolds(cfg, st, key, rules, now, n);
    BurstUnfolds(cfg, refilled, key, rules, now, n);
    BurstSpends(cfg, refilled, key, rules, tokens, now, n);
  }

  /** The never-evicting store has not refilled enough and denies a call of the second burst. */
  lemma KeepingStoreDenies(cfg: Config, st: Store, key: string, rules: Rules, t0: int, n: nat)
    requires rules(key).rate > 0.0 && rules(key).burst == n as real && n > 0
    requires !RefillsBeforeEviction(cfg, rules(key))
    requires Holds(st.limiters, key, rules(key), 0.0, t0)
    ensures !AllAdmitted(Decisions(NEVER, st, Burst(key, t0 + cfg.entryTTL + 1, n), rules))
  {
    GainIsPositive(rules(key).rate, cfg.entryTTL + 1);
    ShortBucketDenies(NEVER, st, key, rules, t0 + cfg.entryTTL + 1, Gain(rules(key).rate, cfg.entryTTL + 1), n);
  }

  lemma GainIsPositive(rate: real, d: int)
    requires rate > 0.0 && d >= 0
    ensures Gain(rate, d) >= 0.0
  {
    GainGrows(rate, 0, d);
    assert Gain(rate, 0) == 0.0;
  }

  lemma SuffixesDiffer(xs: seq<bool>, ys: seq<bool>, xs': seq<bool>, ys': seq<bool>)
    requires |xs| == |xs'| && AllAdmitted(ys) && !AllAdmitted(ys') && |ys| == |ys'|
    ensures xs + ys != xs' + ys'
  {
    var i :| 0 <= i < |ys'| && !ys'[i];
    assert (xs + ys)[|xs| + i] != (xs' + ys')[|xs| + i];
  }

  /** A first burst on the empty store empties the bucket; what follows starts from there. */
  lemma AfterFirstBurst(cfg: Config, key: string, rules: Rules, n: nat, start: int, t0: int, second: seq<Call>)
    returns (st: Store)
    requires Calm(cfg, EmptyStore(start), t0) && n > 0 && rules(key).burst == n as real
    ensures st.lastCleanup == start && Holds(st.limiters, key, rules(key), 0.0, t0)
    ensures Decisions(cfg, EmptyStore(start), Burst(key, t0, n) + second, rules)
      == Decisions(cfg, EmptyStore(start), Burst(key, t0, n), rules) + Decisions(cfg, st, second, rules)
  {
    st := After(cfg, EmptyStore(start), Burst(key, t0, n), rules);
    FirstBurstSpends(cfg, EmptyStore(start), key, rules, t0, n);
    DecisionsSplit(cfg, EmptyStore(start), Burst(key, t0, n), second, rules);
  }

  /** Two full bursts and nothing else in between. */
  lemma UndisturbedRun(cfg: Config, key: string, rules: Rules, n: nat, start: int, t0: int, first: seq<Call>,
      second: seq<Call>) returns (left: seq<bool>)
    requires rules(key).burst == n as real && n > 0
    requires cfg.entryTTL > 0 && cfg.cleanupInterval > 0 && t0 == start + cfg.cleanupInterval - 1
    requires first == Burst(key, t0, n) && second == Burst(key, t0 + cfg.entryTTL + 1, n)
    ensures Decisions(cfg, EmptyStore(start), first + second, rules)
      == Decisions(cfg, EmptyStore(start), first, rules) + left
    ensures |left| == n && AllAdmitted(left)
  {
    var st := AfterFirstBurst(cfg, key, rules, n, start, t0, second);
    EvictingStoreAdmitsAgain(cfg, st, key, rules, t0, n);
    left := Decisions(cfg, st, second, rules);
  }

  /** Empty the bucket just before a cleanup is due, wait just past the TTL, and ask for a full burst again. */
  lemma SecondBurstDiffers(cfg: Config, key: string, rules: Rules, n: nat, start: int, t0: int, first: seq<Call>,
        second: seq<Call>)
    requires rules(key).rate > 0.0 && rules(key).burst == n as real && n > 0
    requires !RefillsBeforeEviction(cfg, rules(key))
    requires t0 == start + cfg.cleanupInterval - 1
    requires first == Burst(key, t0, n) && second == Burst(key, t0 + cfg.entryTTL + 1, n)
    ensures Decisions(cfg, EmptyStore(start), first + second, rules) !=
        Decisions(NEVER, EmptyStore(start), first + second, rules)
  {
    var a := AfterFirstBurst(cfg, key, rules, n, start, t0, second);
    var b := AfterFirstBurst(NEVER, key, rules, n, start, t0, second);
    EvictingStoreAdmitsAgain(cfg, a, key, rules, t0, n);
    KeepingStoreDenies(cfg, b, key, rules, t0, n);
    SuffixesDiffer(Decisions(cfg, EmptyStore(start), first, rules), Decisions(cfg, a, second, rules),
                   Decisions(NEVER, EmptyStore(start), first, rules), Decisions(NEVER, b, second, rules));
  }

  /** A rule that refills too slowly gives eviction away. */
  lemma SlowRefillShowsEviction(cfg: Config, key: string, rules: Rules, n: nat, start: int)
    requires rules(key).rate > 0.0 && rules(key).burst == n as real && n > 0
    requires !RefillsBeforeEviction(cfg, rules(key))
    ensures !Invisible(cfg, rules, start)
  {
    var t0 := start + cfg.cleanupInterval - 1;
    var first, second := Burst(key, t0, n), Burst(key, t0 + cfg.entryTTL + 1, n);
    var calls := first + second;
    BurstsAreOrdered(key, t0, t0 + cfg.entryTTL + 1, n, n, start);
    SecondBurstDiffers(cfg, key, rules, n, start, t0, first, second);
    assert NonDecreasing(calls, start);
  }

  /** Cleaning up ahead of a burst makes no difference to it. */
  lemma CleanFirst(cfg: Config, st: Store, key: string, rules: Rules, now: int, n: nat)
    requires n > 0 && CleanupDue(cfg, st, now)
    ensures Decisions(cfg, st, Burst(key, now, n), rules) == Decisions(cfg, Cleanup(cfg, st, now), Burst(key, now, n), rules)
  {
    var clean := Cleanup(cfg, st, now);
    assert Cleanup(cfg, clean, now) == clean;
    assert Burst(key, now, n)[0] == Call(key, now);
  }

  ghost predicate Invisible(cfg: Config, rules: Rules, start: int) {
    forall calls :: NonDecreasing(calls, start) ==>
      Decisions(cfg, EmptyStore(start), calls, rules) == Decisions(NEVER, EmptyStore(start), calls, rules)
  }

  /**
   For configured (integer) rules, eviction is invisible exactly when every bucket refills completely within the
   shortest idle time that gets it evicted, one nanosecond more than the TTL.
   */
  lemma EvictionInvisibleExactly(cfg: Config, rates: string -> int, bursts: string -> int, start: int)
    requires forall k :: rates(k) > 0 && bursts(k) > 0
    ensures var rules := (k: string) => NewRule(rates(k), bursts(k));
      Invisible(cfg, rules, start) <==> forall k :: RefillsBeforeEviction(cfg, rules(k))
  {
    var rules := (k: string) => NewRule(rates(k), bursts(k));
    if forall k :: RefillsBeforeEviction(cfg, rules(k)) {
      forall calls | NonDecreasing(calls, start)
        ensures Decisions(cfg, EmptyStore(start), calls, rules) == Decisions(NEVER, EmptyStore(start), calls, rules)
      {
        EvictionIsInvisible(cfg, calls, rules, start);
      }
    } else {
      var k :| !RefillsBeforeEviction(cfg, rules(k));
      SlowRefillShowsEviction(cfg, k, rules, bursts(k), start);
    }
  }
}
