/** When the calls on other keys cannot be noticed: two keys share nothing but the time of the last cleanup. */
module RateLimitKeys {
  import opened Prelude
  import opened RateLimitSpec
  import opened RateLimitGuarantees
  import opened RateLimitExact

  ghost function OwnMask(calls: seq<Call>, key: string): (mask: seq<bool>)
    ensures |mask| == |calls|
  {
    seq(|calls|, i requires 0 <= i < |calls| => calls[i].key == key)
  }

  /** The decisions on a key within a run of calls are those of its own calls alone. */
  ghost predicate DecidedAlone(cfg: Config, st: Store, alone: Store, calls: seq<Call>, rules: Rules, key: string) {
    Keep(Decisions(cfg, st, calls, rules), OwnMask(calls, key))
      == Decisions(cfg, alone, Keep(calls, OwnMask(calls, key)), rules)
  }

  ghost predicate Independent(cfg: Config, rules: Rules, start: int, key: string) {
    forall calls :: NonDecreasing(calls, start) ==>
      DecidedAlone(cfg, EmptyStore(start), EmptyStore(start), calls, rules, key)
  }

  lemma MaskTail(calls: seq<Call>, key: string)
    requires calls != []
    ensures OwnMask(calls, key)[1..] == OwnMask(calls[1..], key)
  {
  }

  /** One call of the run, on another key or on this one. */
  lemma AloneStep(cfg: Config, st: Store, alone: Store, calls: seq<Call>, rules: Rules, key: string)
    requires calls != []
    requires var c := calls[0];
      var next := AfterStoreAllow(cfg, st, c.key, rules(c.key), c.now);
      if c.key == key then
        && StoreAllows(cfg, st, key, rules(key), c.now) == StoreAllows(cfg, alone, key, rules(key), c.now)
        && DecidedAlone(cfg, next, AfterStoreAllow(cfg, alone, key, rules(key), c.now), calls[1..], rules, key)
      else DecidedAlone(cfg, next, alone, calls[1..], rules, key)
    ensures DecidedAlone(cfg, st, alone, calls, rules, key)
  {
    var c := calls[0];
    var next := AfterStoreAllow(cfg, st, c.key, rules(c.key), c.now);
    var mask := OwnMask(calls, key);
    MaskTail(calls, key);
    assert Decisions(cfg, st, calls, rules)[1..] == Decisions(cfg, next, calls[1..], rules);
    if c.key == key {
      assert Keep(calls, mask)[1..] == Keep(calls[1..], mask[1..]);
    } else {
      assert Keep(calls, mask) == Keep(calls[1..], mask[1..]);
    }
  }

  // A bucket that refills before it is evicted.

  lemma {:induction false} RefillingIsAlone(cfg: Config, st: Store, alone: Store, calls: seq<Call>, rules: Rules,
      key: string, t: int)
    requires RulesOk(rules) && EntriesOk(st.limiters, rules, t) && EntriesOk(alone.limiters, rules, t)
    requires NonDecreasing(calls, t) && RefillsBeforeEviction(cfg, rules(key))
    requires Meets(st.limiters, key, rules, t) == Meets(alone.limiters, key, rules, t)
    ensures DecidedAlone(cfg, st, alone, calls, rules, key)
    decreases |calls|
  {
    if calls != [] {
      var c := calls[0];
      var next := AfterStoreAllow(cfg, st, c.key, rules(c.key), c.now);
      MeetsLater(st.limiters, key, rules, t, c.now);
      MeetsLater(alone.limiters, key, rules, t, c.now);
      CleanupInvisibleTo(cfg, st, rules, key, c.now);
      AllowMeets(Cleanup(cfg, st, c.now).limiters, c.key, rules, c.now);
      if c.key == key {
        CleanupInvisibleTo(cfg, alone, rules, key, c.now);
        AllowMeets(Cleanup(cfg, alone, c.now).limiters, key, rules, c.now);
        RefillingIsAlone(cfg, next, AfterStoreAllow(cfg, alone, key, rules(key), c.now), calls[1..], rules, key, c.now);
      } else {
        RefillingIsAlone(cfg, next, alone, calls[1..], rules, key, c.now);
      }
      AloneStep(cfg, st, alone, calls, rules, key);
    }
  }

  // A store that cleans up at every new instant.

  ghost predicate Live(cfg: Config, st: Store, key: string, now: int) {
    key in st.limiters && now - st.limiters[key].lastSeen <= cfg.entryTTL
  }

  ghost predicate Tidy(cfg: Config, st: Store, key: string, t: int) {
    && st.lastCleanup <= t
    && (key in st.limiters ==> st.limiters[key].lastSeen <= t)
    && (key in st.limiters && st.lastCleanup == t ==> Live(cfg, st, key, t))
  }

  ghost predicate SameLive(cfg: Config, a: Store, b: Store, key: string, t: int) {
    && Tidy(cfg, a, key, t)
    && Tidy(cfg, b, key, t)
    && (Live(cfg, a, key, t) <==> Live(cfg, b, key, t))
    && (Live(cfg, a, key, t) ==> a.limiters[key] == b.limiters[key])
  }

  lemma {:induction false} EagerCleanupIsAlone(cfg: Config, st: Store, alone: Store, calls: seq<Call>, rules: Rules,
      key: string, t: int)
    requires cfg.entryTTL > 0 && cfg.cleanupInterval == 1
    requires NonDecreasing(calls, t) && SameLive(cfg, st, alone, key, t)
    ensures DecidedAlone(cfg, st, alone, calls, rules, key)
    decreases |calls|
  {
    if calls != [] {
      var c := calls[0];
      var next := AfterStoreAllow(cfg, st, c.key, rules(c.key), c.now);
      if c.key == key {
        EagerCleanupIsAlone(cfg, next, AfterStoreAllow(cfg, alone, key, rules(key), c.now), calls[1..], rules, key, c.now);
      } else {
        EagerCleanupIsAlone(cfg, next, alone, calls[1..], rules, key, c.now);
      }
      AloneStep(cfg, st, alone, calls, rules, key);
    }
  }

  // Any other rule: a call on another key just before the TTL runs out takes the cleanup that would have evicted the entry.

  lemma CleanedTooEarly(cfg: Config, st: Store, key: string, other: string, rules: Rules, t0: int, n: nat)
    returns (next: Store)
    requires rules(key).rate > 0.0 && rules(key).burst == n as real && n > 0 && other != key
    requires !RefillsBeforeEviction(cfg, rules(key)) && cfg.cleanupInterval > 1
    requires Holds(st.limiters, key, rules(key), 0.0, t0) && st.lastCleanup == t0 - cfg.cleanupInterval + 1
    ensures next == After(cfg, st, [Call(other, t0 + cfg.entryTTL)], rules)
    ensures !AllAdmitted(Decisions(cfg, next, Burst(key, t0 + cfg.entryTTL + 1, n), rules))
  {
    var calls := [Call(other, t0 + cfg.entryTTL)];
    next := AfterStoreAllow(cfg, st, other, rules(other), t0 + cfg.entryTTL);
    assert calls[1..] == [];
    assert Holds(next.limiters, key, rules(key), 0.0, t0);
    GainIsPositive(rules(key).rate, cfg.entryTTL + 1);
    ShortBucketDenies(cfg, next, key, rules, t0 + cfg.entryTTL + 1, Gain(rules(key).rate, cfg.entryTTL + 1), n);
  }

  lemma DisturbedRun(cfg: Config, key: string, other: string, rules: Rules, n: nat, start: int, t0: int, first: seq<Call>,
      between: seq<Call>, second: seq<Call>) returns (d: seq<bool>, kept: seq<bool>)
    requires rules(key).rate > 0.0 && rules(key).burst == n as real && n > 0 && other != key
    requires !RefillsBeforeEviction(cfg, rules(key)) && cfg.cleanupInterval > 1
    requires t0 == start + cfg.cleanupInterval - 1 && first == Burst(key, t0, n)
    requires between == [Call(other, t0 + cfg.entryTTL)] && second == Burst(key, t0 + cfg.entryTTL + 1, n)
    ensures Decisions(cfg, EmptyStore(start), first + (between + second), rules)
      == Decisions(cfg, EmptyStore(start), first, rules) + (d + kept)
    ensures |d| == 1 && |kept| == n && !AllAdmitted(kept)
  {
    var st := AfterFirstBurst(cfg, key, rules, n, start, t0, between + second);
    var next := CleanedTooEarly(cfg, st, key, other, rules, t0, n);
    DecisionsSplit(cfg, st, between, second, rules);
    d, kept := Decisions(cfg, st, between, rules), Decisions(cfg, next, second, rules);
  }

  lemma {:induction false} OtherKeyMatters(cfg: Config, key: string, rules: Rules, n: nat, start: int)
    requires rules(key).rate > 0.0 && rules(key).burst == n as real && n > 0
    requires !RefillsBeforeEviction(cfg, rules(key)) && cfg.cleanupInterval > 1
    ensures !Independent(cfg, rules, start, key)
  {
    var other := key + "'";
    var t0 := start + cfg.cleanupInterval - 1;
    var t1 := t0 + cfg.entryTTL + 1;
    var first, between, second := Burst(key, t0, n), [Call(other, t0 + cfg.entryTTL)], Burst(key, t1, n);
    CallBetween(key, other, t0, t0 + cfg.entryTTL, t1, n, n, start);
    var d, kept := DisturbedRun(cfg, key, other, rules, n, start, t0, first, between, second);
    var left := UndisturbedRun(cfg, key, rules, n, start, t0, first, second);
    BurstIsOwn(key, t0, n);
    BurstIsOwn(key, t1, n);
    ApartFromTheMiddle(cfg, rules, start, key, first, between, second,
      Decisions(cfg, EmptyStore(start), first, rules), d, kept, left);
  }

  lemma {:induction false} BurstIsOwn(key: string, now: int, n: nat)
    ensures forall i :: 0 <= i < n ==> Burst(key, now, n)[i].key == key
  {
    if n > 0 { BurstIsOwn(key, now, n - 1); }
  }

  lemma {:induction false} ApartFromTheMiddle(cfg: Config, rules: Rules, start: int, key: string, first: seq<Call>,
      between: seq<Call>, second: seq<Call>, ds: seq<bool>, d: seq<bool>, kept: seq<bool>, left: seq<bool>)
    requires |between| == |d| == 1 && |ds| == |first| && |kept| == |left| == |second|
    requires NonDecreasing(first + between + second, start) && between[0].key != key
    requires forall i :: 0 <= i < |first| ==> first[i].key == key
    requires forall i :: 0 <= i < |second| ==> second[i].key == key
    requires Decisions(cfg, EmptyStore(start), first + (between + second), rules) == ds + (d + kept)
    requires Decisions(cfg, EmptyStore(start), first + second, rules) == ds + left
    requires AllAdmitted(left) && !AllAdmitted(kept)
    ensures !Independent(cfg, rules, start, key)
  {
    var calls := first + between + second;
    var ones, twos := seq(|first|, _ => true), seq(|second|, _ => true);
    assert calls == first + (between + second) && ds + d + kept == ds + (d + kept);
    assert OwnMask(calls, key) == ones + [false] + twos;
    KeepMiddle(first, between, second, ones, twos);
    KeepMiddle(ds, d, kept, ones, twos);
    SuffixesDiffer(ds, left, ds, kept);
    assert !DecidedAlone(cfg, EmptyStore(start), EmptyStore(start), calls, rules, key);
  }

  /**
   For configured (integer) rules, the calls on other keys never change a decision on a key exactly when its bucket
   refills completely before it can be evicted, or the store cleans up at every new instant.
   */
  lemma KeysAreIndependentExactly(cfg: Config, rates: string -> int, bursts: string -> int, start: int, key: string)
    requires forall k :: rates(k) > 0 && bursts(k) > 0
    ensures var rules := (k: string) => NewRule(rates(k), bursts(k));
      Independent(cfg, rules, start, key) <==> RefillsBeforeEviction(cfg, rules(key)) || cfg.cleanupInterval == 1
  {
    var rules := (k: string) => NewRule(rates(k), bursts(k));
    var empty := EmptyStore(start);
    if RefillsBeforeEviction(cfg, rules(key)) {
      forall calls | NonDecreasing(calls, start) ensures DecidedAlone(cfg, empty, empty, calls, rules, key) {
        RefillingIsAlone(cfg, empty, empty, calls, rules, key, start);
      }
    } else if cfg.cleanupInterval == 1 {
      forall calls | NonDecreasing(calls, start) ensures DecidedAlone(cfg, empty, empty, calls, rules, key) {
        EagerCleanupIsAlone(cfg, empty, empty, calls, rules, key, start);
      }
    } else {
      OtherKeyMatters(cfg, key, rules, bursts(key), start);
    }
  }
}
