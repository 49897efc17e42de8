/**
 Denied calls where some rules earn a token every nanosecond and others do not. A denied call on a slow key may take the
 cleanup that would have evicted a fast one, unless the store cleans up at every new instant.
 */
module RateLimitMixed {
  import opened Prelude
  import opened RateLimitSpec
  import opened RateLimitGuarantees
  import opened RateLimitExact
  import opened RateLimitAdmission
  import opened RateLimitKeys
  import opened RateLimitDenied

  predicate Fast(rule: Rule) {
    rule.rate >= 1000000000.0
  }

  // A cleanup at every new instant: nothing is noticed if every rule is fast or refills in time.

  /** What a key looks like in a run and in the same run without some denied calls. */
  ghost predicate Alike(cfg: Config, a: Store, b: Store, rules: Rules, key: string, t: int) {
    if RefillsBeforeEviction(cfg, rules(key)) then Meets(a.limiters, key, rules, t) == Meets(b.limiters, key, rules, t)
    else SameLive(cfg, a, b, key, t)
  }

  ghost predicate AllAlike(cfg: Config, a: Store, b: Store, rules: Rules, t: int) {
    && EntriesOk(a.limiters, rules, t) && EntriesOk(b.limiters, rules, t) && !CleanupDue(cfg, a, t)
    && forall k :: Alike(cfg, a, b, rules, k, t)
  }

  ghost predicate MixedRules(cfg: Config, rules: Rules) {
    && cfg.entryTTL > 0 && cfg.cleanupInterval == 1
    && forall k :: rules(k).rate >= 0.0 && rules(k).burst >= 1.0 && (Fast(rules(k)) || RefillsBeforeEviction(cfg, rules(k)))
  }

  lemma RefillingAfterBoth(cfg: Config, a: Store, b: Store, rules: Rules, c: Call, t: int, k: string)
    requires RulesOk(rules) && EntriesOk(a.limiters, rules, t) && EntriesOk(b.limiters, rules, t) && t <= c.now
    requires RefillsBeforeEviction(cfg, rules(k)) && Meets(a.limiters, k, rules, t) == Meets(b.limiters, k, rules, t)
    ensures Meets(AfterStoreAllow(cfg, a, c.key, rules(c.key), c.now).limiters, k, rules, c.now)
      == Meets(AfterStoreAllow(cfg, b, c.key, rules(c.key), c.now).limiters, k, rules, c.now)
    ensures k == c.key ==> StoreAllows(cfg, a, k, rules(k), c.now) == StoreAllows(cfg, b, k, rules(k), c.now)
  {
    MeetsLater(a.limiters, k, rules, t, c.now);
    MeetsLater(b.limiters, k, rules, t, c.now);
    CleanupInvisibleTo(cfg, a, rules, k, c.now);
    CleanupInvisibleTo(cfg, b, rules, k, c.now);
    AllowMeets(Cleanup(cfg, a, c.now).limiters, c.key, rules, c.now);
    AllowMeets(Cleanup(cfg, b, c.now).limiters, c.key, rules, c.now);
  }

  lemma LiveAfterBoth(cfg: Config, a: Store, b: Store, rules: Rules, c: Call, t: int, k: string)
    requires cfg.entryTTL > 0 && cfg.cleanupInterval == 1 && t <= c.now && SameLive(cfg, a, b, k, t)
    ensures SameLive(cfg, AfterStoreAllow(cfg, a, c.key, rules(c.key), c.now),
                     AfterStoreAllow(cfg, b, c.key, rules(c.key), c.now), k, c.now)
    ensures k == c.key ==> StoreAllows(cfg, a, k, rules(k), c.now) == StoreAllows(cfg, b, k, rules(k), c.now)
  {
  }

  /** Both runs make the call. */
  lemma AlikeAfterBoth(cfg: Config, a: Store, b: Store, rules: Rules, c: Call, t: int, k: string)
    requires MixedRules(cfg, rules) && AllAlike(cfg, a, b, rules, t) && t <= c.now
    ensures Alike(cfg, AfterStoreAllow(cfg, a, c.key, rules(c.key), c.now),
                  AfterStoreAllow(cfg, b, c.key, rules(c.key), c.now), rules, k, c.now)
    ensures k == c.key ==> StoreAllows(cfg, a, k, rules(k), c.now) == StoreAllows(cfg, b, k, rules(k), c.now)
  {
    assert Alike(cfg, a, b, rules, k, t);
    if RefillsBeforeEviction(cfg, rules(k)) {
      RefillingAfterBoth(cfg, a, b, rules, c, t, k);
    } else {
      LiveAfterBoth(cfg, a, b, rules, c, t, k);
    }
  }

  /** Only the first run makes the call, which is denied. */
  lemma AlikeAfterDenied(cfg: Config, a: Store, b: Store, rules: Rules, c: Call, t: int, k: string)
    requires MixedRules(cfg, rules) && AllAlike(cfg, a, b, rules, t) && t <= c.now
    requires !StoreAllows(cfg, a, c.key, rules(c.key), c.now)
    ensures Alike(cfg, AfterStoreAllow(cfg, a, c.key, rules(c.key), c.now), b, rules, k, c.now)
  {
    assert Alike(cfg, a, b, rules, k, t);
    if RefillsBeforeEviction(cfg, rules(k)) {
      MeetsLater(a.limiters, k, rules, t, c.now);
      MeetsLater(b.limiters, k, rules, t, c.now);
      CleanupInvisibleTo(cfg, a, rules, k, c.now);
      AllowMeets(Cleanup(cfg, a, c.now).limiters, c.key, rules, c.now);
    } else if k == c.key {
      DeniedChangesNothing(cfg, a, k, rules, t, c.now);
    }
  }

  lemma EntriesStayOkAfter(cfg: Config, a: Store, rules: Rules, c: Call, t: int)
    requires RulesOk(rules) && EntriesOk(a.limiters, rules, t) && t <= c.now
    ensures EntriesOk(AfterStoreAllow(cfg, a, c.key, rules(c.key), c.now).limiters, rules, c.now)
    ensures !CleanupDue(cfg, AfterStoreAllow(cfg, a, c.key, rules(c.key), c.now), c.now)
  {
    AllowMeets(Cleanup(cfg, a, c.now).limiters, c.key, rules, c.now);
  }

  lemma AllAlikeAfterBoth(cfg: Config, a: Store, b: Store, rules: Rules, c: Call, t: int)
    requires MixedRules(cfg, rules) && AllAlike(cfg, a, b, rules, t) && t <= c.now
    ensures AllAlike(cfg, AfterStoreAllow(cfg, a, c.key, rules(c.key), c.now),
                     AfterStoreAllow(cfg, b, c.key, rules(c.key), c.now), rules, c.now)
    ensures StoreAllows(cfg, a, c.key, rules(c.key), c.now) == StoreAllows(cfg, b, c.key, rules(c.key), c.now)
  {
    EntriesStayOkAfter(cfg, a, rules, c, t);
    EntriesStayOkAfter(cfg, b, rules, c, t);
    AlikeAfterBoth(cfg, a, b, rules, c, t, c.key);
    var a', b' := AfterStoreAllow(cfg, a, c.key, rules(c.key), c.now), AfterStoreAllow(cfg, b, c.key, rules(c.key), c.now);
    forall k ensures Alike(cfg, a', b', rules, k, c.now) {
      AlikeAfterBoth(cfg, a, b, rules, c, t, k);
    }
  }

  lemma AllAlikeAfterDenied(cfg: Config, a: Store, b: Store, rules: Rules, c: Call, t: int)
    requires MixedRules(cfg, rules) && AllAlike(cfg, a, b, rules, t) && t <= c.now
    requires !StoreAllows(cfg, a, c.key, rules(c.key), c.now)
    ensures AllAlike(cfg, AfterStoreAllow(cfg, a, c.key, rules(c.key), c.now), b, rules, c.now)
  {
    EntriesStayOkAfter(cfg, a, rules, c, t);
    forall k ensures Alike(cfg, AfterStoreAllow(cfg, a, c.key, rules(c.key), c.now), b, rules, k, c.now) {
      AlikeAfterDenied(cfg, a, b, rules, c, t, k);
    }
  }

  lemma {:induction false} MixedSimulation(cfg: Config, a: Store, b: Store, calls: seq<Call>, mask: seq<bool>,
      rules: Rules, t: int)
    requires MixedRules(cfg, rules) && AllAlike(cfg, a, b, rules, t)
    requires NonDecreasing(calls, t) && |mask| == |calls|
    requires forall i :: 0 <= i < |calls| && !mask[i] ==> !Decisions(cfg, a, calls, rules)[i]
    ensures Decisions(cfg, b, Keep(calls, mask), rules) == Keep(Decisions(cfg, a, calls, rules), mask)
    decreases |calls|
  {
    if calls != [] {
      var c := calls[0];
      var a' := AfterStoreAllow(cfg, a, c.key, rules(c.key), c.now);
      var tail := Decisions(cfg, a', calls[1..], rules);
      assert Decisions(cfg, a, calls, rules)[1..] == tail;
      assert forall i :: 0 <= i < |tail| ==> tail[i] == Decisions(cfg, a, calls, rules)[i + 1];
      if mask[0] {
        AllAlikeAfterBoth(cfg, a, b, rules, c, t);
        var b' := AfterStoreAllow(cfg, b, c.key, rules(c.key), c.now);
        MixedSimulation(cfg, a', b', calls[1..], mask[1..], rules, c.now);
        assert Keep(calls, mask)[1..] == Keep(calls[1..], mask[1..]);
      } else {
        AllAlikeAfterDenied(cfg, a, b, rules, c, t);
        MixedSimulation(cfg, a', b, calls[1..], mask[1..], rules, c.now);
        assert Keep(calls, mask) == Keep(calls[1..], mask[1..]);
      }
    }
  }

  lemma MixedRulesCostNothing(cfg: Config, rules: Rules, start: int)
    requires MixedRules(cfg, rules)
    ensures CostNothing(cfg, rules, start)
  {
    var empty := EmptyStore(start);
    forall calls, mask | NonDecreasing(calls, start) && LeavesOutDenied(cfg, rules, start, calls, mask)
      ensures Decisions(cfg, empty, Keep(calls, mask), rules) == Keep(Decisions(cfg, empty, calls, rules), mask)
    {
      MixedSimulation(cfg, empty, empty, calls, mask, rules, start);
    }
  }

  // A longer interval: the denied call on the slow key takes the cleanup.

  /** A burst leaves the other keys and the time of the last cleanup. */
  lemma {:induction false} BurstLeavesOthers(cfg: Config, st: Store, key: string, rules: Rules, now: int, n: nat)
    requires Calm(cfg, st, now)
    ensures var e := After(cfg, st, Burst(key, now, n), rules);
      && e.lastCleanup == st.lastCleanup
      && forall k :: k != key ==>
           (k in e.limiters <==> k in st.limiters) && (k in st.limiters ==> e.limiters[k] == st.limiters[k])
    decreases n
  {
    if n > 0 {
      BurstUnfolds(cfg, st, key, rules, now, n);
      BurstLeavesOthers(cfg, AfterStoreAllow(cfg, st, key, rules(key), now), key, rules, now, n - 1);
    }
  }

  lemma {:induction false} OrderedAppend(xs: seq<Call>, ys: seq<Call>, start: int, mid: int)
    requires start <= mid && NonDecreasing(xs, start) && NonDecreasing(ys, mid) && CallsWithin(xs, start, mid)
    ensures NonDecreasing(xs + ys, start)
    decreases |xs|
  {
    if xs == [] {
      assert xs + ys == ys;
    } else {
      assert (xs + ys)[1..] == xs[1..] + ys;
      OrderedFrom(xs[1..], xs[0].now);
      OrderedAppend(xs[1..], ys, xs[0].now, mid);
    }
  }

  lemma {:induction false} OrderedFrom(xs: seq<Call>, start: int)
    requires NonDecreasing(xs, start)
    ensures forall i :: 0 <= i < |xs| ==> start <= xs[i].now
    decreases |xs|
  {
    if xs != [] { OrderedFrom(xs[1..], xs[0].now); }
  }

  /** The fast bucket is empty since `clean - TTL`, the slow key unknown, and a cleanup due at `clean`, not before. */
  ghost predicate Ready(cfg: Config, st: Store, fast: string, slow: string, rules: Rules, clean: int) {
    && st.lastCleanup == clean - cfg.cleanupInterval
    && Holds(st.limiters, fast, rules(fast), 0.0, clean - cfg.entryTTL)
    && slow !in st.limiters
  }

  ghost predicate Contrast(cfg: Config, fast: string, slow: string, rules: Rules, n: nat, m: nat) {
    && fast != slow && Fast(rules(fast)) && !RefillsBeforeEviction(cfg, rules(fast)) && cfg.cleanupInterval > 1
    && 0.0 < rules(slow).rate && !Fast(rules(slow))
    && n > 0 && m > 0 && rules(fast).burst == n as real && rules(slow).burst == m as real
  }

  /** The slow bucket is emptied one nanosecond before the cleanup is due. */
  lemma EmptySlow(cfg: Config, st: Store, fast: string, slow: string, rules: Rules, n: nat, m: nat, clean: int)
    requires Contrast(cfg, fast, slow, rules, n, m) && Ready(cfg, st, fast, slow, rules, clean)
    ensures var e := After(cfg, st, Burst(slow, clean - 1, m), rules);
      && e.lastCleanup == st.lastCleanup && Holds(e.limiters, fast, rules(fast), 0.0, clean - cfg.entryTTL)
      && Holds(e.limiters, slow, rules(slow), 0.0, clean - 1)
  {
    FirstBurstSpends(cfg, st, slow, rules, clean - 1, m);
    BurstLeavesOthers(cfg, st, slow, rules, clean - 1, m);
  }

  /** The denied call cleans up, and the fast entry, one nanosecond too young to go, stays for its next burst. */
  lemma DeniedTakesCleanup(cfg: Config, st: Store, fast: string, slow: string, rules: Rules, n: nat, m: nat, clean: int)
    returns (next: Store)
    requires Contrast(cfg, fast, slow, rules, n, m) && st.lastCleanup == clean - cfg.cleanupInterval
    requires Holds(st.limiters, fast, rules(fast), 0.0, clean - cfg.entryTTL)
    requires Holds(st.limiters, slow, rules(slow), 0.0, clean - 1)
    ensures Decisions(cfg, st, [Call(slow, clean)], rules) == [false]
    ensures next == After(cfg, st, [Call(slow, clean)], rules)
    ensures !AllAdmitted(Decisions(cfg, next, Burst(fast, clean + 1, n), rules))
  {
    var calls := [Call(slow, clean)];
    assert calls[1..] == [];
    next := AfterStoreAllow(cfg, st, slow, rules(slow), clean);
    GainIsPositive(rules(slow).rate, 1);
    assert Gain(rules(slow).rate, 1) < 1.0 by { assert Gain(rules(slow).rate, 1) == rules(slow).rate / 1000000000.0; }
    assert Holds(next.limiters, fast, rules(fast), 0.0, clean - cfg.entryTTL);
    GainIsPositive(rules(fast).rate, cfg.entryTTL + 1);
    ShortBucketDenies(cfg, next, fast, rules, clean + 1, Gain(rules(fast).rate, cfg.entryTTL + 1), n);
  }

  /** From a ready state on: empty the slow bucket, be denied on it, and ask for the fast burst again. */
  lemma {:induction false} SlowCallMatters(cfg: Config, fast: string, slow: string, rules: Rules, n: nat, m: nat,
      start: int, before: seq<Call>, clean: int)
    requires Contrast(cfg, fast, slow, rules, n, m)
    requires start < clean && NonDecreasing(before, start) && CallsWithin(before, start, clean - 1)
    requires Ready(cfg, After(cfg, EmptyStore(start), before, rules), fast, slow, rules, clean)
    ensures !CostNothing(cfg, rules, start)
  {
    var empty, slowBurst := EmptyStore(start), Burst(slow, clean - 1, m);
    var first, denied, second := before + slowBurst, [Call(slow, clean)], Burst(fast, clean + 1, n);
    var st := After(cfg, empty, before, rules);
    EmptySlow(cfg, st, fast, slow, rules, n, m, clean);
    DecisionsSplit(cfg, empty, before, slowBurst, rules);
    var st' := After(cfg, empty, first, rules);
    var next := DeniedTakesCleanup(cfg, st', fast, slow, rules, n, m, clean);
    EvictingStoreAdmitsAgain(cfg, st', fast, rules, clean - cfg.entryTTL, n);
    DecisionsSplit(cfg, empty, first, denied + second, rules);
    DecisionsSplit(cfg, st', denied, second, rules);
    DecisionsSplit(cfg, empty, first, second, rules);
    SlowRunOrdered(fast, slow, n, m, start, before, clean);
    LeavingOutTheMiddle(cfg, rules, start, first, denied, second, Decisions(cfg, empty, first, rules),
      Decisions(cfg, next, second, rules), Decisions(cfg, st', second, rules));
  }

  lemma BurstOrdered(key: string, now: int, n: nat)
    ensures NonDecreasing(Burst(key, now, n), now)
  {
    BurstsAreOrdered(key, now, now, 0, n, now);
    assert Burst(key, now, 0) + Burst(key, now, n) == Burst(key, now, n);
  }

  lemma {:induction false} CallThenOrdered(c: Call, calls: seq<Call>, start: int)
    requires start <= c.now && NonDecreasing(calls, c.now)
    ensures NonDecreasing([c] + calls, start)
  {
    assert ([c] + calls)[1..] == calls;
  }

  lemma {:induction false} SlowRunOrdered(fast: string, slow: string, n: nat, m: nat, start: int, before: seq<Call>,
      clean: int)
    requires start < clean && NonDecreasing(before, start) && CallsWithin(before, start, clean - 1)
    ensures NonDecreasing(before + Burst(slow, clean - 1, m) + [Call(slow, clean)] + Burst(fast, clean + 1, n), start)
  {
    var one, denied, two := Burst(slow, clean - 1, m), [Call(slow, clean)], Burst(fast, clean + 1, n);
    BurstOrdered(fast, clean + 1, n);
    BurstOrdered(slow, clean - 1, m);
    BurstWithin(slow, clean - 1, m);
    OrderedEarlier(two, clean, clean + 1);
    CallThenOrdered(Call(slow, clean), two, clean - 1);
    OrderedAppend(one, denied + two, clean - 1, clean - 1);
    OrderedAppend(before, one + (denied + two), start, clean - 1);
    Regrouped(before, one, denied, two);
  }

  lemma OrderedEarlier(calls: seq<Call>, start: int, later: int)
    requires start <= later && NonDecreasing(calls, later)
    ensures NonDecreasing(calls, start)
  {
  }

  lemma Regrouped(xs: seq<Call>, ys: seq<Call>, zs: seq<Call>, ws: seq<Call>)
    ensures xs + (ys + (zs + ws)) == xs + ys + zs + ws
  {
  }

  /** With a TTL within the interval the first cleanup of the store will do. */
  lemma ReadyAtOnce(cfg: Config, fast: string, slow: string, rules: Rules, n: nat, m: nat, start: int)
    returns (before: seq<Call>, clean: int)
    requires Contrast(cfg, fast, slow, rules, n, m) && cfg.entryTTL <= cfg.cleanupInterval
    ensures start < clean && NonDecreasing(before, start) && CallsWithin(before, start, clean - 1)
    ensures Ready(cfg, After(cfg, EmptyStore(start), before, rules), fast, slow, rules, clean)
  {
    clean := start + cfg.cleanupInterval;
    var t := clean - cfg.entryTTL;
    before := Burst(fast, t, n);
    FirstBurstSpends(cfg, EmptyStore(start), fast, rules, t, n);
    BurstLeavesOthers(cfg, EmptyStore(start), fast, rules, t, n);
    BurstOrdered(fast, t, n);
    OrderedEarlier(before, start, t);
    BurstWithin(fast, t, n);
  }

  /** Otherwise a call on a third key makes the store clean up while the fast entry is still young. */
  lemma ReadyAfterCleanup(cfg: Config, fast: string, slow: string, rules: Rules, n: nat, m: nat, start: int)
    returns (before: seq<Call>, clean: int)
    requires Contrast(cfg, fast, slow, rules, n, m) && cfg.entryTTL > cfg.cleanupInterval
    ensures start < clean && NonDecreasing(before, start) && CallsWithin(before, start, clean - 1)
    ensures Ready(cfg, After(cfg, EmptyStore(start), before, rules), fast, slow, rules, clean)
  {
    var third := fast + slow + "'";
    assert third != fast && third != slow;
    var t := start + Max(0, 2 * cfg.cleanupInterval - cfg.entryTTL);
    var trigger := t + cfg.entryTTL - cfg.cleanupInterval;
    var burst, call := Burst(fast, t, n), [Call(third, trigger)];
    clean := trigger + cfg.cleanupInterval;
    before := burst + call;
    FirstBurstSpends(cfg, EmptyStore(start), fast, rules, t, n);
    BurstLeavesOthers(cfg, EmptyStore(start), fast, rules, t, n);
    DecisionsSplit(cfg, EmptyStore(start), burst, call, rules);
    CallOnThird(cfg, After(cfg, EmptyStore(start), burst, rules), fast, slow, third, rules, n, t, trigger);
    BurstWithin(fast, t, n);
    CallBetween(fast, third, t, trigger, trigger, n, 0, start);
    assert burst + call + Burst(fast, trigger, 0) == before;
  }

  lemma CallOnThird(cfg: Config, st: Store, fast: string, slow: string, third: string, rules: Rules, n: nat, t: int,
      trigger: int)
    requires third != fast && third != slow && slow !in st.limiters && Holds(st.limiters, fast, rules(fast), 0.0, t)
    requires CleanupDue(cfg, st, trigger) && trigger - t <= cfg.entryTTL
    ensures var e := After(cfg, st, [Call(third, trigger)], rules);
      && e.lastCleanup == trigger && Holds(e.limiters, fast, rules(fast), 0.0, t) && slow !in e.limiters
  {
    var calls := [Call(third, trigger)];
    assert calls[1..] == [];
  }

  // The exact condition.

  /**
   For configured (integer) rules, denied calls cost nothing exactly when every bucket refills completely before it can be
   evicted, or every rule earns a token every nanosecond, or each does one of the two and the store cleans up at every new
   instant.
   */
  lemma CostNothingExactly(cfg: Config, rates: string -> int, bursts: string -> int, start: int)
    requires forall k :: rates(k) > 0 && bursts(k) > 0
    ensures var rules := (k: string) => NewRule(rates(k), bursts(k));
      CostNothing(cfg, rules, start) <==>
        || (forall k :: RefillsBeforeEviction(cfg, rules(k)))
        || (forall k :: Fast(rules(k)))
        || (cfg.cleanupInterval == 1 && forall k :: Fast(rules(k)) || RefillsBeforeEviction(cfg, rules(k)))
  {
    var rules := (k: string) => NewRule(rates(k), bursts(k));
    if forall k :: RefillsBeforeEviction(cfg, rules(k)) {
      RefillingCostsNothing(cfg, rules, start);
    } else {
      var k :| !RefillsBeforeEviction(cfg, rules(k));
      if forall k :: Fast(rules(k)) {
        FastRulesCostNothing(cfg, rules, start);
      } else if cfg.cleanupInterval == 1 && forall k :: Fast(rules(k)) || RefillsBeforeEviction(cfg, rules(k)) {
        MixedRulesCostNothing(cfg, rules, start);
      } else if exists k :: !Fast(rules(k)) && !RefillsBeforeEviction(cfg, rules(k)) {
        var k :| !Fast(rules(k)) && !RefillsBeforeEviction(cfg, rules(k));
        DeniedCallMatters(cfg, k, rules, bursts(k), start);
      } else {
        var slow :| !Fast(rules(slow));
        MixedRulesMatter(cfg, k, slow, rules, bursts(k), bursts(slow), start);
      }
    }
  }

  lemma MixedRulesMatter(cfg: Config, fast: string, slow: string, rules: Rules, n: nat, m: nat, start: int)
    requires Contrast(cfg, fast, slow, rules, n, m)
    ensures !CostNothing(cfg, rules, start)
  {
    var before, clean;
    if cfg.entryTTL <= cfg.cleanupInterval {
      before, clean := ReadyAtOnce(cfg, fast, slow, rules, n, m, start);
    } else {
      before, clean := ReadyAfterCleanup(cfg, fast, slow, rules, n, m, start);
    }
    SlowCallMatters(cfg, fast, slow, rules, n, m, start, before, clean);
  }

  lemma RefillingCostsNothing(cfg: Config, rules: Rules, start: int)
    requires RulesOk(rules) && forall k :: RefillsBeforeEviction(cfg, rules(k))
    ensures CostNothing(cfg, rules, start)
  {
    var empty := EmptyStore(start);
    forall calls, mask | NonDecreasing(calls, start) && LeavesOutDenied(cfg, rules, start, calls, mask)
      ensures Decisions(cfg, empty, Keep(calls, mask), rules) == Keep(Decisions(cfg, empty, calls, rules), mask)
    {
      DeniedCallsCostNothing(cfg, calls, mask, rules, start);
    }
  }
}
