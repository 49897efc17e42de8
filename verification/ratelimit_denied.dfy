/** When a denied call costs nothing: leaving it out changes no other decision of the evicting store. */
module RateLimitDenied {
  import opened Prelude
  import opened RateLimitSpec
  import opened RateLimitGuarantees
  import opened RateLimitExact

  /** The mask leaves out only calls that are denied. */
  ghost predicate LeavesOutDenied(cfg: Config, rules: Rules, start: int, calls: seq<Call>, mask: seq<bool>) {
    |mask| == |calls| &&
    forall i :: 0 <= i < |calls| && !mask[i] ==> !Decisions(cfg, EmptyStore(start), calls, rules)[i]
  }

  ghost predicate CostNothing(cfg: Config, rules: Rules, start: int) {
    forall calls, mask :: NonDecreasing(calls, start) && LeavesOutDenied(cfg, rules, start, calls, mask) ==>
      Decisions(cfg, EmptyStore(start), Keep(calls, mask), rules)
        == Keep(Decisions(cfg, EmptyStore(start), calls, rules), mask)
  }

  /** The denied call between two bursts: it stamps the entry, and the bucket is still short of the second burst. */
  lemma DeniedCallKeepsEntry(cfg: Config, st: Store, key: string, rules: Rules, t0: int, n: nat) returns (next: Store)
    requires 0.0 < rules(key).rate < 1000000000.0 && rules(key).burst == n as real && n > 0
    requires !RefillsBeforeEviction(cfg, rules(key))
    requires Holds(st.limiters, key, rules(key), 0.0, t0)
    ensures Decisions(cfg, st, [Call(key, t0 + 1)], rules) == [false]
    ensures next == After(cfg, st, [Call(key, t0 + 1)], rules)
    ensures !AllAdmitted(Decisions(cfg, next, Burst(key, t0 + cfg.entryTTL + 1, n), rules))
  {
    var rate, t1 := rules(key).rate, t0 + cfg.entryTTL + 1;
    var calls := [Call(key, t0 + 1)];
    next := AfterStoreAllow(cfg, st, key, rules(key), t0 + 1);
    assert calls[1..] == [];
    var little := Gain(rate, 1);
    GainIsPositive(rate, 1);
    assert little < 1.0 by { assert little == rate / 1000000000.0; }
    assert Holds(next.limiters, key, rules(key), little, t0 + 1);
    GainAdds(rate, 1, cfg.entryTTL);
    GainIsPositive(rate, cfg.entryTTL);
    ShortBucketDenies(cfg, next, key, rules, t1, Gain(rate, cfg.entryTTL + 1), n);
  }

  /** Empty the bucket just before a cleanup is due, be denied once, and ask for a full burst just past the TTL. */
  lemma {:induction false} DeniedCallMatters(cfg: Config, key: string, rules: Rules, n: nat, start: int)
    requires 0.0 < rules(key).rate < 1000000000.0 && rules(key).burst == n as real && n > 0
    requires !RefillsBeforeEviction(cfg, rules(key))
    ensures !CostNothing(cfg, rules, start)
  {
    var t0 := start + cfg.cleanupInterval - 1;
    var t1 := t0 + cfg.entryTTL + 1;
    var first, denied, second := Burst(key, t0, n), [Call(key, t0 + 1)], Burst(key, t1, n);
    CallBetween(key, key, t0, t0 + 1, t1, n, n, start);
    var kept := KeptRun(cfg, key, rules, n, start, t0, first, denied, second);
    var left := UndisturbedRun(cfg, key, rules, n, start, t0, first, second);
    LeavingOutTheMiddle(cfg, rules, start, first, denied, second,
      Decisions(cfg, EmptyStore(start), first, rules), kept, left);
  }

  lemma KeptRun(cfg: Config, key: string, rules: Rules, n: nat, start: int, t0: int, first: seq<Call>, denied: seq<Call>,
      second: seq<Call>) returns (kept: seq<bool>)
    requires 0.0 < rules(key).rate < 1000000000.0 && rules(key).burst == n as real && n > 0
    requires !RefillsBeforeEviction(cfg, rules(key)) && t0 == start + cfg.cleanupInterval - 1
    requires first == Burst(key, t0, n) && denied == [Call(key, t0 + 1)] && second == Burst(key, t0 + cfg.entryTTL + 1, n)
    ensures Decisions(cfg, EmptyStore(start), first + (denied + second), rules)
      == Decisions(cfg, EmptyStore(start), first, rules) + ([false] + kept)
    ensures |kept| == n && !AllAdmitted(kept)
  {
    var st := AfterFirstBurst(cfg, key, rules, n, start, t0, denied + second);
    var next := DeniedCallKeepsEntry(cfg, st, key, rules, t0, n);
    DecisionsSplit(cfg, st, denied, second, rules);
    kept := Decisions(cfg, next, second, rules);
  }

  lemma {:induction false} LeavingOutTheMiddle(cfg: Config, rules: Rules, start: int, first: seq<Call>,
      denied: seq<Call>, second: seq<Call>, ds: seq<bool>, kept: seq<bool>, left: seq<bool>)
    requires |denied| == 1 && |ds| == |first| && |kept| == |left| == |second|
    requires NonDecreasing(first + denied + second, start)
    requires Decisions(cfg, EmptyStore(start), first + (denied + second), rules) == ds + ([false] + kept)
    requires Decisions(cfg, EmptyStore(start), first + second, rules) == ds + left
    requires AllAdmitted(left) && !AllAdmitted(kept)
    ensures !CostNothing(cfg, rules, start)
  {
    var calls, all := first + denied + second, ds + [false] + kept;
    var ones, twos := seq(|first|, _ => true), seq(|second|, _ => true);
    var mask := ones + [false] + twos;
    assert calls == first + (denied + second) && all == ds + ([false] + kept);
    assert LeavesOutDenied(cfg, rules, start, calls, mask);
    KeepMiddle(first, denied, second, ones, twos);
    KeepMiddle(ds, [false], kept, ones, twos);
    SuffixesDiffer(ds, left, ds, kept);
  }

  // A rule that earns a token every nanosecond denies only calls that follow another call at the same instant.

  lemma TokenPerNanosecond(rate: real, d: int)
    requires rate >= 1000000000.0
    ensures d > 0 ==> Gain(rate, d) >= 1.0
  {
    if d > 0 {
      GainGrows(rate, 1, d);
      assert Gain(rate, 1) == rate / 1000000000.0;
    }
  }

  lemma DeniedChangesNothing(cfg: Config, st: Store, key: string, rules: Rules, t: int, now: int)
    requires rules(key).rate >= 1000000000.0 && rules(key).burst >= 1.0
    requires EntriesOk(st.limiters, rules, t) && t <= now && !CleanupDue(cfg, st, t)
    requires !StoreAllows(cfg, st, key, rules(key), now)
    ensures AfterStoreAllow(cfg, st, key, rules(key), now) == st
  {
    var clean := Cleanup(cfg, st, now);
    assert key in clean.limiters;
    var b := st.limiters[key].bucket;
    TokenPerNanosecond(b.rate, now - b.lastRefill);
    assert st.limiters[key := st.limiters[key]] == st.limiters;
  }

  lemma {:induction false} FastRulesSimulation(cfg: Config, st: Store, calls: seq<Call>, mask: seq<bool>, rules: Rules,
      t: int)
    requires forall k :: rules(k).rate >= 1000000000.0 && rules(k).burst >= 1.0
    requires EntriesOk(st.limiters, rules, t) && !CleanupDue(cfg, st, t)
    requires NonDecreasing(calls, t) && |mask| == |calls|
    requires forall i :: 0 <= i < |calls| && !mask[i] ==> !Decisions(cfg, st, calls, rules)[i]
    ensures Decisions(cfg, st, Keep(calls, mask), rules) == Keep(Decisions(cfg, st, calls, rules), mask)
    decreases |calls|
  {
    if calls != [] {
      var c := calls[0];
      var next := AfterStoreAllow(cfg, st, c.key, rules(c.key), c.now);
      var tail := Decisions(cfg, next, calls[1..], rules);
      assert Decisions(cfg, st, calls, rules)[1..] == tail;
      assert forall i :: 0 <= i < |tail| ==> tail[i] == Decisions(cfg, st, calls, rules)[i + 1];
      AllowMeets(Cleanup(cfg, st, c.now).limiters, c.key, rules, c.now);
      FastRulesSimulation(cfg, next, calls[1..], mask[1..], rules, c.now);
      if mask[0] {
        assert Keep(calls, mask)[1..] == Keep(calls[1..], mask[1..]);
      } else {
        DeniedChangesNothing(cfg, st, c.key, rules, t, c.now);
        assert Keep(calls, mask) == Keep(calls[1..], mask[1..]);
      }
    }
  }

  /** With such rules denied calls cost nothing, whatever the store evicts. */
  lemma FastRulesCostNothing(cfg: Config, rules: Rules, start: int)
    requires forall k :: rules(k).rate >= 1000000000.0 && rules(k).burst >= 1.0
    ensures CostNothing(cfg, rules, start)
  {
    var empty := EmptyStore(start);
    forall calls, mask | NonDecreasing(calls, start) && LeavesOutDenied(cfg, rules, start, calls, mask)
      ensures Decisions(cfg, empty, Keep(calls, mask), rules) == Keep(Decisions(cfg, empty, calls, rules), mask)
    {
      FastRulesSimulation(cfg, empty, calls, mask, rules, start);
    }
  }
}
