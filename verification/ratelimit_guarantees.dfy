/**
 Eviction and denied calls are invisible. Two stores are compared by what every possible key would meet at a given
 time; cleaning up, refilling early and denied calls do not change that.
 */
module RateLimitGuarantees {
  import opened Prelude
  import opened RateLimitSpec

  datatype Call = Call(key: string, now: int)

  /** One rule per key. */
  type Rules = string -> Rule

  /** A store that never evicts. */
  const NEVER := Config(0, 0)

  function EmptyStore(start: int): Store {
    Store(map[], start)
  }

  ghost function After(cfg: Config, st: Store, calls: seq<Call>, rules: Rules): Store
    decreases |calls|
  {
    if calls == [] then st
    else After(cfg, AfterStoreAllow(cfg, st, calls[0].key, rules(calls[0].key), calls[0].now), calls[1..], rules)
  }

  ghost function Decisions(cfg: Config, st: Store, calls: seq<Call>, rules: Rules): (ds: seq<bool>)
    ensures |ds| == |calls|
    decreases |calls|
  {
    if calls == [] then []
    else
      var c := calls[0];
      [StoreAllows(cfg, st, c.key, rules(c.key), c.now)]
      + Decisions(cfg, AfterStoreAllow(cfg, st, c.key, rules(c.key), c.now), calls[1..], rules)
  }

  ghost predicate NonDecreasing(calls: seq<Call>, start: int)
    decreases |calls|
  {
    calls != [] ==> start <= calls[0].now && NonDecreasing(calls[1..], calls[0].now)
  }

  /** Idle long enough to be evicted means idle long enough to be full again. */
  predicate RefillsBeforeEviction(cfg: Config, rule: Rule) {
    cfg.entryTTL <= 0 || cfg.cleanupInterval <= 0 || Gain(rule.rate, cfg.entryTTL + 1) >= rule.burst
  }

  /** What a call on `key` at time `now` would find after its refill. */
  function Meets(limiters: Limiters, key: string, rules: Rules, now: int): Bucket {
    Refill(BucketFor(limiters, key, rules(key), now), now)
  }

  ghost predicate Same(a: Limiters, b: Limiters, rules: Rules, now: int) {
    forall k :: Meets(a, k, rules, now) == Meets(b, k, rules, now)
  }

  /** Buckets follow their rules, were last refilled when last seen, and not in the future. */
  ghost predicate EntriesOk(limiters: Limiters, rules: Rules, now: int) {
    forall k :: k in limiters ==>
      var b := limiters[k].bucket;
      && BucketOk(b) && b.rate == rules(k).rate && b.capacity == rules(k).burst
      && b.lastRefill == limiters[k].lastSeen <= now
  }

  ghost predicate RulesOk(rules: Rules) {
    forall k :: rules(k).rate >= 0.0 && rules(k).burst >= 0.0
  }

  lemma MeetsLater(limiters: Limiters, key: string, rules: Rules, t: int, now: int)
    requires RulesOk(rules) && EntriesOk(limiters, rules, t) && t <= now
    ensures Meets(limiters, key, rules, now) ==
      if key in limiters then Refill(Meets(limiters, key, rules, t), now) else NewBucket(rules(key), now)
    ensures Refill(Meets(limiters, key, rules, t), now) == Meets(limiters, key, rules, now)
  {
    if key in limiters {
      RefillComposes(limiters[key].bucket, t, now);
    } else {
      GainGrows(rules(key).rate, 0, now - t);
      assert Gain(rules(key).rate, 0) == 0.0;
    }
  }

  /** Stores that look the same keep looking the same as time passes. */
  lemma SameLater(a: Limiters, b: Limiters, rules: Rules, t: int, now: int)
    requires RulesOk(rules) && EntriesOk(a, rules, t) && EntriesOk(b, rules, t) && t <= now
    requires Same(a, b, rules, t)
    ensures Same(a, b, rules, now)
  {
    forall k ensures Meets(a, k, rules, now) == Meets(b, k, rules, now) {
      MeetsLater(a, k, rules, t, now);
      MeetsLater(b, k, rules, t, now);
      assert Meets(a, k, rules, t) == Meets(b, k, rules, t);
    }
  }

  /** Cleaning up changes nothing that a call on a key could notice if its bucket refills before it is evicted. */
  lemma CleanupInvisibleTo(cfg: Config, st: Store, rules: Rules, key: string, now: int)
    requires RulesOk(rules) && EntriesOk(st.limiters, rules, now) && RefillsBeforeEviction(cfg, rules(key))
    ensures var clean := Cleanup(cfg, st, now).limiters;
      EntriesOk(clean, rules, now) && Meets(clean, key, rules, now) == Meets(st.limiters, key, rules, now)
  {
    if key in Stale(cfg, st.limiters, now) && CleanupDue(cfg, st, now) {
      var b := st.limiters[key].bucket;
      GainGrows(b.rate, cfg.entryTTL + 1, now - b.lastRefill);
    }
  }

  lemma CleanupInvisible(cfg: Config, st: Store, rules: Rules, now: int)
    requires RulesOk(rules) && EntriesOk(st.limiters, rules, now)
    requires forall k :: RefillsBeforeEviction(cfg, rules(k))
    ensures var clean := Cleanup(cfg, st, now);
      EntriesOk(clean.limiters, rules, now) && Same(st.limiters, clean.limiters, rules, now)
  {
    forall k ensures Meets(st.limiters, k, rules, now) == Meets(Cleanup(cfg, st, now).limiters, k, rules, now) {
      CleanupInvisibleTo(cfg, st, rules, k, now);
    }
  }

  /** A call decides by what it meets, and leaves every other key as it was. */
  lemma AllowMeets(limiters: Limiters, key: string, rules: Rules, now: int)
    requires RulesOk(rules) && EntriesOk(limiters, rules, now)
    ensures var b := BucketFor(limiters, key, rules(key), now);
      var after := limiters[key := Entry(AfterAllow(b, now), now)];
      && EntriesOk(after, rules, now)
      && Allowed(b, now) == (Meets(limiters, key, rules, now).tokens >= 1.0)
      && (forall k :: k != key ==> Meets(after, k, rules, now) == Meets(limiters, k, rules, now))
      && Meets(after, key, rules, now) ==
           var m := Meets(limiters, key, rules, now);
           if m.tokens < 1.0 then m else m.(tokens := m.tokens - 1.0)
  {
    AllowKeepsBucketOk(BucketFor(limiters, key, rules(key), now), now);
  }

  /** One call on two stores that look the same, the second of which never evicts. */
  lemma SameStep(cfg: Config, a: Store, b: Store, key: string, rules: Rules, t: int, now: int)
    requires RulesOk(rules) && EntriesOk(a.limiters, rules, t) && EntriesOk(b.limiters, rules, t) && t <= now
    requires Same(a.limiters, b.limiters, rules, t)
    requires forall k :: RefillsBeforeEviction(cfg, rules(k))
    ensures StoreAllows(cfg, a, key, rules(key), now) == StoreAllows(NEVER, b, key, rules(key), now)
    ensures var a', b' := AfterStoreAllow(cfg, a, key, rules(key), now), AfterStoreAllow(NEVER, b, key, rules(key), now);
      && EntriesOk(a'.limiters, rules, now) && EntriesOk(b'.limiters, rules, now)
      && Same(a'.limiters, b'.limiters, rules, now)
  {
    SameLater(a.limiters, b.limiters, rules, t, now);
    CleanupInvisible(cfg, a, rules, now);
    var clean := Cleanup(cfg, a, now);
    AllowMeets(clean.limiters, key, rules, now);
    AllowMeets(b.limiters, key, rules, now);
    assert forall k :: Meets(clean.limiters, k, rules, now) == Meets(b.limiters, k, rules, now) by {
      forall k ensures Meets(clean.limiters, k, rules, now) == Meets(b.limiters, k, rules, now) {
        assert Meets(a.limiters, k, rules, now) == Meets(clean.limiters, k, rules, now);
        assert Meets(a.limiters, k, rules, now) == Meets(b.limiters, k, rules, now);
      }
    }
    var a', b' := AfterStoreAllow(cfg, a, key, rules(key), now), AfterStoreAllow(NEVER, b, key, rules(key), now);
    forall k ensures Meets(a'.limiters, k, rules, now) == Meets(b'.limiters, k, rules, now) {
      if k != key {
        assert Meets(a'.limiters, k, rules, now) == Meets(clean.limiters, k, rules, now);
        assert Meets(b'.limiters, k, rules, now) == Meets(b.limiters, k, rules, now);
      }
    }
  }

  /** A denied call leaves the never-evicting store looking as it did. */
  lemma DeniedLeavesNoTrace(b: Store, key: string, rules: Rules, now: int)
    requires RulesOk(rules) && EntriesOk(b.limiters, rules, now)
    requires !StoreAllows(NEVER, b, key, rules(key), now)
    ensures var b' := AfterStoreAllow(NEVER, b, key, rules(key), now);
      EntriesOk(b'.limiters, rules, now) && Same(b.limiters, b'.limiters, rules, now)
  {
    AllowMeets(b.limiters, key, rules, now);
    var b' := AfterStoreAllow(NEVER, b, key, rules(key), now);
    forall k ensures Meets(b.limiters, k, rules, now) == Meets(b'.limiters, k, rules, now) {
      if k != key {
        assert Meets(b'.limiters, k, rules, now) == Meets(b.limiters, k, rules, now);
      }
    }
  }

  /**
   The simulation over whole call sequences: an evicting store that sees only some of the calls, among them all that
   are admitted, decides like a never-evicting store that sees them all.
   */
  lemma {:induction false} Simulation(cfg: Config, a: Store, b: Store, calls: seq<Call>, mask: seq<bool>,
        rules: Rules, t: int)
    requires RulesOk(rules) && EntriesOk(a.limiters, rules, t) && EntriesOk(b.limiters, rules, t)
    requires Same(a.limiters, b.limiters, rules, t)
    requires forall k :: RefillsBeforeEviction(cfg, rules(k))
    requires NonDecreasing(calls, t) && |mask| == |calls|
    requires forall i :: 0 <= i < |calls| && !mask[i] ==> !Decisions(NEVER, b, calls, rules)[i]
    ensures Decisions(cfg, a, Keep(calls, mask), rules) == Keep(Decisions(NEVER, b, calls, rules), mask)
    decreases |calls|
  {
    if calls != [] {
      var c := calls[0];
      var b' := AfterStoreAllow(NEVER, b, c.key, rules(c.key), c.now);
      var tail := Decisions(NEVER, b', calls[1..], rules);
      assert Decisions(NEVER, b, calls, rules)[1..] == tail;
      assert forall i :: 0 <= i < |tail| ==> tail[i] == Decisions(NEVER, b, calls, rules)[i + 1];
      if mask[0] {
        SameStep(cfg, a, b, c.key, rules, t, c.now);
        var a' := AfterStoreAllow(cfg, a, c.key, rules(c.key), c.now);
        Simulation(cfg, a', b', calls[1..], mask[1..], rules, c.now);
        assert Keep(calls, mask)[1..] == Keep(calls[1..], mask[1..]);
      } else {
        SameLater(a.limiters, b.limiters, rules, t, c.now);
        DeniedLeavesNoTrace(b, c.key, rules, c.now);
        forall k ensures Meets(a.limiters, k, rules, c.now) == Meets(b'.limiters, k, rules, c.now) {
          assert Meets(a.limiters, k, rules, c.now) == Meets(b.limiters, k, rules, c.now);
          assert Meets(b.limiters, k, rules, c.now) == Meets(b'.limiters, k, rules, c.now);
        }
        Simulation(cfg, a, b', calls[1..], mask[1..], rules, c.now);
        assert Keep(calls, mask) == Keep(calls[1..], mask[1..]);
      }
    }
  }

  /** With non-decreasing times and one rule per key, eviction never changes a decision. */
  lemma EvictionIsInvisible(cfg: Config, calls: seq<Call>, rules: Rules, start: int)
    requires RulesOk(rules) && NonDecreasing(calls, start)
    requires forall k :: RefillsBeforeEviction(cfg, rules(k))
    ensures Decisions(cfg, EmptyStore(start), calls, rules) == Decisions(NEVER, EmptyStore(start), calls, rules)
  {
    var mask := seq(|calls|, _ => true);
    Simulation(cfg, EmptyStore(start), EmptyStore(start), calls, mask, rules, start);
    KeepAll(calls, mask);
    KeepAll(Decisions(NEVER, EmptyStore(start), calls, rules), mask);
  }

  /** Denied calls cost nothing: leaving any of them out changes no other decision of the evicting store. */
  lemma DeniedCallsCostNothing(cfg: Config, calls: seq<Call>, mask: seq<bool>, rules: Rules, start: int)
    requires RulesOk(rules) && NonDecreasing(calls, start) && |mask| == |calls|
    requires forall k :: RefillsBeforeEviction(cfg, rules(k))
    requires forall i :: 0 <= i < |calls| && !mask[i] ==> !Decisions(cfg, EmptyStore(start), calls, rules)[i]
    ensures Decisions(cfg, EmptyStore(start), Keep(calls, mask), rules)
      == Keep(Decisions(cfg, EmptyStore(start), calls, rules), mask)
  {
    EvictionIsInvisible(cfg, calls, rules, start);
    Simulation(cfg, EmptyStore(start), EmptyStore(start), calls, mask, rules, start);
  }
}
