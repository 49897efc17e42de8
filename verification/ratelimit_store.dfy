/** The limiter's objects (gateway/internal/middleware/ratelimit.go), proved against the specification. */
module RateLimitStore {
  import opened RateLimitSpec

  class TokenBucket {
    var rate: real
    var capacity: real
    var tokens: real
    var lastRefill: int

    ghost function Value(): Bucket
      reads this
    {
      Bucket(rate, capacity, tokens, lastRefill)
    }

    constructor (rule: Rule, now: int)
      ensures Value() == NewBucket(rule, now)
      ensures rate == rule.rate && capacity == tokens == rule.burst && lastRefill == now
    {
      rate, capacity, tokens, lastRefill := rule.rate, rule.burst, rule.burst, now;
    }

    method Allow(now: int) returns (ok: bool)
      modifies this
      ensures ok == Allowed(old(Value()), now)
      ensures Value() == AfterAllow(old(Value()), now)
      ensures BucketOk(old(Value())) ==>
        (ok <==> capacity >= 1.0 && old(Supply(Value(), now)) >= 1000000000.0)
    {
      ghost var before := Value();
      if BucketOk(before) { AllowedExactly(before, now); }
      var elapsed := now - lastRefill;
      if elapsed > 0 {
        tokens := tokens + Gain(rate, elapsed);
        if tokens > capacity {
          tokens := capacity;
        }
        lastRefill := now;
      }
      if tokens < 1.0 {
        return false;
      }
      tokens := tokens - 1.0;
      return true;
    }
  }

  class RateLimitEntry {
    const limiter: TokenBucket
    var lastSeen: int

    constructor (limiter: TokenBucket, lastSeen: int)
      ensures this.limiter == limiter && this.lastSeen == lastSeen
    {
      this.limiter := limiter;
      this.lastSeen := lastSeen;
    }
  }

  class RateLimitStore {
    const entryTTL: int
    const cleanupInterval: int
    var limiters: map<string, RateLimitEntry>
    var lastCleanup: int

    ghost function Cfg(): Config {
      Config(entryTTL, cleanupInterval)
    }

    ghost function Buckets(): set<TokenBucket>
      reads this
    {
      set k | k in limiters :: limiters[k].limiter
    }

    /** Every key has an entry and a bucket of its own. */
    ghost predicate Valid()
      reads this
    {
      forall a, b :: a in limiters && b in limiters && a != b ==>
        limiters[a] != limiters[b] && limiters[a].limiter != limiters[b].limiter
    }

    ghost function View(): Store
      reads this, limiters.Values, Buckets()
    {
      Store(map k | k in limiters :: Entry(limiters[k].limiter.Value(), limiters[k].lastSeen), lastCleanup)
    }

    constructor (entryTTL: int, cleanupInterval: int, now: int)
      ensures Valid() && View() == Store(map[], now) && Cfg() == Config(entryTTL, cleanupInterval)
    {
      this.entryTTL := entryTTL;
      this.cleanupInterval := cleanupInterval;
      limiters := map[];
      lastCleanup := now;
    }

    ghost function Idle(limiters: map<string, RateLimitEntry>, now: int): set<string>
      reads limiters.Values
    {
      set k | k in limiters && now - limiters[k].lastSeen > entryTTL
    }

    /** Walks over the keys in any order, deleting the idle ones. */
    method DeleteIdle(now: int)
      modifies `limiters
      ensures limiters == old(limiters) - Idle(old(limiters), now)
    {
      ghost var before, idle := limiters, Idle(limiters, now);
      var keys := limiters.Keys;
      while keys != {}
        invariant keys <= before.Keys && limiters == before - (idle - keys)
        decreases keys
      {
        var key :| key in keys;
        keys := keys - {key};
        if now - limiters[key].lastSeen > entryTTL {
          limiters := limiters - {key};
        }
      }
      assert limiters == before - idle;
    }

    method CleanupExpired(now: int)
      requires Valid()
      modifies this
      ensures Valid() && forall k :: k in limiters ==> k in old(limiters) && limiters[k] == old(limiters)[k]
      ensures View() == Cleanup(Cfg(), old(View()), now)
      ensures var due := entryTTL > 0 && cleanupInterval > 0 && now - old(lastCleanup) >= cleanupInterval;
        && lastCleanup == (if due then now else old(lastCleanup))
        && forall k :: k in old(limiters) ==>
          (k in limiters <==> !due || now - old(limiters)[k].lastSeen <= entryTTL)
    {
      if entryTTL <= 0 || cleanupInterval <= 0 {
        return;
      }
      if now - lastCleanup < cleanupInterval {
        return;
      }
      DeleteIdle(now);
      lastCleanup := now;
    }

    /** The part of `Allow` under the store's lock: clean up, then find or create the entry and stamp it. */
    method EntryFor(key: string, rule: Rule, now: int)
      requires Valid()
      modifies this, limiters.Values
      ensures Valid() && key in limiters
      ensures forall k :: k in limiters ==>
        (k in old(limiters) && limiters[k] == old(limiters)[k]) || (fresh(limiters[k]) && fresh(limiters[k].limiter))
      ensures var clean := Cleanup(Cfg(), old(View()), now);
        View() == clean.(limiters := clean.limiters[key := Entry(BucketFor(clean.limiters, key, rule, now), now)])
    {
      CleanupExpired(now);
      if key !in limiters {
        Create(key, rule, now);
      } else {
        ghost var clean := View();
        var entry := limiters[key];
        entry.lastSeen := now;
        assert View().limiters == clean.limiters[key := Entry(clean.limiters[key].bucket, now)];
      }
    }

    method Create(key: string, rule: Rule, now: int)
      requires Valid() && key !in limiters
      modifies this
      ensures Valid() && limiters.Keys == old(limiters).Keys + {key}
      ensures forall k :: k in old(limiters) ==> limiters[k] == old(limiters)[k]
      ensures fresh(limiters[key]) && fresh(limiters[key].limiter)
      ensures View() == old(View()).(limiters := old(View()).limiters[key := Entry(NewBucket(rule, now), now)])
    {
      var limiter := new TokenBucket(rule, now);
      var entry := new RateLimitEntry(limiter, now);
      limiters := limiters[key := entry];
      assert View().limiters == old(View()).limiters[key := Entry(NewBucket(rule, now), now)];
    }

    /** The part of `Allow` after the store's lock is released: spend from the entry's bucket. */
    method Spend(key: string, now: int) returns (ok: bool)
      requires Valid() && key in limiters
      modifies limiters[key].limiter
      ensures Valid()
      ensures var entry := old(View()).limiters[key];
        && ok == Allowed(entry.bucket, now)
        && View() == old(View()).(
             limiters := old(View()).limiters[key := Entry(AfterAllow(entry.bucket, now), entry.lastSeen)])
    {
      ghost var entry := View().limiters[key];
      ok := limiters[key].limiter.Allow(now);
      assert View().limiters == old(View()).limiters[key := Entry(AfterAllow(entry.bucket, now), entry.lastSeen)];
    }

    method Allow(key: string, rule: Rule, now: int) returns (ok: bool)
      requires Valid()
      modifies this, limiters.Values, Buckets()
      ensures Valid() && forall k :: k in limiters ==>
        (k in old(limiters) && limiters[k] == old(limiters)[k]) || (fresh(limiters[k]) && fresh(limiters[k].limiter))
      ensures key in limiters && limiters[key].lastSeen == now
      ensures ok == StoreAllows(Cfg(), old(View()), key, rule, now)
      ensures View() == AfterStoreAllow(Cfg(), old(View()), key, rule, now)
    {
      EntryFor(key, rule, now);
      ghost var stamped := View();
      ghost var clean := Cleanup(Cfg(), old(View()), now);
      ghost var bucket := BucketFor(clean.limiters, key, rule, now);
      assert stamped == clean.(limiters := clean.limiters[key := Entry(bucket, now)]);
      ok := Spend(key, now);
      assert View().limiters == clean.limiters[key := Entry(AfterAllow(bucket, now), now)];
    }
  }
}
