/** The limiter itself: mutable buckets in a map, run by one caller at a time
    (internal/http/middleware/ratelimit/token_bucket_limiter.go). */
module RateLimiter {
  import Basics
  import opened TokenBucket
  import opened LimiterTable

  /** What the constructor makes of the settings it is given: a rate of one per second, a burst of one and
      no cap stand in for what is not positive. */
  function Normalised(raw: Config): (cfg: Config)
    ensures cfg.Valid()
    ensures raw.Valid() ==> cfg == raw
    ensures cfg.rate == raw.rate || (raw.rate <= 0.0 && Refill(cfg.rate, Basics.SECOND) == 1.0)
    ensures cfg.burst == raw.burst || (raw.burst <= 0 && cfg.burst == 1)
    ensures cfg.maxBuckets == raw.maxBuckets || (raw.maxBuckets < 0 && cfg.maxBuckets == 0)
    ensures cfg.ttl == raw.ttl
  {
    Config(if raw.rate <= 0.0 then 1.0 else raw.rate,
           if raw.burst <= 0 then 1 else raw.burst,
           raw.ttl,
           if raw.maxBuckets < 0 then 0 else raw.maxBuckets)
  }

  /** The settings for "limit per window"; a limit of one and a window of one second stand in for
      what is not positive. */
  function PerWindow(limit: int, window: int, ttl: int, maxBuckets: int): (cfg: Config)
    ensures cfg.Valid() && cfg.ttl == ttl
    ensures cfg.burst == if limit <= 0 then 1 else limit
    ensures Refill(cfg.rate, if window <= 0 then Basics.SECOND else window) == cfg.burst as real
    ensures cfg.maxBuckets == maxBuckets || (maxBuckets < 0 && cfg.maxBuckets == 0)
  {
    var w := if window <= 0 then Basics.SECOND else window;
    var n := if limit <= 0 then 1 else limit;
    var seconds := w as real / Basics.SECOND as real;
    Normalised(Config(n as real / seconds, n, ttl, maxBuckets))
  }

  class Bucket {
    var tokens: real
    var last: int
    var lastSeen: int

    ghost function State(): BucketState
      reads this
    {
      BucketState(tokens, last, lastSeen)
    }

    constructor (tokens: real, now: int)
      ensures State() == BucketState(tokens, now, now)
    {
      this.tokens, last, lastSeen := tokens, now, now;
    }

    method Allow(now: int, rate: real, burst: real) returns (allowed: bool)
      modifies this
      ensures (State(), allowed) == Draw(old(State()), now, rate, burst)
    {
      var dt := now - last;
      if dt > 0 {
        tokens := tokens + dt as real / Basics.SECOND as real * rate;
        if tokens > burst {
          tokens := burst;
        }
        last := now;
      }
      lastSeen := now;
      if tokens < 1.0 {
        return false;
      }
      tokens := tokens - 1.0;
      return true;
    }
  }

  class TokenBucketLimiter {
    const cfg: Config
    var buckets: map<string, Bucket>
    var lastCleanup: int

    /** No two keys share a bucket. */
    ghost predicate Valid()
      reads this
    {
      cfg.Valid() &&
      forall a, b :: a in buckets && b in buckets && a != b ==> buckets[a] != buckets[b]
    }

    ghost function Contents(): Table
      reads this, buckets.Values
    {
      Table(map k | k in buckets :: buckets[k].State(), lastCleanup)
    }

    constructor (raw: Config)
      ensures Valid() && Contents() == EMPTY && cfg == Normalised(raw)
    {
      cfg := Normalised(raw);
      buckets := map[];
      lastCleanup := ZERO_TIME;
    }

    constructor NewPerWindow(limit: int, window: int, ttl: int, maxBuckets: int)
      ensures Valid() && Contents() == EMPTY && cfg == PerWindow(limit, window, ttl, maxBuckets)
    {
      cfg := PerWindow(limit, window, ttl, maxBuckets);
      buckets := map[];
      lastCleanup := ZERO_TIME;
    }

    method Allow(key: string, now: int) returns (allowed: bool)
      requires Valid()
      modifies this, buckets.Values
      ensures Valid() && fresh(buckets.Values - old(buckets.Values))
      ensures (Contents(), allowed) == Serve(cfg, old(Contents()), key, now)
    {
      MaybeCleanup(now);
      var b := GetOrCreateBucket(key, now);
      if b == null {
        return false;
      }
      label beforeTake:
      allowed := b.Allow(now, cfg.rate, cfg.burst as real);
      OnlyOneBucketChanged@beforeTake(key);
    }

    twostate lemma OnlyOneBucketChanged(key: string)
      requires Valid() && unchanged(this) && key in buckets
      requires forall b :: b in buckets.Values && b != buckets[key] ==> unchanged(b)
      ensures Contents().lastCleanup == old(Contents().lastCleanup)
      ensures Contents().buckets == old(Contents().buckets)[key := buckets[key].State()]
    {
      forall k | k in buckets && k != key ensures buckets[k].State() == old(buckets[k].State()) {
        assert buckets[k] in buckets.Values;
      }
    }

    method GetOrCreateBucket(key: string, now: int) returns (b: Bucket?)
      requires Valid()
      modifies this`buckets
      ensures Valid() && fresh(buckets.Values - old(buckets.Values))
      ensures Contents() == WithBucket(cfg, old(Contents()), key, now)
      ensures if b == null then key !in buckets else key in buckets && buckets[key] == b
    {
      ContentsHasSameKeys();
      if key in buckets {
        return buckets[key];
      }
      if cfg.maxBuckets > 0 && |buckets| >= cfg.maxBuckets {
        return null;
      }
      var created := new Bucket(cfg.burst as real, now);
      label beforeInsert:
      buckets := buckets[key := created];
      OneBucketInserted@beforeInsert(key, created);
      return created;
    }

    twostate lemma OneBucketInserted(key: string, new created: Bucket)
      requires key !in old(buckets) && buckets == old(buckets)[key := created] && lastCleanup == old(lastCleanup)
      requires forall b :: b in old(buckets.Values) ==> unchanged(b)
      ensures Contents() == old(Contents()).(buckets := old(Contents()).buckets[key := created.State()])
    {
      forall k | k in old(buckets) ensures buckets[k].State() == old(buckets[k].State()) {
        assert old(buckets)[k] in old(buckets.Values);
      }
      assert Contents().buckets == old(Contents()).buckets[key := created.State()];
    }

    lemma ContentsHasSameKeys()
      ensures Contents().buckets.Keys == buckets.Keys
      ensures |Contents().buckets| == |buckets|
    {
      assert Contents().buckets.Keys == buckets.Keys;
      assert |Contents().buckets| == |Contents().buckets.Keys| == |buckets.Keys|;
    }

    method MaybeCleanup(now: int)
      requires Valid()
      modifies this
      ensures Valid() && buckets.Values <= old(buckets.Values)
      ensures Contents() == Cleaned(cfg, old(Contents()), now)
    {
      if cfg.ttl <= 0 {
        return;
      }
      var interval := Basics.MINUTE;
      var half := cfg.ttl / 2;
      if half > interval {
        interval := half;
      }
      if lastCleanup != ZERO_TIME && now - lastCleanup < interval {
        return;
      }
      lastCleanup := now;
      var todo := buckets.Keys;
      while todo != {}
        invariant todo <= buckets.Keys <= old(buckets).Keys
        invariant forall k :: k in buckets ==> buckets[k] == old(buckets)[k]
        invariant forall k :: k in old(buckets) ==>
                    (k in buckets <==> k in todo || now - old(buckets)[k].lastSeen <= cfg.ttl)
        invariant lastCleanup == now
        decreases todo
      {
        var k :| k in todo;
        todo := todo - {k};
        var seen := buckets[k].lastSeen;
        if now - seen > cfg.ttl {
          buckets := buckets - {k};
        }
      }
      OnlyIdleRemoved(now);
    }

    twostate lemma OnlyIdleRemoved(now: int)
      requires buckets.Keys <= old(buckets).Keys && forall k :: k in buckets ==> buckets[k] == old(buckets)[k]
      requires forall k :: k in old(buckets) ==> (k in buckets <==> now - old(buckets[k].lastSeen) <= cfg.ttl)
      requires forall b :: b in old(buckets.Values) ==> unchanged(b)
      ensures Contents().buckets ==
              map k | k in old(Contents()).buckets && !Idle(cfg, old(Contents()).buckets[k], now) ::
                old(Contents()).buckets[k]
    {
      forall k | k in old(buckets) ensures old(buckets)[k].State() == old(buckets[k].State()) {
        assert old(buckets)[k] in old(buckets.Values);
      }
    }
  }
}
