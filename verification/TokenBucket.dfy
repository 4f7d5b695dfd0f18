/** One token bucket: lazy refill, cap at burst, one token per admitted call
    (internal/http/middleware/ratelimit/token_bucket_limiter.go). */
module TokenBucket {
  import Basics

  /** Limiter settings, as they stand after the constructor normalised them. */
  datatype Config = Config(rate: real, burst: int, ttl: int, maxBuckets: int) {
    ghost predicate Valid() {
      rate > 0.0 && burst >= 1 && maxBuckets >= 0
    }
  }

  datatype BucketState = BucketState(tokens: real, last: int, lastSeen: int)

  function Min(a: real, b: real): real {
    if a <= b then a else b
  }

  /** Tokens earned over `dt` nanoseconds. */
  function Refill(rate: real, dt: int): real {
    dt as real / Basics.SECOND as real * rate
  }

  lemma RefillAdds(rate: real, a: int, b: int)
    ensures Refill(rate, a + b) == Refill(rate, a) + Refill(rate, b)
  {
    var x, y, s := a as real, b as real, Basics.SECOND as real;
    assert (x + y) / s == x / s + y / s;
  }

  lemma RefillGrows(rate: real, a: int, b: int)
    requires rate > 0.0 && a <= b
    ensures Refill(rate, a) <= Refill(rate, b)
    ensures a < b ==> Refill(rate, a) < Refill(rate, b)
    ensures Refill(rate, 0) == 0.0
  {
    RefillAdds(rate, a, b - a);
    var d := (b - a) as real / Basics.SECOND as real;
    assert d >= 0.0 && (a < b ==> d > 0.0);
    assert d * rate >= 0.0 && (a < b ==> d * rate > 0.0);
  }

  function Fresh(cfg: Config, now: int): BucketState {
    BucketState(cfg.burst as real, now, now)
  }

  /** The refill, capped; a clock that has not advanced adds nothing and does not move `last` back. */
  function TopUp(b: BucketState, now: int, rate: real, burst: real): BucketState {
    if now - b.last > 0 then BucketState(Min(b.tokens + Refill(rate, now - b.last), burst), now, now)
    else b.(lastSeen := now)
  }

  /** The bucket after one call at `now`, and whether the call was admitted. */
  function Draw(b: BucketState, now: int, rate: real, burst: real): (BucketState, bool) {
    var r := TopUp(b, now, rate, burst);
    if r.tokens < 1.0 then (r, false) else (r.(tokens := r.tokens - 1.0), true)
  }

  function Refilled(cfg: Config, b: BucketState, now: int): BucketState {
    TopUp(b, now, cfg.rate, cfg.burst as real)
  }

  function Take(cfg: Config, b: BucketState, now: int): (BucketState, bool) {
    Draw(b, now, cfg.rate, cfg.burst as real)
  }

  ghost predicate InRange(cfg: Config, b: BucketState) {
    0.0 <= b.tokens <= cfg.burst as real
  }

  lemma TakeKeepsRange(cfg: Config, b: BucketState, now: int)
    requires cfg.Valid() && InRange(cfg, b)
    ensures InRange(cfg, Take(cfg, b, now).0)
    ensures InRange(cfg, Refilled(cfg, b, now))
  {
    if now - b.last > 0 {
      RefillGrows(cfg.rate, 0, now - b.last);
    }
  }

  /** What a call does whatever its instant: a held token is never refused, what is not granted stays, and an instant
      no later than the last one adds nothing. */
  lemma TakeSpends(cfg: Config, b: BucketState, now: int)
    requires cfg.Valid() && InRange(cfg, b)
    ensures var (u, allowed) := Take(cfg, b, now);
            && InRange(cfg, u) && u.lastSeen == now && u.last == (if now > b.last then now else b.last)
            && (b.tokens >= 1.0 ==> allowed) && (!allowed ==> u.tokens < 1.0)
            && u.tokens >= b.tokens - (if allowed then 1.0 else 0.0)
            && (now <= b.last ==> u.tokens == b.tokens - (if b.tokens >= 1.0 then 1.0 else 0.0))
            && (now <= b.last ==> (allowed <==> b.tokens >= 1.0))
  {
    if now > b.last {
      RefillGrows(cfg.rate, 0, now - b.last);
    }
  }

  /** The unit of time is the nanosecond: a rate of one earns a token a second, and sixty a minute. */
  lemma RateIsPerSecond(rate: real, n: int)
    ensures Refill(rate, n * 1_000_000_000) == n as real * rate
    ensures Basics.SECOND == 1_000_000_000 && Basics.MINUTE == 60 * Basics.SECOND
  {
  }
}
