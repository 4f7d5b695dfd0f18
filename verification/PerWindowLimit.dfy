/** What "limit per window" amounts to for the limiter that the convenience constructor builds
    (internal/http/middleware/ratelimit/token_bucket_limiter.go:54-68). */
module PerWindowLimit {
  import Basics
  import opened TokenBucket
  import opened LimiterTable
  import opened Eviction
  import opened RateLimiter

  // ---------- refill in terms of the limit

  lemma Proportion(l: real, w: real, x: real, s: real)
    requires w > 0.0 && s > 0.0
    ensures w / s > 0.0 && x / s * (l / (w / s)) * w == l * x
  {
    var q := w / s;
    var r, y := l / q, x / s;
    assert r * q == l && y * s == x && q * s == w;
    assert y * r * w == (y * s) * (r * q);
  }

  /** The refill over `x` is the limit's share for that part of the window. */
  lemma RefillShare(limit: int, window: int, ttl: int, maxBuckets: int, x: int)
    requires limit > 0 && window > 0
    ensures Refill(PerWindow(limit, window, ttl, maxBuckets).rate, x) * window as real == (limit * x) as real
  {
    Proportion(limit as real, window as real, x as real, Basics.SECOND as real);
  }

  /** A whole token comes back over `x` exactly when the limit times `x` is no less than the window. */
  lemma WholeTokenIff(limit: int, window: int, ttl: int, maxBuckets: int, x: int)
    requires limit > 0 && window > 0
    ensures Refill(PerWindow(limit, window, ttl, maxBuckets).rate, x) >= 1.0 <==> EarnsToken(limit, window, x)
  {
    RefillShare(limit, window, ttl, maxBuckets, x);
    var r, w := Refill(PerWindow(limit, window, ttl, maxBuckets).rate, x), window as real;
    Compare(r, w);
  }

  lemma Compare(r: real, w: real)
    requires w > 0.0
    ensures r >= 1.0 <==> r * w >= w
  {
    assert (r - 1.0) * w == r * w - w;
    if r >= 1.0 {
      assert (r - 1.0) * w >= 0.0;
    } else {
      assert (1.0 - r) * w > 0.0;
    }
  }

  // ---------- at most double, or not

  /** The limit's share for `x` is at least one token. */
  predicate EarnsToken(limit: int, window: int, x: int) {
    limit * x >= window
  }

  /** Calls `i..j` span no more than the window. */
  ghost predicate InWindow(calls: seq<Call>, i: nat, j: nat, window: int) {
    i < j <= |calls| && NonDecreasing(calls) && calls[j - 1].now - calls[i].now <= window
  }

  /** No call comes at or before Go's zero time. */
  ghost predicate PastZero(calls: seq<Call>) {
    forall call :: call in calls ==> call.now > ZERO_TIME
  }

  /** Within one window there is room for an eviction, and after it for one token more than its burst,
      or for a second eviction. On a clock past Go's zero time the second has to wait for a cleanup as well. */
  predicate Overflows(limit: int, window: int, ttl: int, pastZero: bool) {
    0 < ttl && ttl + 1 < window &&
    (EarnsToken(limit, window, window - ttl - 1) ||
     ttl + 1 + (if pastZero then Turnaround(ttl) else ttl + 1) <= window)
  }

  /** Unless the window overflows in that sense, a key is granted at most twice the limit in it, whatever the cap. */
  lemma AtMostDouble(limit: int, window: int, ttl: int, maxBuckets: int, calls: seq<Call>, key: string, i: nat, j: nat)
    requires limit > 0 && window > 0 && InWindow(calls, i, j, window)
    requires !Overflows(limit, window, ttl, calls[i].now > ZERO_TIME)
    ensures Admitted(PerWindow(limit, window, ttl, maxBuckets), calls, key, i, j) <= 2 * limit
  {
    hide Refill, Grants, PerWindow, Spacing;
    var cfg, span, gap := PerWindow(limit, window, ttl, maxBuckets), calls[j - 1].now - calls[i].now, ttl + 1;
    var m := GrantsBound(cfg, calls, key, i, j);
    RefillGrows(cfg.rate, span, window);
    if ttl <= 0 || gap >= window {
      RefillGrows(cfg.rate, window, if gap >= window then gap else window);
      GrantsWithinQuota(cfg, m, span);
    } else {
      if m >= 2 {
        TwoEvictions(cfg, m);
      }
      WholeTokenIff(limit, window, ttl, maxBuckets, window - gap);
      RefillGrows(cfg.rate, span - gap, window - gap);
      OneEvictionGrants(cfg, m, span);
    }
  }

  lemma {:induction false} TwoEvictions(cfg: Config, m: nat)
    requires cfg.ttl > 0 && m >= 2
    ensures Gaps(cfg, m) >= 2 * (cfg.ttl + 1)
    ensures Spacing(cfg, m) >= cfg.ttl + 1 + Turnaround(cfg.ttl)
  {
    assert Gaps(cfg, m) == Gaps(cfg, m - 1) + cfg.ttl + 1;
    assert Spacing(cfg, m) == Spacing(cfg, m - 1) + Turnaround(cfg.ttl);
    assert Gaps(cfg, 0) == 0 && Gaps(cfg, 1) == cfg.ttl + 1 && Spacing(cfg, 1) == cfg.ttl + 1;
    hide Turnaround, CleanupInterval, Gaps, Spacing;
    if m > 2 {
      TwoEvictions(cfg, m - 1);
    }
  }

  lemma OneEvictionGrants(cfg: Config, m: nat, span: int)
    ensures m <= 1 ==>
            Grants(cfg, m, span) ==
            if m == 0 then cfg.burst as real + Refill(cfg.rate, span)
            else 2.0 * cfg.burst as real + Refill(cfg.rate, span - cfg.ttl - 1)
  {
  }

  // ---------- the histories that overflow

  lemma {:induction false} TableOfPrefix(cfg: Config, calls: seq<Call>, more: seq<Call>, k: nat)
    requires k <= |calls|
    ensures TableAt(cfg, calls + more, k) == TableAt(cfg, calls, k)
    ensures k < |calls| ==> (Verdict(cfg, calls + more, k) <==> Verdict(cfg, calls, k))
  {
    if k > 0 {
      TableOfPrefix(cfg, calls, more, k - 1);
    }
  }

  lemma {:induction false} AllAdmitted(cfg: Config, calls: seq<Call>, key: string, i: nat, j: nat)
    requires i <= j <= |calls|
    requires forall k :: i <= k < j ==> calls[k].key == key && Verdict(cfg, calls, k)
    ensures Admitted(cfg, calls, key, i, j) == j - i
    decreases j
  {
    if i < j {
      AllAdmitted(cfg, calls, key, i, j - 1);
    }
  }

  /** Who makes the first call: with a cap of one bucket there is no room for another key. */
  function FirstKey(maxBuckets: int): string {
    if maxBuckets == 1 then "probe" else "other"
  }

  /** With a cap of one bucket, the probing key must earn back the token of its own first call. */
  predicate CanProbe(limit: int, window: int, ttl: int, maxBuckets: int) {
    maxBuckets == 1 && ttl > 0 ==> EarnsToken(limit, window, Wait(ttl))
  }

  lemma RoomForProbe(limit: int, window: int, ttl: int, maxBuckets: int)
    requires limit > 0 && window > 0 && ttl > 0 && CanProbe(limit, window, ttl, maxBuckets)
    ensures RoomToProbe(PerWindow(limit, window, ttl, maxBuckets), FirstKey(maxBuckets))
  {
    hide Refill, Wait, EarnsToken;
    WholeTokenIff(limit, window, ttl, maxBuckets, Wait(ttl));
  }

  /** Two bursts a TTL apart, and one more call: as late as the window allows, or when the next eviction is due. */
  function Overflow(limit: int, window: int, ttl: int, maxBuckets: int): seq<Call>
    requires limit > 0 && window > 0 && Overflows(limit, window, ttl, true)
  {
    var cfg := PerWindow(limit, window, ttl, maxBuckets);
    var span := if EarnsToken(limit, window, window - ttl - 1) then window else ttl + 1 + Turnaround(ttl);
    Probe(cfg, FirstKey(maxBuckets)) + [Call("probe", START + Wait(ttl) + span)]
  }

  /** A drained bucket admits a call that finds a token earned, or a cleanup due and the bucket idle. */
  lemma DrainedAdmits(cfg: Config, t: Table, first: string, last: int, now: int)
    requires cfg.Valid() && cfg.ttl > 0 && (first != "probe" ==> cfg.maxBuckets != 1)
    requires Probed(t, first, 0, last, last) && last < now
    requires Refill(cfg.rate, now - last) >= 1.0 || (now - last > cfg.ttl && now - last >= CleanupInterval(cfg.ttl))
    ensures Serve(cfg, t, "probe", now).1
  {
    hide Refill, CleanupInterval;
    if "probe" !in Cleaned(cfg, t, now).buckets {
      ProbeEnters(cfg, t, first, now);
    }
  }

  lemma LastCallAdmitted(limit: int, window: int, ttl: int, maxBuckets: int)
    requires limit > 0 && window > 0 && Overflows(limit, window, ttl, true) && CanProbe(limit, window, ttl, maxBuckets)
    ensures Verdict(PerWindow(limit, window, ttl, maxBuckets), Overflow(limit, window, ttl, maxBuckets), 2 * limit + 1)
  {
    hide Refill, Wait, EarnsToken, PerWindow, Serve, Probed, Turnaround;
    var cfg, calls := PerWindow(limit, window, ttl, maxBuckets), Overflow(limit, window, ttl, maxBuckets);
    var n, last := 2 * limit + 1, START + Wait(ttl) + ttl + 1;
    RoomForProbe(limit, window, ttl, maxBuckets);
    TableOfPrefix(cfg, Probe(cfg, FirstKey(maxBuckets)), [calls[n]], n);
    ProbeDrains(cfg, FirstKey(maxBuckets), n - 1);
    WholeTokenIff(limit, window, ttl, maxBuckets, window - ttl - 1);
    DrainedAdmits(cfg, TableAt(cfg, calls, n), FirstKey(maxBuckets), last, calls[n].now);
  }

  lemma OverflowTimes(limit: int, window: int, ttl: int, maxBuckets: int)
    requires limit > 0 && window > 0 && Overflows(limit, window, ttl, true) && CanProbe(limit, window, ttl, maxBuckets)
    ensures var calls := Overflow(limit, window, ttl, maxBuckets);
            |calls| == 2 * limit + 2 && InWindow(calls, 1, |calls|, window) && PastZero(calls)
  {
    hide Refill, Wait, EarnsToken, PerWindow, Turnaround;
  }

  lemma OverflowAdmitted(limit: int, window: int, ttl: int, maxBuckets: int, k: nat)
    requires limit > 0 && window > 0 && Overflows(limit, window, ttl, true) && CanProbe(limit, window, ttl, maxBuckets)
    requires 1 <= k < 2 * limit + 2
    ensures var cfg, calls := PerWindow(limit, window, ttl, maxBuckets), Overflow(limit, window, ttl, maxBuckets);
            |calls| == 2 * limit + 2 && calls[k].key == "probe" && Verdict(cfg, calls, k)
  {
    hide Refill, Wait, EarnsToken, PerWindow, Verdict, Turnaround;
    var cfg, calls := PerWindow(limit, window, ttl, maxBuckets), Overflow(limit, window, ttl, maxBuckets);
    if k < 2 * limit + 1 {
      RoomForProbe(limit, window, ttl, maxBuckets);
      ProbeDrains(cfg, FirstKey(maxBuckets), k);
      TableOfPrefix(cfg, Probe(cfg, FirstKey(maxBuckets)), [calls[2 * limit + 1]], k);
    } else {
      LastCallAdmitted(limit, window, ttl, maxBuckets);
    }
  }

  /** An overflowing window is overrun: one call more than twice the limit is admitted in it. */
  lemma OverflowOverruns(limit: int, window: int, ttl: int, maxBuckets: int)
    requires limit > 0 && window > 0 && Overflows(limit, window, ttl, true) && CanProbe(limit, window, ttl, maxBuckets)
    ensures var cfg, calls := PerWindow(limit, window, ttl, maxBuckets), Overflow(limit, window, ttl, maxBuckets);
            && InWindow(calls, 1, |calls|, window) && PastZero(calls)
            && Admitted(cfg, calls, "probe", 1, |calls|) == 2 * limit + 1
  {
    hide *;
    var cfg, calls := PerWindow(limit, window, ttl, maxBuckets), Overflow(limit, window, ttl, maxBuckets);
    OverflowTimes(limit, window, ttl, maxBuckets);
    forall k | 1 <= k < |calls| ensures calls[k].key == "probe" && Verdict(cfg, calls, k) {
      OverflowAdmitted(limit, window, ttl, maxBuckets, k);
    }
    AllAdmitted(cfg, calls, "probe", 1, |calls|);
  }

  // ---------- exact conditions

  /** On any clock past Go's zero time, at most twice the limit is granted in a window. */
  ghost predicate NeverOverDouble(cfg: Config, limit: int, window: int) {
    forall calls, key, i: nat, j: nat :: InWindow(calls, i, j, window) && PastZero(calls) ==>
      Admitted(cfg, calls, key, i, j) <= 2 * limit
  }

  /** For one limit: twice the limit bounds every window of every history exactly when no window overflows.
      With a cap of one bucket, this is shown where the limit earns a token before a cleanup falls due. */
  lemma AtMostDoubleIff(limit: int, window: int, ttl: int, maxBuckets: int)
    requires limit > 0 && window > 0 && CanProbe(limit, window, ttl, maxBuckets)
    ensures NeverOverDouble(PerWindow(limit, window, ttl, maxBuckets), limit, window) <==>
            !Overflows(limit, window, ttl, true)
  {
    hide PerWindow, Overflow;
    if Overflows(limit, window, ttl, true) {
      OverflowOverruns(limit, window, ttl, maxBuckets);
      var calls := Overflow(limit, window, ttl, maxBuckets);
      assert InWindow(calls, 1, |calls|, window) && PastZero(calls);
    } else {
      NoOverflowNoOverrun(limit, window, ttl, maxBuckets);
    }
  }

  lemma NoOverflowNoOverrun(limit: int, window: int, ttl: int, maxBuckets: int)
    requires limit > 0 && window > 0 && !Overflows(limit, window, ttl, true)
    ensures NeverOverDouble(PerWindow(limit, window, ttl, maxBuckets), limit, window)
  {
    hide PerWindow, Admitted, Overflows;
    forall calls, key, i: nat, j: nat | InWindow(calls, i, j, window) && PastZero(calls)
      ensures Admitted(PerWindow(limit, window, ttl, maxBuckets), calls, key, i, j) <= 2 * limit
    {
      assert calls[i] in calls;
      AtMostDouble(limit, window, ttl, maxBuckets, calls, key, i, j);
    }
  }

  /** For all limits at once: exactly when nothing is evicted before it has been idle for a whole window. */
  lemma AtMostDoubleForEveryLimitIff(window: int, ttl: int, maxBuckets: int)
    requires window > 0
    ensures (forall limit: int :: limit > 0 ==>
               NeverOverDouble(PerWindow(limit, window, ttl, maxBuckets), limit, window)) <==>
            (ttl <= 0 || ttl + 1 >= window)
  {
    hide PerWindow, NeverOverDouble, EarnsToken;
    if ttl <= 0 || ttl + 1 >= window {
      forall limit: int | limit > 0
        ensures NeverOverDouble(PerWindow(limit, window, ttl, maxBuckets), limit, window)
      {
        NoOverflowNoOverrun(limit, window, ttl, maxBuckets);
      }
    } else {
      WindowEarnsToken(window, window - ttl - 1);
      WindowEarnsToken(window, Wait(ttl));
      AtMostDoubleIff(window, window, ttl, maxBuckets);
    }
  }

  lemma WindowEarnsToken(window: int, x: int)
    requires window > 0 && x > 0
    ensures EarnsToken(window, window, x)
  {
    assert window * (x - 1) >= 0;
  }

  // ---------- double is reached

  /** A burst at once, and another when the window is over. */
  function TwoBursts(limit: int, window: int): seq<Call>
    requires limit > 0
  {
    seq(2 * limit, k => Call("key", if k < limit then 1 else 1 + window))
  }

  lemma FirstCall(cfg: Config, key: string, now: int)
    requires cfg.Valid()
    ensures var (u, allowed) := Serve(cfg, EMPTY, key, now);
            allowed && u.buckets == map[key := BucketState((cfg.burst - 1) as real, now, now)]
  {
    hide Refill, CleanupInterval;
  }

  lemma CallAtTheSameInstant(cfg: Config, t: Table, key: string, now: int, tokens: int)
    requires cfg.Valid() && tokens >= 1 && t.buckets == map[key := BucketState(tokens as real, now, now)]
    ensures var (u, allowed) := Serve(cfg, t, key, now);
            allowed && u.buckets == map[key := BucketState((tokens - 1) as real, now, now)]
  {
    hide Refill, CleanupInterval;
  }

  /** A drained bucket that has had time to refill is as good as new, evicted or not. */
  lemma CallAfterRefill(cfg: Config, t: Table, key: string, last: int, now: int)
    requires cfg.Valid() && t.buckets == map[key := BucketState(0.0, last, last)]
    requires last < now && Refill(cfg.rate, now - last) >= cfg.burst as real
    ensures var (u, allowed) := Serve(cfg, t, key, now);
            allowed && u.buckets == map[key := BucketState((cfg.burst - 1) as real, now, now)]
  {
    hide Refill, CleanupInterval;
    var c := Cleaned(cfg, t, now);
    if key !in c.buckets {
      assert c.buckets == map[];
    }
  }

  lemma {:induction false} TwoBurstsDrain(limit: int, window: int, ttl: int, maxBuckets: int, k: nat)
    requires limit > 0 && window > 0 && 1 <= k <= 2 * limit
    ensures var cfg, calls := PerWindow(limit, window, ttl, maxBuckets), TwoBursts(limit, window);
            var now, left := calls[k - 1].now, if k <= limit then limit - k else 2 * limit - k;
            && Verdict(cfg, calls, k - 1)
            && TableAt(cfg, calls, k).buckets == map["key" := BucketState(left as real, now, now)]
  {
    hide Refill, PerWindow, Serve;
    var cfg, calls := PerWindow(limit, window, ttl, maxBuckets), TwoBursts(limit, window);
    var t, now := TableAt(cfg, calls, k - 1), calls[k - 1].now;
    if k == 1 {
      FirstCall(cfg, "key", now);
    } else {
      TwoBurstsDrain(limit, window, ttl, maxBuckets, k - 1);
      if k == limit + 1 {
        CallAfterRefill(cfg, t, "key", 1, now);
      } else {
        CallAtTheSameInstant(cfg, t, "key", now, if k <= limit then limit - k + 1 else 2 * limit - k + 1);
      }
    }
  }

  /** Twice the limit is reached in one window for every limit, window, TTL and cap: so the limit itself
      is never a bound per window. */
  lemma ReachesDouble(limit: int, window: int, ttl: int, maxBuckets: int)
    requires limit > 0 && window > 0
    ensures var cfg, calls := PerWindow(limit, window, ttl, maxBuckets), TwoBursts(limit, window);
            InWindow(calls, 0, |calls|, window) && Admitted(cfg, calls, "key", 0, |calls|) == 2 * limit
  {
    hide PerWindow;
    var cfg, calls := PerWindow(limit, window, ttl, maxBuckets), TwoBursts(limit, window);
    forall k | 0 <= k < |calls| ensures calls[k].key == "key" && Verdict(cfg, calls, k) {
      TwoBurstsDrain(limit, window, ttl, maxBuckets, k + 1);
    }
    AllAdmitted(cfg, calls, "key", 0, |calls|);
  }
}
