/** What evicting idle buckets changes, and when it changes nothing a caller can see. */
module Eviction {
  import opened TokenBucket
  import opened Conformance
  import opened LimiterTable

  function WithoutEviction(cfg: Config): Config {
    cfg.(ttl := 0)
  }

  // ---------- a limiter that keeps its buckets serves each key on its own

  lemma {:induction false} StateIsStable(cfg: Config, ts: seq<int>, us: seq<int>, k: nat)
    requires 0 < |ts| <= |us| && k <= |ts| && us[..|ts|] == ts
    ensures StateAt(cfg, ts, k) == StateAt(cfg, us, k)
  {
    assert us[0] == us[..|ts|][0];
    if k > 0 {
      StateIsStable(cfg, ts, us, k - 1);
      assert us[k - 1] == us[..|ts|][k - 1];
    }
  }

  lemma {:induction false} KeptBucketFollowsItsKey(cfg: Config, calls: seq<Call>, key: string, k: nat)
    requires cfg.ttl <= 0 && cfg.maxBuckets == 0 && k <= |calls|
    ensures var t, ts := TableAt(cfg, calls, k), KeyTimes(calls, key, k);
            if ts == [] then key !in t.buckets
            else key in t.buckets && t.buckets[key] == StateAt(cfg, ts, |ts|)
  {
    if k > 0 {
      KeptBucketFollowsItsKey(cfg, calls, key, k - 1);
      var ts, us := KeyTimes(calls, key, k - 1), KeyTimes(calls, key, k);
      if calls[k - 1].key == key {
        if ts != [] {
          StateIsStable(cfg, ts, us, |ts|);
        }
        assert StateAt(cfg, us, |us|) == Take(cfg, StateAt(cfg, us, |ts|), us[|ts|]).0;
      } else {
        assert us == ts;
      }
    }
  }

  /** Where a call stands among the calls of its own key. */
  ghost function Rank(calls: seq<Call>, k: nat): nat
    requires k < |calls|
  {
    |KeyTimes(calls, calls[k].key, k)|
  }

  lemma {:induction false} KeyTimesExtend(calls: seq<Call>, key: string, k: nat, n: nat)
    requires k <= n <= |calls|
    ensures KeyTimes(calls, key, k) <= KeyTimes(calls, key, n)
    ensures forall j :: k <= j < n && calls[j].key == key ==>
              Rank(calls, j) < |KeyTimes(calls, key, n)| && KeyTimes(calls, key, n)[Rank(calls, j)] == calls[j].now
    decreases n
  {
    if k < n {
      KeyTimesExtend(calls, key, k, n - 1);
    }
  }

  /** The answer to a call depends only on the instants at which its own key called. */
  lemma OwnCallsDecide(cfg: Config, calls: seq<Call>, k: nat)
    requires cfg.ttl <= 0 && cfg.maxBuckets == 0 && k < |calls|
    ensures var ts := KeyTimes(calls, calls[k].key, |calls|);
            Rank(calls, k) < |ts| && (Verdict(cfg, calls, k) <==> Decision(cfg, ts, Rank(calls, k)))
  {
    var key := calls[k].key;
    var ts, us := KeyTimes(calls, key, k), KeyTimes(calls, key, |calls|);
    KeyTimesExtend(calls, key, k, |calls|);
    KeptBucketFollowsItsKey(cfg, calls, key, k);
    if ts != [] {
      StateIsStable(cfg, ts, us, |ts|);
    }
  }

  lemma {:induction false} KeyTimesSorted(calls: seq<Call>, key: string, k: nat)
    requires NonDecreasing(calls) && k <= |calls|
    ensures Sorted(KeyTimes(calls, key, k))
    ensures forall i :: 0 <= i < |KeyTimes(calls, key, k)| ==>
              0 < k && KeyTimes(calls, key, k)[i] <= calls[k - 1].now
  {
    if k > 0 {
      KeyTimesSorted(calls, key, k - 1);
    }
  }

  lemma {:induction false} RanksCover(calls: seq<Call>, key: string, n: nat, i: nat) returns (k: nat)
    requires n <= |calls| && i < |KeyTimes(calls, key, n)|
    ensures k < n && calls[k].key == key && Rank(calls, k) == i
  {
    if i < |KeyTimes(calls, key, n - 1)| {
      k := RanksCover(calls, key, n - 1, i);
    } else {
      k := n - 1;
    }
  }

  // ---------- eviction that nobody can observe

  ghost predicate SameVerdicts(cfg: Config, calls: seq<Call>) {
    forall k :: 0 <= k < |calls| ==> (Verdict(cfg, calls, k) <==> Verdict(WithoutEviction(cfg), calls, k))
  }

  /** Waiting out the TTL refills any bucket completely. */
  ghost predicate RefillsWithinTtl(cfg: Config) {
    Refill(cfg.rate, cfg.ttl + 1) >= cfg.burst as real
  }

  /** The evicting table holds the kept table's buckets, except some that have been idle past the TTL. */
  ghost predicate OnlyIdleMissing(cfg: Config, evicting: Table, kept: Table, now: int) {
    && (forall k :: k in evicting.buckets ==> k in kept.buckets && evicting.buckets[k] == kept.buckets[k])
    && (forall k :: k in kept.buckets && k !in evicting.buckets ==> Idle(cfg, kept.buckets[k], now))
  }

  lemma IdleBucketIsFresh(cfg: Config, b: BucketState, now: int)
    requires cfg.Valid() && cfg.ttl > 0 && RefillsWithinTtl(cfg)
    requires InRange(cfg, b) && b.last == b.lastSeen && Idle(cfg, b, now)
    ensures Take(cfg, b, now) == Take(cfg, Fresh(cfg, now), now)
  {
    RefillGrows(cfg.rate, cfg.ttl + 1, now - b.last);
  }

  lemma {:induction false} StepKeepsOnlyIdleMissing(cfg: Config, e: Table, n: Table, key: string, now: int, now': int)
    requires cfg.Valid() && cfg.ttl > 0 && cfg.maxBuckets == 0 && RefillsWithinTtl(cfg) && now <= now'
    requires TableOk(WithoutEviction(cfg), n, now) && OnlyIdleMissing(cfg, e, n, now)
    ensures OnlyIdleMissing(cfg, Serve(cfg, e, key, now').0, Serve(WithoutEviction(cfg), n, key, now').0, now')
    ensures Serve(cfg, e, key, now').1 == Serve(WithoutEviction(cfg), n, key, now').1
  {
    if key in n.buckets && key !in Cleaned(cfg, e, now').buckets {
      IdleBucketIsFresh(cfg, n.buckets[key], now');
    }
  }

  lemma {:induction false} EvictionStaysInvisible(cfg: Config, calls: seq<Call>, k: nat)
    requires cfg.Valid() && cfg.ttl > 0 && cfg.maxBuckets == 0 && RefillsWithinTtl(cfg)
    requires NonDecreasing(calls) && 0 < |calls| && k <= |calls|
    ensures OnlyIdleMissing(cfg, TableAt(cfg, calls, k), TableAt(WithoutEviction(cfg), calls, k), Clock(calls, k))
    ensures forall j :: 0 <= j < k ==> (Verdict(cfg, calls, j) <==> Verdict(WithoutEviction(cfg), calls, j))
  {
    hide Refill, Serve;
    if k > 0 {
      EvictionStaysInvisible(cfg, calls, k - 1);
      TableStaysOk(WithoutEviction(cfg), calls, k - 1);
      StepKeepsOnlyIdleMissing(cfg, TableAt(cfg, calls, k - 1), TableAt(WithoutEviction(cfg), calls, k - 1),
                               calls[k - 1].key, Clock(calls, k - 1), calls[k - 1].now);
    }
  }

  // ---------- the conformance laws, for the limiter as a whole

  /** No cap, and no eviction that could be noticed. */
  ghost predicate Transparent(cfg: Config) {
    cfg.maxBuckets == 0 && (cfg.ttl > 0 ==> RefillsWithinTtl(cfg))
  }

  lemma {:induction false} TtlDoesNotDecide(cfg: Config, ts: seq<int>, k: nat)
    requires 0 < |ts| && k <= |ts|
    ensures StateAt(cfg, ts, k) == StateAt(WithoutEviction(cfg), ts, k)
  {
    if k > 0 {
      TtlDoesNotDecide(cfg, ts, k - 1);
    }
  }

  /** Every answer of a transparent limiter is the answer of a single bucket fed the key's own calls. */
  lemma OneBucketPerKey(cfg: Config, calls: seq<Call>, k: nat)
    requires cfg.Valid() && Transparent(cfg) && NonDecreasing(calls) && k < |calls|
    ensures var ts := KeyTimes(calls, calls[k].key, |calls|);
            Rank(calls, k) < |ts| && (Verdict(cfg, calls, k) <==> Decision(cfg, ts, Rank(calls, k)))
  {
    if cfg.ttl > 0 {
      EvictionStaysInvisible(cfg, calls, |calls|);
      OwnCallsDecide(WithoutEviction(cfg), calls, k);
      TtlDoesNotDecide(cfg, KeyTimes(calls, calls[k].key, |calls|), Rank(calls, k));
    } else {
      OwnCallsDecide(cfg, calls, k);
    }
  }

  ghost predicate NeverRefused(cfg: Config, calls: seq<Call>, key: string) {
    forall k :: 0 <= k < |calls| && calls[k].key == key ==> Verdict(cfg, calls, k)
  }

  /** Every window of these calls, from the i-th to the j-th, is within the quota. */
  ghost predicate AllWithinQuota(cfg: Config, ts: seq<int>) {
    forall i, j :: 0 <= i <= j < |ts| ==> (j - i + 1) as real <= Quota(cfg, ts, i, j)
  }

  lemma AllDecidedIffWithinQuota(cfg: Config, ts: seq<int>)
    requires cfg.Valid() && Sorted(ts)
    ensures (forall i :: 0 <= i < |ts| ==> Decision(cfg, ts, i)) <==> AllWithinQuota(cfg, ts)
  {
    hide Decision, Quota;
    AllAdmittedIffConforming(cfg, ts);
  }

  lemma NeverRefusedMeansAllDecided(cfg: Config, calls: seq<Call>, key: string, i: nat)
    requires cfg.Valid() && Transparent(cfg) && NonDecreasing(calls) && NeverRefused(cfg, calls, key)
    requires i < |KeyTimes(calls, key, |calls|)|
    ensures Decision(cfg, KeyTimes(calls, key, |calls|), i)
  {
    var k := RanksCover(calls, key, |calls|, i);
    OneBucketPerKey(cfg, calls, k);
  }

  /** Exact conformance: a key is never refused exactly when every window of its own calls,
      from the i-th to the j-th, holds at most Burst + Rate * (t_j - t_i) of them. */
  lemma KeyNeverRefusedIffConforming(cfg: Config, calls: seq<Call>, key: string)
    requires cfg.Valid() && Transparent(cfg) && NonDecreasing(calls)
    ensures NeverRefused(cfg, calls, key) <==> AllWithinQuota(cfg, KeyTimes(calls, key, |calls|))
  {
    var ts := KeyTimes(calls, key, |calls|);
    KeyTimesSorted(calls, key, |calls|);
    hide KeyTimes, Sorted, NonDecreasing, Transparent, AllWithinQuota, Decision, Verdict, Rank;
    AllDecidedIffWithinQuota(cfg, ts);
    if AllWithinQuota(cfg, ts) {
      forall k | 0 <= k < |calls| && calls[k].key == key ensures Verdict(cfg, calls, k) {
        OneBucketPerKey(cfg, calls, k);
      }
    } else if NeverRefused(cfg, calls, key) {
      forall i | 0 <= i < |ts| ensures Decision(cfg, ts, i) {
        NeverRefusedMeansAllDecided(cfg, calls, key, i);
      }
    }
  }

  lemma CountOneMore(sel: seq<bool>, n: nat)
    requires n < |sel|
    ensures Count(sel, 0, n + 1) == Count(sel, 0, n) + if sel[n] then 1 else 0
  {
  }

  lemma {:induction false} AdmittedIsCount(cfg: Config, calls: seq<Call>, key: string, k: nat)
    requires cfg.Valid() && Transparent(cfg) && NonDecreasing(calls) && k <= |calls|
    ensures var ts := KeyTimes(calls, key, |calls|);
            |KeyTimes(calls, key, k)| <= |ts| &&
            Admitted(cfg, calls, key, 0, k) == Count(Decisions(cfg, ts), 0, |KeyTimes(calls, key, k)|)
  {
    KeyTimesExtend(calls, key, k, |calls|);
    if k > 0 {
      AdmittedIsCount(cfg, calls, key, k - 1);
      if calls[k - 1].key == key {
        OneBucketPerKey(cfg, calls, k - 1);
        hide Verdict, Decision, Transparent, NonDecreasing, Count;
        CountOneMore(Decisions(cfg, KeyTimes(calls, key, |calls|)), Rank(calls, k - 1));
      }
    }
  }

  /** Maximal permissiveness: after any prefix of the history, the limiter has admitted at least
      as many of a key's calls as any conforming selection of them contains. */
  lemma LimiterMaximallyPermissive(cfg: Config, calls: seq<Call>, key: string, sel: seq<bool>, k: nat)
    requires cfg.Valid() && Transparent(cfg) && NonDecreasing(calls) && k <= |calls|
    requires var ts := KeyTimes(calls, key, |calls|); |sel| == |ts| && Conforms(cfg, ts, sel)
    ensures |KeyTimes(calls, key, k)| <= |sel|
    ensures Admitted(cfg, calls, key, 0, k) >= Count(sel, 0, |KeyTimes(calls, key, k)|)
  {
    KeyTimesSorted(calls, key, |calls|);
    AdmittedIsCount(cfg, calls, key, k);
    MaximallyPermissive(cfg, KeyTimes(calls, key, |calls|), sel, |KeyTimes(calls, key, k)|);
  }

  // ---------- exactly when eviction is unobservable

  const START := 1

  /** How long after the first call the probing burst starts: late enough for a cleanup to fall due
      as soon as the key has been idle. */
  function Wait(ttl: int): (wait: int)
    requires ttl > 0
    ensures 1 <= wait < CleanupInterval(ttl) <= wait + ttl + 1
  {
    var wait := CleanupInterval(ttl) - ttl - 1;
    if wait > 1 then wait else 1
  }

  /** One call of the first key, then a full burst of the probing key, and another just past the TTL. */
  function Probe(cfg: Config, first: string): seq<Call>
    requires cfg.Valid() && cfg.ttl > 0
  {
    var start := START + Wait(cfg.ttl);
    seq(1 + 2 * cfg.burst, i =>
      if i == 0 then Call(first, START)
      else Call("probe", if i <= cfg.burst then start else start + cfg.ttl + 1))
  }

  /** The first call does not stand in the probing burst's way: it is another key's and there is room for two,
      or it is the probing key's own and its token has been earned again. */
  ghost predicate RoomToProbe(cfg: Config, first: string)
    requires cfg.ttl > 0
  {
    (first != "probe" && cfg.maxBuckets != 1) || (first == "probe" && Refill(cfg.rate, Wait(cfg.ttl)) >= 1.0)
  }

  /** What the table looks like once the probing key has `tokens` left and was last seen at `now`. */
  ghost predicate Probed(t: Table, first: string, tokens: int, now: int, cleanup: int) {
    t.lastCleanup == cleanup && t.buckets.Keys <= {first, "probe"} &&
    "probe" in t.buckets && t.buckets["probe"] == BucketState(tokens as real, now, now)
  }

  lemma OneKey(keys: set<string>, key: string)
    requires keys <= {key}
    ensures |keys| <= 1 && (key !in keys ==> keys == {})
  {
    KeysCard(keys, {key});
  }

  /** Where the probing key has no bucket, it gets a full one. */
  lemma ProbeEnters(cfg: Config, t: Table, first: string, now: int)
    requires cfg.Valid() && (first != "probe" ==> cfg.maxBuckets != 1)
    requires "probe" !in Cleaned(cfg, t, now).buckets && Cleaned(cfg, t, now).buckets.Keys <= {first}
    ensures var (u, allowed) := Serve(cfg, t, "probe", now);
            allowed && Probed(u, first, cfg.burst - 1, now, Cleaned(cfg, t, now).lastCleanup)
  {
    hide Cleaned, Refill;
    var c := Cleaned(cfg, t, now);
    OneKey(c.buckets.Keys, first);
    assert |c.buckets| == |c.buckets.Keys|;
  }

  lemma ProbeDraws(cfg: Config, t: Table, first: string, tokens: int, now: int, cleanup: int)
    requires cfg.Valid() && Probed(t, first, tokens, now, cleanup) && tokens >= 1 && !CleanupDue(cfg, t, now)
    ensures var (u, allowed) := Serve(cfg, t, "probe", now); allowed && Probed(u, first, tokens - 1, now, cleanup)
  {
    hide CleanupDue, Refill;
  }

  /** With its one token earned again, the probing key's bucket is full when the burst starts. */
  lemma ProbeReturns(cfg: Config, t: Table, now: int)
    requires cfg.Valid() && Probed(t, "probe", cfg.burst - 1, START, START) && now > START
    requires Refill(cfg.rate, now - START) >= 1.0 && !CleanupDue(cfg, t, now)
    ensures var (u, allowed) := Serve(cfg, t, "probe", now);
            allowed && Probed(u, "probe", cfg.burst - 1, now, START)
  {
    hide CleanupDue, Refill;
  }

  lemma FirstEnters(cfg: Config, first: string)
    requires cfg.Valid() && cfg.ttl > 0
    ensures var (u, allowed) := Serve(cfg, EMPTY, first, START);
            && allowed && u.lastCleanup == START && u.buckets.Keys == {first}
            && (first == "probe" ==> Probed(u, first, cfg.burst - 1, START, START))
  {
    hide Refill;
  }

  lemma BurstStarts(cfg: Config, t: Table, first: string)
    requires cfg.Valid() && cfg.ttl > 0 && RoomToProbe(cfg, first)
    requires t.lastCleanup == START && t.buckets.Keys == {first}
    requires first == "probe" ==> Probed(t, first, cfg.burst - 1, START, START)
    ensures var now := START + Wait(cfg.ttl);
            var (u, allowed) := Serve(cfg, t, "probe", now);
            allowed && Probed(u, first, cfg.burst - 1, now, START)
  {
    var now := START + Wait(cfg.ttl);
    hide Refill, CleanupInterval, Wait, Serve;
    assert !CleanupDue(cfg, t, now);
    if first == "probe" {
      ProbeReturns(cfg, t, now);
    } else {
      ProbeEnters(cfg, t, first, now);
    }
  }

  lemma BurstAgain(cfg: Config, t: Table, first: string)
    requires cfg.Valid() && cfg.ttl > 0 && RoomToProbe(cfg, first)
    requires Probed(t, first, 0, START + Wait(cfg.ttl), START)
    ensures var now := START + Wait(cfg.ttl) + cfg.ttl + 1;
            var (u, allowed) := Serve(cfg, t, "probe", now);
            allowed && Probed(u, first, cfg.burst - 1, now, now)
  {
    hide Refill, CleanupInterval, Wait, Serve;
    ProbeEnters(cfg, t, first, START + Wait(cfg.ttl) + cfg.ttl + 1);
  }

  /** The table that call `k` of the probe leaves. */
  ghost predicate ProbedAfter(cfg: Config, first: string, k: nat, t: Table)
    requires cfg.ttl > 0
  {
    var start := START + Wait(cfg.ttl);
    && (k == 0 ==> t.lastCleanup == START && t.buckets.Keys == {first})
    && (k == 0 && first == "probe" ==> Probed(t, first, cfg.burst - 1, START, START))
    && (0 < k <= cfg.burst ==> Probed(t, first, cfg.burst - k, start, START))
    && (cfg.burst < k ==> Probed(t, first, 2 * cfg.burst - k, start + cfg.ttl + 1, start + cfg.ttl + 1))
  }

  lemma ProbeGoesOn(cfg: Config, first: string, k: nat, t: Table)
    requires cfg.Valid() && cfg.ttl > 0 && RoomToProbe(cfg, first) && 0 < k <= 2 * cfg.burst
    requires ProbedAfter(cfg, first, k - 1, t)
    ensures var (u, allowed) := Serve(cfg, t, "probe", Probe(cfg, first)[k].now);
            allowed && ProbedAfter(cfg, first, k, u)
  {
    var now := Probe(cfg, first)[k].now;
    hide Serve, Probed, RoomToProbe, CleanupInterval, CleanupDue, Refill, Wait;
    if k == 1 {
      BurstStarts(cfg, t, first);
    } else if k == cfg.burst + 1 {
      BurstAgain(cfg, t, first);
    } else {
      var tokens := if k <= cfg.burst then cfg.burst - k + 1 else 2 * cfg.burst - k + 1;
      var cleanup := if k <= cfg.burst then START else now;
      StillClean(cfg, t, first, tokens, now, cleanup);
      ProbeDraws(cfg, t, first, tokens, now, cleanup);
    }
  }

  /** Every call of the probe is admitted, and this is the table it leaves. */
  lemma {:induction false} ProbeDrains(cfg: Config, first: string, k: nat)
    requires cfg.Valid() && cfg.ttl > 0 && RoomToProbe(cfg, first) && k <= 2 * cfg.burst
    ensures Verdict(cfg, Probe(cfg, first), k) && ProbedAfter(cfg, first, k, TableAt(cfg, Probe(cfg, first), k + 1))
  {
    if k == 0 {
      FirstEnters(cfg, first);
    } else {
      ProbeDrains(cfg, first, k - 1);
      hide Serve, ProbedAfter, RoomToProbe, Wait;
      ProbeGoesOn(cfg, first, k, TableAt(cfg, Probe(cfg, first), k));
    }
  }

  lemma StillClean(cfg: Config, t: Table, first: string, tokens: int, now: int, cleanup: int)
    requires cfg.ttl > 0 && Probed(t, first, tokens, now, cleanup)
    requires cleanup > ZERO_TIME && now - cleanup < CleanupInterval(cfg.ttl)
    ensures !CleanupDue(cfg, t, now)
  {
  }

  lemma {:induction false} ProbeTimes(cfg: Config, k: nat)
    requires cfg.Valid() && cfg.ttl > 0 && k <= 2 * cfg.burst
    ensures var calls := Probe(cfg, "other");
            var ts := KeyTimes(calls, "probe", k + 1);
            |ts| == k && forall i :: 0 <= i < k ==> ts[i] == calls[i + 1].now
  {
    if k > 0 {
      ProbeTimes(cfg, k - 1);
    }
  }

  /** Eviction leaves every answer of every history unchanged exactly when a bucket that stayed
      idle past the TTL is full again. */
  lemma EvictionUnobservableIff(cfg: Config)
    requires cfg.Valid() && cfg.ttl > 0 && cfg.maxBuckets == 0
    ensures RefillsWithinTtl(cfg) <==> forall calls :: NonDecreasing(calls) ==> SameVerdicts(cfg, calls)
  {
    hide Serve, Refill, Wait;
    if RefillsWithinTtl(cfg) {
      forall calls | NonDecreasing(calls) ensures SameVerdicts(cfg, calls) {
        if calls != [] {
          EvictionStaysInvisible(cfg, calls, |calls|);
        }
      }
    } else {
      var calls := Probe(cfg, "other");
      ProbeIsSorted(cfg);
      var k := ProbeIsRefusedWithoutEviction(cfg);
      ProbeDrains(cfg, "other", k);
      assert !SameVerdicts(cfg, calls);
    }
  }

  lemma ProbeIsOverQuota(cfg: Config)
    requires cfg.Valid() && cfg.ttl > 0 && !RefillsWithinTtl(cfg)
    ensures !AllWithinQuota(WithoutEviction(cfg), KeyTimes(Probe(cfg, "other"), "probe", 1 + 2 * cfg.burst))
  {
    hide Refill, Wait, KeyTimes;
    var n := 2 * cfg.burst;
    var ts := KeyTimes(Probe(cfg, "other"), "probe", 1 + n);
    ProbeTimes(cfg, n);
    assert ts[n - 1] - ts[0] == cfg.ttl + 1;
    hide Probe;
    assert Quota(WithoutEviction(cfg), ts, 0, n - 1) == cfg.burst as real + Refill(cfg.rate, cfg.ttl + 1);
    assert (n - 1 - 0 + 1) as real == 2.0 * cfg.burst as real;
  }

  lemma ProbeIsSorted(cfg: Config)
    requires cfg.Valid() && cfg.ttl > 0
    ensures NonDecreasing(Probe(cfg, "other"))
  {
    hide Wait;
  }

  lemma RefusedWhenOverQuota(cfg: Config, calls: seq<Call>, key: string) returns (k: nat)
    requires cfg.Valid() && Transparent(cfg) && NonDecreasing(calls)
    requires !AllWithinQuota(cfg, KeyTimes(calls, key, |calls|))
    ensures k < |calls| && calls[k].key == key && !Verdict(cfg, calls, k)
  {
    hide Verdict, KeyTimes, AllWithinQuota, NonDecreasing, Transparent;
    KeyNeverRefusedIffConforming(cfg, calls, key);
    k :| 0 <= k < |calls| && calls[k].key == key && !Verdict(cfg, calls, k);
  }

  /** A single bucket cannot admit the probe's two bursts when it does not refill in between. */
  lemma ProbeIsRefusedWithoutEviction(cfg: Config) returns (k: nat)
    requires cfg.Valid() && cfg.ttl > 0 && cfg.maxBuckets == 0 && !RefillsWithinTtl(cfg)
    ensures k <= 2 * cfg.burst && !Verdict(WithoutEviction(cfg), Probe(cfg, "other"), k)
  {
    assert |Probe(cfg, "other")| == 1 + 2 * cfg.burst;
    assert WithoutEviction(cfg).Valid() && Transparent(WithoutEviction(cfg));
    ProbeIsSorted(cfg);
    ProbeIsOverQuota(cfg);
    hide *;
    k := RefusedWhenOverQuota(WithoutEviction(cfg), Probe(cfg, "other"), "probe");
  }

  // ---------- how much eviction can give away

  function Max(a: int, b: int): int {
    if a >= b then a else b
  }

  /** The idle time that `m` evictions of one key take at least. */
  ghost function Gaps(cfg: Config, m: nat): int {
    if m == 0 then 0 else Gaps(cfg, m - 1) + cfg.ttl + 1
  }

  /** What a key can be granted over `span` when it is evicted `m` times: a burst for the bucket it starts with,
      one for each bucket it is given anew, and the refill outside the idle gaps. */
  ghost function Grants(cfg: Config, m: nat, span: int): real {
    if m == 0 then cfg.burst as real + Refill(cfg.rate, span)
    else cfg.burst as real + Grants(cfg, m - 1, span - cfg.ttl - 1)
  }

  lemma {:induction false} GrantsGrow(cfg: Config, m: nat, x: int, y: int)
    requires cfg.Valid() && Gaps(cfg, m) <= x <= y
    ensures Grants(cfg, m, y) == Grants(cfg, m, x) + Refill(cfg.rate, y - x)
    ensures cfg.burst as real <= Grants(cfg, m, x) <= Grants(cfg, m, y)
  {
    hide Refill;
    RefillGrows(cfg.rate, 0, y - x);
    if m == 0 {
      RefillAdds(cfg.rate, x, y - x);
      RefillGrows(cfg.rate, 0, x);
    } else {
      GrantsGrow(cfg, m - 1, x - cfg.ttl - 1, y - cfg.ttl - 1);
    }
  }

  /** The least time between two evictions of one key: it must be idle past the TTL, and a cleanup due again. */
  function Turnaround(ttl: int): (d: int)
    requires ttl > 0
    ensures d >= ttl + 1 && d >= CleanupInterval(ttl)
  {
    Max(ttl + 1, CleanupInterval(ttl))
  }

  /** How long it takes at least from a call of a key until it has been evicted `m` times. */
  ghost function Spacing(cfg: Config, m: nat): int
    requires m > 0 ==> cfg.ttl > 0
  {
    if m == 0 then 0 else if m == 1 then cfg.ttl + 1 else Spacing(cfg, m - 1) + Turnaround(cfg.ttl)
  }

  /** `n` admissions since `from`, as of `now`, with `m` evictions in between: what was granted and what is left
      to grant fit together. */
  ghost predicate WithinGrants(cfg: Config, t: Table, key: string, n: nat, from: int, now: int, m: nat) {
    (cfg.ttl <= 0 ==> m == 0) &&
    if key in t.buckets then
      var b := t.buckets[key];
      var seen := Max(b.lastSeen, from) - from;
      (b.lastSeen < from ==> n == 0) && Gaps(cfg, m) <= seen && n as real + b.tokens <= Grants(cfg, m, seen)
    else
      Gaps(cfg, m) <= now - from && n as real + cfg.burst as real <= Grants(cfg, m, now - from)
  }

  /** From an instant after Go's zero time on, `m` evictions took their time: the last cleanup, and all that the key
      was seen to do since, came no sooner. */
  ghost predicate Spaced(cfg: Config, t: Table, key: string, from: int, m: nat) {
    m > 0 ==>
      (cfg.ttl > 0 &&
       (from > 0 ==>
          var soonest := from + Spacing(cfg, m);
          soonest <= t.lastCleanup && (key in t.buckets ==> soonest <= t.buckets[key].lastSeen)))
  }

  /** The evictions to count once a call at `now` has cleaned up; those before the first admission do not matter. */
  ghost function Evictions(cfg: Config, t: Table, key: string, n: nat, now: int, m: nat): nat {
    if key in t.buckets && key !in Cleaned(cfg, t, now).buckets then (if n == 0 then 0 else m + 1) else m
  }

  /** An eviction costs the key a whole gap and is worth at most a burst. */
  lemma CleanupStaysWithinGrants(
    cfg: Config, t: Table, key: string, n: nat, from: int, now: int, now': int, m: nat)
    requires cfg.Valid() && from <= now <= now'
    requires TableOk(cfg, t, now) && WithinGrants(cfg, t, key, n, from, now, m)
    ensures var c := Cleaned(cfg, t, now');
            && WithinGrants(cfg, c, key, n, from, now', Evictions(cfg, t, key, n, now', m))
            && (key in c.buckets ==> key in t.buckets && c.buckets[key] == t.buckets[key])
  {
    hide Refill;
    if key !in t.buckets {
      GrantsGrow(cfg, m, now - from, now' - from);
    } else if key !in Cleaned(cfg, t, now').buckets {
      var b := t.buckets[key];
      if n == 0 {
        GrantsGrow(cfg, 0, 0, now' - from);
      } else {
        GrantsGrow(cfg, m, b.lastSeen - from, now' - from - cfg.ttl - 1);
      }
    }
  }

  lemma CleanupStaysSpaced(cfg: Config, t: Table, key: string, n: nat, from: int, now: int, now': int, m: nat)
    requires from <= now <= now' && TableOk(cfg, t, now)
    requires key in t.buckets && t.buckets[key].lastSeen < from ==> n == 0
    requires Spaced(cfg, t, key, from, m)
    ensures Spaced(cfg, Cleaned(cfg, t, now'), key, from, Evictions(cfg, t, key, n, now', m))
  {
    hide CleanupInterval;
    SpacingPositive(cfg, m);
  }

  lemma {:induction false} SpacingPositive(cfg: Config, m: nat)
    requires m > 0 ==> cfg.ttl > 0
    ensures Spacing(cfg, m) >= 0
  {
    if m > 1 {
      SpacingPositive(cfg, m - 1);
    }
  }

  lemma ServeStaysWithinGrants(
    cfg: Config, t: Table, key: string, n: nat, from: int, now: int, call: Call, m: nat)
    requires cfg.Valid() && from <= now <= call.now
    requires TableOk(cfg, t, now) && WithinGrants(cfg, t, key, n, from, now, m)
    ensures var (u, allowed) := Serve(cfg, t, call.key, call.now);
            WithinGrants(cfg, u, key, n + (if call.key == key && allowed then 1 else 0), from, call.now,
                         Evictions(cfg, t, key, n, call.now, m))
  {
    hide Refill, Grants, Gaps, Cleaned, Evictions;
    CleanupStaysWithinGrants(cfg, t, key, n, from, now, call.now, m);
    var c, m' := Cleaned(cfg, t, call.now), Evictions(cfg, t, key, n, call.now, m);
    if key in c.buckets {
      var b := c.buckets[key];
      TakeKeepsRange(cfg, b, call.now);
      GrantsGrow(cfg, m', Max(b.lastSeen, from) - from, call.now - from);
    }
  }

  lemma ServeStaysSpaced(cfg: Config, t: Table, key: string, n: nat, from: int, now: int, call: Call, m: nat)
    requires from <= now <= call.now && TableOk(cfg, t, now)
    requires key in t.buckets && t.buckets[key].lastSeen < from ==> n == 0
    requires Spaced(cfg, t, key, from, m)
    ensures Spaced(cfg, Serve(cfg, t, call.key, call.now).0, key, from, Evictions(cfg, t, key, n, call.now, m))
  {
    hide Refill, Spacing, Evictions;
    CleanupStaysSpaced(cfg, t, key, n, from, now, call.now, m);
    CleanedBehind(cfg, t, now, call.now);
    hide Cleaned;
    var m' := Evictions(cfg, t, key, n, call.now, m);
    assert m' > 0 && from > 0 ==> from + Spacing(cfg, m') <= call.now by {
      if m' > 0 {
        SpacingPositive(cfg, m');
      }
    }
  }

  lemma CleanedBehind(cfg: Config, t: Table, now: int, now': int)
    requires now <= now' && TableOk(cfg, t, now)
    ensures var c := Cleaned(cfg, t, now'); c.lastCleanup == ZERO_TIME || c.lastCleanup <= now'
  {
  }

  lemma {:induction false} HistoryStaysWithinGrants(cfg: Config, calls: seq<Call>, key: string, a: nat, k: nat)
      returns (m: nat)
    requires cfg.Valid() && NonDecreasing(calls) && a <= k <= |calls| && a < |calls|
    ensures WithinGrants(cfg, TableAt(cfg, calls, k), key, Admitted(cfg, calls, key, a, k),
                         calls[a].now, Max(Clock(calls, k), calls[a].now), m)
    ensures Spaced(cfg, TableAt(cfg, calls, k), key, calls[a].now, m)
    decreases k
  {
    hide Refill, Serve, Spaced;
    TableStaysOk(cfg, calls, k);
    if a == k {
      m := 0;
      GrantsGrow(cfg, 0, 0, 0);
      RefillGrows(cfg.rate, 0, 0);
      NothingToSpace(cfg, TableAt(cfg, calls, k), key, calls[a].now);
    } else {
      TableStaysOk(cfg, calls, k - 1);
      var before := HistoryStaysWithinGrants(cfg, calls, key, a, k - 1);
      var t, n := TableAt(cfg, calls, k - 1), Admitted(cfg, calls, key, a, k - 1);
      var now := Max(Clock(calls, k - 1), calls[a].now);
      m := Evictions(cfg, t, key, n, calls[k - 1].now, before);
      ServeStaysWithinGrants(cfg, t, key, n, calls[a].now, now, calls[k - 1], before);
      ServeStaysSpaced(cfg, t, key, n, calls[a].now, now, calls[k - 1], before);
    }
  }

  lemma NothingToSpace(cfg: Config, t: Table, key: string, from: int)
    ensures Spaced(cfg, t, key, from, 0)
  {
  }

  /** Whatever the TTL and the cap, a key's admissions in a window are those of one bucket, plus a burst for each
      eviction that the window has room for, less the refill of the idle time that the eviction took. On a clock past
      Go's zero time, evictions are a cleanup interval apart as well. */
  lemma GrantsBound(cfg: Config, calls: seq<Call>, key: string, a: nat, k: nat) returns (m: nat)
    requires cfg.Valid() && NonDecreasing(calls) && a < k <= |calls|
    ensures cfg.ttl <= 0 ==> m == 0
    ensures Gaps(cfg, m) <= calls[k - 1].now - calls[a].now
    ensures calls[a].now > 0 && m > 0 ==> cfg.ttl > 0 && Spacing(cfg, m) <= calls[k - 1].now - calls[a].now
    ensures Admitted(cfg, calls, key, a, k) as real <= Grants(cfg, m, calls[k - 1].now - calls[a].now)
  {
    hide Refill, Grants, Gaps, Serve, Spacing;
    m := HistoryStaysWithinGrants(cfg, calls, key, a, k);
    TableStaysOk(cfg, calls, k);
    var t := TableAt(cfg, calls, k);
    if m > 0 {
      SpacingPositive(cfg, m);
    }
    if key in t.buckets {
      var seen := Max(t.buckets[key].lastSeen, calls[a].now);
      GrantsGrow(cfg, m, seen - calls[a].now, calls[k - 1].now - calls[a].now);
    }
  }

  /** When an idle bucket refills within the TTL, evictions add nothing to the quota of a single bucket. */
  lemma {:induction false} GrantsWithinQuota(cfg: Config, m: nat, span: int)
    requires cfg.Valid() && Gaps(cfg, m) <= span && (m > 0 ==> RefillsWithinTtl(cfg))
    ensures Grants(cfg, m, span) <= cfg.burst as real + Refill(cfg.rate, span)
  {
    hide Refill;
    if m > 0 {
      GrantsWithinQuota(cfg, m - 1, span - cfg.ttl - 1);
      RefillAdds(cfg.rate, span - cfg.ttl - 1, cfg.ttl + 1);
    }
  }

  /** A burst for the bucket a key starts with, and one for each time it is evicted. */
  ghost function Bursts(cfg: Config, m: nat): int {
    if m == 0 then cfg.burst else Bursts(cfg, m - 1) + cfg.burst
  }

  lemma {:induction false} GrantsWithinBursts(cfg: Config, m: nat, span: int)
    requires cfg.Valid() && cfg.ttl > 0
    ensures Grants(cfg, m, span) <= Bursts(cfg, m) as real + Refill(cfg.rate, span)
  {
    hide Refill;
    if m > 0 {
      GrantsWithinBursts(cfg, m - 1, span - cfg.ttl - 1);
      RefillGrows(cfg.rate, span - cfg.ttl - 1, span);
    }
  }

  lemma {:induction false} BurstsAdd(cfg: Config, m: nat)
    ensures Bursts(cfg, m) == cfg.burst * (1 + m)
  {
    if m > 0 {
      BurstsAdd(cfg, m - 1);
      assert cfg.burst * (1 + m) == cfg.burst * m + cfg.burst;
    }
  }

  lemma {:induction false} GapsAdd(cfg: Config, m: nat)
    ensures Gaps(cfg, m) == m * (cfg.ttl + 1)
  {
    if m > 0 {
      GapsAdd(cfg, m - 1);
      assert m * (cfg.ttl + 1) == (m - 1) * (cfg.ttl + 1) + cfg.ttl + 1;
    }
  }

  lemma QuotientTimes(x: real, d: real)
    requires d > 0.0
    ensures x / d * d == x
  {
  }

  lemma FitsQuotient(m: real, d: real, q: real)
    requires d > 0.0 && m * d <= q * d
    ensures m <= q
  {
  }

  lemma ScaledUp(b: real, m: real, q: real)
    requires b >= 0.0 && m <= q
    ensures b * (1.0 + m) <= b * (1.0 + q)
  {
    assert b * (q - m) >= 0.0;
    assert b * (1.0 + q) == b * (1.0 + m) + b * (q - m);
  }

  lemma GapsWithinFormula(cfg: Config, m: nat, span: int)
    requires cfg.Valid() && cfg.ttl > 0 && m * (cfg.ttl + 1) <= span
    ensures (cfg.burst * (1 + m)) as real <= cfg.burst as real * (1.0 + span as real / cfg.ttl as real)
  {
    var d, x, n, b := cfg.ttl as real, span as real, m as real, cfg.burst as real;
    assert m * cfg.ttl + m == m * (cfg.ttl + 1);
    assert n * d == (m * cfg.ttl) as real <= x;
    QuotientTimes(x, d);
    FitsQuotient(n, d, x / d);
    ScaledUp(b, n, x / d);
    assert (cfg.burst * (1 + m)) as real == b * (1.0 + n);
  }

  lemma GrantsInFormula(cfg: Config, m: nat, span: int)
    requires cfg.Valid() && cfg.ttl > 0 && Gaps(cfg, m) <= span
    ensures m * (cfg.ttl + 1) <= span
    ensures Grants(cfg, m, span) <= (cfg.burst * (1 + m)) as real + Refill(cfg.rate, span)
    ensures (cfg.burst * (1 + m)) as real <= cfg.burst as real * (1.0 + span as real / cfg.ttl as real)
  {
    hide Refill, Grants, Bursts, Gaps;
    GapsAdd(cfg, m);
    GrantsWithinBursts(cfg, m, span);
    BurstsAdd(cfg, m);
    GapsWithinFormula(cfg, m, span);
  }

  /** With any TTL at all, a key is admitted at most Burst * (1 + m) + Rate * W times in a window of length W,
      where `m` gaps of a TTL and a nanosecond fit into it: at most Burst * (1 + W / TTL) + Rate * W times. */
  lemma EvictionBound(cfg: Config, calls: seq<Call>, key: string, a: nat, k: nat) returns (m: nat)
    requires cfg.Valid() && cfg.ttl > 0 && NonDecreasing(calls) && a < k <= |calls|
    ensures var span := calls[k - 1].now - calls[a].now;
            && m * (cfg.ttl + 1) <= span
            && Admitted(cfg, calls, key, a, k) as real <= (cfg.burst * (1 + m)) as real + Refill(cfg.rate, span)
            && (cfg.burst * (1 + m)) as real <= cfg.burst as real * (1.0 + span as real / cfg.ttl as real)
  {
    m := GrantsBound(cfg, calls, key, a, k);
    hide *;
    GrantsInFormula(cfg, m, calls[k - 1].now - calls[a].now);
  }
}
