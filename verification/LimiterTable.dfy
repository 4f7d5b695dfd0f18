/** The limiter's table of buckets as a value, one step per call, and whole histories of calls. */
module LimiterTable {
  import Basics
  import opened TokenBucket

  // Go's zero time, which stands for "never".
  const ZERO_TIME: int := 0

  /** Every key's bucket, and the instant of the latest cleanup. */
  datatype Table = Table(buckets: map<string, BucketState>, lastCleanup: int)

  datatype Call = Call(key: string, now: int)

  const EMPTY := Table(map[], ZERO_TIME)

  /** The larger of one minute and half the TTL. */
  function CleanupInterval(ttl: int): (interval: int)
    requires ttl > 0
    ensures interval >= Basics.MINUTE && interval >= ttl / 2 && (interval == Basics.MINUTE || interval == ttl / 2)
  {
    if ttl / 2 > Basics.MINUTE then ttl / 2 else Basics.MINUTE
  }

  predicate CleanupDue(cfg: Config, t: Table, now: int) {
    cfg.ttl > 0 &&
    (t.lastCleanup == ZERO_TIME || now - t.lastCleanup >= CleanupInterval(cfg.ttl))
  }

  predicate Idle(cfg: Config, b: BucketState, now: int) {
    now - b.lastSeen > cfg.ttl
  }

  function Cleaned(cfg: Config, t: Table, now: int): Table {
    if CleanupDue(cfg, t, now) then
      Table(map k | k in t.buckets && !Idle(cfg, t.buckets[k], now) :: t.buckets[k], now)
    else t
  }

  predicate Full(cfg: Config, t: Table) {
    cfg.maxBuckets > 0 && |t.buckets| >= cfg.maxBuckets
  }

  /** The table once `key` has a bucket, unless the table is full. */
  function WithBucket(cfg: Config, t: Table, key: string, now: int): Table {
    if key in t.buckets || Full(cfg, t) then t
    else t.(buckets := t.buckets[key := Fresh(cfg, now)])
  }

  /** One call to the limiter: the table after it, and its answer. */
  function Serve(cfg: Config, t: Table, key: string, now: int): (Table, bool) {
    var u := WithBucket(cfg, Cleaned(cfg, t, now), key, now);
    if key !in u.buckets then (u, false)
    else
      var (b, allowed) := Take(cfg, u.buckets[key], now);
      (u.(buckets := u.buckets[key := b]), allowed)
  }

  // ---------- histories

  ghost predicate NonDecreasing(calls: seq<Call>) {
    forall i, j :: 0 <= i <= j < |calls| ==> calls[i].now <= calls[j].now
  }

  /** The table after the first `k` calls to a new limiter. */
  ghost function TableAt(cfg: Config, calls: seq<Call>, k: nat): Table
    requires k <= |calls|
  {
    if k == 0 then EMPTY
    else Serve(cfg, TableAt(cfg, calls, k - 1), calls[k - 1].key, calls[k - 1].now).0
  }

  ghost predicate Verdict(cfg: Config, calls: seq<Call>, k: nat)
    requires k < |calls|
  {
    Serve(cfg, TableAt(cfg, calls, k), calls[k].key, calls[k].now).1
  }

  /** When `key` was called, among the first `k` calls. */
  ghost function KeyTimes(calls: seq<Call>, key: string, k: nat): seq<int>
    requires k <= |calls|
  {
    if k == 0 then []
    else KeyTimes(calls, key, k - 1) + if calls[k - 1].key == key then [calls[k - 1].now] else []
  }

  /** How many of the calls `i..j` asked for `key` and were admitted. */
  ghost function Admitted(cfg: Config, calls: seq<Call>, key: string, i: nat, j: nat): nat
    requires i <= j <= |calls|
  {
    if i == j then 0
    else Admitted(cfg, calls, key, i, j - 1)
         + if calls[j - 1].key == key && Verdict(cfg, calls, j - 1) then 1 else 0
  }

  // ---------- what every step keeps

  ghost predicate TableOk(cfg: Config, t: Table, now: int) {
    && (forall k :: k in t.buckets ==>
          InRange(cfg, t.buckets[k]) && t.buckets[k].last == t.buckets[k].lastSeen <= now)
    && (t.lastCleanup == ZERO_TIME || t.lastCleanup <= now)
    && (forall k :: k in t.buckets && cfg.ttl > 0 ==> t.lastCleanup - t.buckets[k].lastSeen <= cfg.ttl)
  }

  lemma {:induction false} StepKeepsTable(cfg: Config, t: Table, key: string, now: int, now': int)
    requires cfg.Valid() && TableOk(cfg, t, now) && now <= now'
    ensures TableOk(cfg, Serve(cfg, t, key, now').0, now')
  {
    var u := WithBucket(cfg, Cleaned(cfg, t, now'), key, now');
    if key in u.buckets {
      TakeKeepsRange(cfg, u.buckets[key], now');
    }
  }

  lemma SubmapCard(small: map<string, BucketState>, big: map<string, BucketState>)
    requires small.Keys <= big.Keys
    ensures |small| <= |big|
  {
    KeysCard(small.Keys, big.Keys);
  }

  lemma {:induction false} KeysCard(a: set<string>, b: set<string>)
    requires a <= b
    ensures |a| <= |b|
  {
    assert b == a + (b - a);
  }

  /** The instant from which call `k` sees the table: the previous call's. */
  ghost function Clock(calls: seq<Call>, k: nat): int
    requires 0 < |calls| && k <= |calls|
  {
    if k == 0 then calls[0].now else calls[k - 1].now
  }

  lemma {:induction false} TableStaysOk(cfg: Config, calls: seq<Call>, k: nat)
    requires cfg.Valid() && NonDecreasing(calls) && 0 < |calls| && k <= |calls|
    ensures TableOk(cfg, TableAt(cfg, calls, k), Clock(calls, k))
  {
    if k > 0 {
      TableStaysOk(cfg, calls, k - 1);
      StepKeepsTable(cfg, TableAt(cfg, calls, k - 1), calls[k - 1].key, Clock(calls, k - 1), calls[k - 1].now);
    }
  }

  // ---------- table bounds

  /** With a cap, the map never outgrows it, however the clock moves. */
  lemma {:induction false} CapHolds(cfg: Config, calls: seq<Call>, k: nat)
    requires k <= |calls| && cfg.maxBuckets > 0
    ensures |TableAt(cfg, calls, k).buckets| <= cfg.maxBuckets
  {
    if k > 0 {
      CapHolds(cfg, calls, k - 1);
      var t, key, now := TableAt(cfg, calls, k - 1), calls[k - 1].key, calls[k - 1].now;
      var c := Cleaned(cfg, t, now);
      SubmapCard(c.buckets, t.buckets);
      var u := WithBucket(cfg, c, key, now);
      if key in u.buckets {
        assert u.buckets[key := Take(cfg, u.buckets[key], now).0].Keys == u.buckets.Keys;
      }
    }
  }

  /** With a TTL, a bucket that a call leaves behind was seen at most a TTL ago if that call
      cleaned up, and less than a TTL and a cleanup interval ago if it did not. */
  lemma StaleBucketsBounded(cfg: Config, calls: seq<Call>, k: nat)
    requires cfg.Valid() && NonDecreasing(calls) && k < |calls|
    ensures var before, after, now := TableAt(cfg, calls, k), TableAt(cfg, calls, k + 1), calls[k].now;
            cfg.ttl > 0 ==> forall key :: key in after.buckets ==>
              if CleanupDue(cfg, before, now) then now - after.buckets[key].lastSeen <= cfg.ttl
              else now - after.buckets[key].lastSeen < cfg.ttl + CleanupInterval(cfg.ttl)
  {
    TableStaysOk(cfg, calls, k);
    TableStaysOk(cfg, calls, k + 1);
  }

  /** On any clock, forward or back: a cleanup happens exactly when there is a TTL and none was ever made, or the last
      one is both a minute and half the TTL ago; it takes away exactly the buckets unseen for longer than the TTL. */
  lemma CleanupLaw(cfg: Config, t: Table, now: int)
    ensures var u, elapsed := Cleaned(cfg, t, now), now - t.lastCleanup;
            if cfg.ttl > 0 && (t.lastCleanup == ZERO_TIME || (elapsed >= 60 * 1_000_000_000 && elapsed >= cfg.ttl / 2))
            then
              && u.lastCleanup == now
              && (forall k :: k in u.buckets <==> k in t.buckets && now - t.buckets[k].lastSeen <= cfg.ttl)
              && (forall k :: k in u.buckets ==> u.buckets[k] == t.buckets[k])
            else u == t
  {
  }

  /** A call leaves its key without a bucket only when the cap is reached: the table then holds exactly as many. */
  lemma RefusedOnlyWhenFull(cfg: Config, calls: seq<Call>, k: nat)
    requires cfg.Valid() && k < |calls|
    ensures var after := TableAt(cfg, calls, k + 1);
            calls[k].key in after.buckets ||
            (!Verdict(cfg, calls, k) && cfg.maxBuckets > 0 && |after.buckets| == cfg.maxBuckets)
  {
    if cfg.maxBuckets > 0 {
      CapHolds(cfg, calls, k + 1);
    }
  }

  /** The first call of a key that has no bucket and finds room is admitted, and leaves all but one of a burst. */
  lemma FirstCallAdmitted(cfg: Config, t: Table, key: string, now: int)
    requires cfg.Valid() && key !in Cleaned(cfg, t, now).buckets
    requires cfg.maxBuckets > 0 ==> |Cleaned(cfg, t, now).buckets| < cfg.maxBuckets
    ensures var (u, allowed) := Serve(cfg, t, key, now);
            allowed && key in u.buckets && u.buckets[key] == BucketState((cfg.burst - 1) as real, now, now)
  {
    hide Refill;
  }
}
