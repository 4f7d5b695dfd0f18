/** What a bucket decides over the whole history of one key, when the clock never goes back. */
module Conformance {
  import opened TokenBucket

  ghost predicate Sorted(ts: seq<int>) {
    forall i, j :: 0 <= i <= j < |ts| ==> ts[i] <= ts[j]
  }

  /** The bucket after the first `k` calls of a key first seen at `ts[0]`. */
  ghost function StateAt(cfg: Config, ts: seq<int>, k: nat): BucketState
    requires 0 < |ts| && k <= |ts|
  {
    if k == 0 then Fresh(cfg, ts[0]) else Take(cfg, StateAt(cfg, ts, k - 1), ts[k - 1]).0
  }

  ghost predicate Decision(cfg: Config, ts: seq<int>, k: nat)
    requires k < |ts|
  {
    Take(cfg, StateAt(cfg, ts, k), ts[k]).1
  }

  ghost function Decisions(cfg: Config, ts: seq<int>): seq<bool> {
    seq(|ts|, k requires 0 <= k < |ts| => Decision(cfg, ts, k))
  }

  /** How many of the calls `i..j` (end excluded) are selected. */
  ghost function Count(sel: seq<bool>, i: nat, j: nat): nat
    requires i <= j <= |sel|
  {
    if i == j then 0 else Count(sel, i, j - 1) + if sel[j - 1] then 1 else 0
  }

  /** Tokens available to call `k` when exactly the selected earlier calls each took one. */
  ghost function Before(cfg: Config, ts: seq<int>, sel: seq<bool>, k: nat): real
    requires k < |ts| == |sel|
  {
    if k == 0 then cfg.burst as real
    else
      var left := Before(cfg, ts, sel, k - 1) - if sel[k - 1] then 1.0 else 0.0;
      Min(left + Refill(cfg.rate, ts[k] - ts[k - 1]), cfg.burst as real)
  }

  /** Calls `i` to `j` may hold this many admitted members. */
  ghost function Quota(cfg: Config, ts: seq<int>, i: nat, j: nat): real
    requires i < |ts| && j < |ts|
  {
    cfg.burst as real + Refill(cfg.rate, ts[j] - ts[i])
  }

  /** Every window of the selected calls, from one member to another, is within its quota. */
  ghost predicate Conforms(cfg: Config, ts: seq<int>, sel: seq<bool>)
    requires |ts| == |sel|
  {
    forall i, j :: 0 <= i <= j < |ts| && sel[i] && sel[j] ==>
      Count(sel, i, j + 1) as real <= Quota(cfg, ts, i, j)
  }

  // ---------- levels and windows

  lemma {:induction false} LevelWithinWindow(cfg: Config, ts: seq<int>, sel: seq<bool>, i: nat, k: nat)
    requires cfg.Valid() && Sorted(ts) && i <= k < |ts| == |sel|
    ensures Before(cfg, ts, sel, k) <= Quota(cfg, ts, i, k) - Count(sel, i, k) as real
    decreases k
  {
    RefillGrows(cfg.rate, 0, 0);
    if i < k {
      LevelWithinWindow(cfg, ts, sel, i, k - 1);
      RefillAdds(cfg.rate, ts[k - 1] - ts[i], ts[k] - ts[k - 1]);
    }
  }

  /** Some window is exhausted exactly to the current level. */
  lemma {:induction false} LevelAttained(cfg: Config, ts: seq<int>, sel: seq<bool>, k: nat) returns (i: nat)
    requires cfg.Valid() && k < |ts| == |sel|
    ensures i <= k
    ensures Before(cfg, ts, sel, k) == Quota(cfg, ts, i, k) - Count(sel, i, k) as real
  {
    RefillGrows(cfg.rate, 0, 0);
    i := k;
    if 0 < k && Before(cfg, ts, sel, k) < cfg.burst as real {
      i := LevelAttained(cfg, ts, sel, k - 1);
      RefillAdds(cfg.rate, ts[k - 1] - ts[i], ts[k] - ts[k - 1]);
    }
  }

  lemma {:induction false} FirstSelected(sel: seq<bool>, i: nat, k: nat) returns (f: nat)
    requires i <= k < |sel| && sel[k]
    ensures i <= f <= k && sel[f] && Count(sel, i, k) == Count(sel, f, k)
    decreases k - i
  {
    f := i;
    if !sel[i] {
      SkipFirst(sel, i, k);
      f := FirstSelected(sel, i + 1, k);
    }
  }

  lemma {:induction false} SkipFirst(sel: seq<bool>, i: nat, k: nat)
    requires i < k <= |sel| && !sel[i]
    ensures Count(sel, i, k) == Count(sel, i + 1, k)
    decreases k
  {
    if i + 1 < k {
      SkipFirst(sel, i, k - 1);
    }
  }

  /** A selection conforms exactly when every selected call finds a whole token. */
  lemma {:induction false} ConformsIffServed(cfg: Config, ts: seq<int>, sel: seq<bool>)
    requires cfg.Valid() && Sorted(ts) && |ts| == |sel|
    ensures Conforms(cfg, ts, sel) <==> forall k :: 0 <= k < |ts| && sel[k] ==> Before(cfg, ts, sel, k) >= 1.0
  {
    if Conforms(cfg, ts, sel) {
      forall k | 0 <= k < |ts| && sel[k] ensures Before(cfg, ts, sel, k) >= 1.0 {
        var i := LevelAttained(cfg, ts, sel, k);
        var f := FirstSelected(sel, i, k);
        RefillGrows(cfg.rate, ts[k] - ts[f], ts[k] - ts[i]);
        assert Count(sel, f, k + 1) as real <= Quota(cfg, ts, f, k);
      }
    }
    if forall k :: 0 <= k < |ts| && sel[k] ==> Before(cfg, ts, sel, k) >= 1.0 {
      forall i, j | 0 <= i <= j < |ts| && sel[i] && sel[j]
        ensures Count(sel, i, j + 1) as real <= Quota(cfg, ts, i, j)
      {
        LevelWithinWindow(cfg, ts, sel, i, j);
      }
    }
  }

  // ---------- the bucket's own decisions

  /** The running bucket holds exactly the level computed from its own decisions. */
  lemma {:induction false} BucketHoldsLevel(cfg: Config, ts: seq<int>, k: nat)
    requires cfg.Valid() && Sorted(ts) && k < |ts|
    ensures Refilled(cfg, StateAt(cfg, ts, k), ts[k]).tokens == Before(cfg, ts, Decisions(cfg, ts), k)
    ensures Decision(cfg, ts, k) <==> Before(cfg, ts, Decisions(cfg, ts), k) >= 1.0
    ensures Refilled(cfg, StateAt(cfg, ts, k), ts[k]).last == ts[k]
    ensures Before(cfg, ts, Decisions(cfg, ts), k) <= cfg.burst as real
  {
    if k > 0 {
      BucketHoldsLevel(cfg, ts, k - 1);
      RefillGrows(cfg.rate, 0, 0);
    }
  }

  /** Decision law: a call is admitted exactly when every window that would end with it,
      counting the calls admitted so far and itself, stays within its quota. */
  lemma {:induction false} DecisionLaw(cfg: Config, ts: seq<int>, k: nat)
    requires cfg.Valid() && Sorted(ts) && k < |ts|
    ensures Decision(cfg, ts, k) <==>
            forall i :: 0 <= i <= k ==> (Count(Decisions(cfg, ts), i, k) + 1) as real <= Quota(cfg, ts, i, k)
  {
    var ds := Decisions(cfg, ts);
    BucketHoldsLevel(cfg, ts, k);
    var w := LevelAttained(cfg, ts, ds, k);
    if Decision(cfg, ts, k) {
      forall i | 0 <= i <= k ensures (Count(ds, i, k) + 1) as real <= Quota(cfg, ts, i, k) {
        LevelWithinWindow(cfg, ts, ds, i, k);
      }
    }
  }

  lemma {:induction false} CountBounds(sel: seq<bool>, i: nat, j: nat)
    requires i <= j <= |sel|
    ensures Count(sel, i, j) <= j - i
    ensures (forall k :: i <= k < j ==> sel[k]) ==> Count(sel, i, j) == j - i
    decreases j
  {
    if i < j {
      CountBounds(sel, i, j - 1);
    }
  }

  /** Exact conformance: all calls are admitted exactly when every window of calls is within its quota. */
  lemma {:induction false} AllAdmittedIffConforming(cfg: Config, ts: seq<int>)
    requires cfg.Valid() && Sorted(ts)
    ensures (forall k :: 0 <= k < |ts| ==> Decision(cfg, ts, k)) <==>
            forall i, j :: 0 <= i <= j < |ts| ==> (j - i + 1) as real <= Quota(cfg, ts, i, j)
  {
    var ds := Decisions(cfg, ts);
    if forall k :: 0 <= k < |ts| ==> Decision(cfg, ts, k) {
      forall i, j | 0 <= i <= j < |ts| ensures (j - i + 1) as real <= Quota(cfg, ts, i, j) {
        DecisionLaw(cfg, ts, j);
        CountBounds(ds, i, j);
      }
    }
    if forall i, j :: 0 <= i <= j < |ts| ==> (j - i + 1) as real <= Quota(cfg, ts, i, j) {
      forall k | 0 <= k < |ts| ensures Decision(cfg, ts, k) {
        forall i | 0 <= i <= k ensures (Count(ds, i, k) + 1) as real <= Quota(cfg, ts, i, k) {
          CountBounds(ds, i, k);
        }
        DecisionLaw(cfg, ts, k);
      }
    }
  }

  /** The admitted calls themselves conform, whatever was asked for. */
  lemma AdmittedConform(cfg: Config, ts: seq<int>)
    requires cfg.Valid() && Sorted(ts)
    ensures Conforms(cfg, ts, Decisions(cfg, ts))
  {
    forall k | 0 <= k < |ts| && Decisions(cfg, ts)[k]
      ensures Before(cfg, ts, Decisions(cfg, ts), k) >= 1.0
    {
      BucketHoldsLevel(cfg, ts, k);
    }
    ConformsIffServed(cfg, ts, Decisions(cfg, ts));
  }

  /** No conforming selection is ever ahead of the bucket; where the bucket is poorer,
      it has already admitted at least that many calls more. */
  lemma {:induction false} BucketStaysAhead(cfg: Config, ts: seq<int>, sel: seq<bool>, k: nat)
    requires cfg.Valid() && Sorted(ts) && k < |ts| == |sel|
    requires Conforms(cfg, ts, sel)
    ensures var ds := Decisions(cfg, ts);
            Count(sel, 0, k) <= Count(ds, 0, k) &&
            Count(sel, 0, k + 1) <= Count(ds, 0, k + 1) &&
            Before(cfg, ts, sel, k) <= Before(cfg, ts, ds, k) + (Count(ds, 0, k) - Count(sel, 0, k)) as real
  {
    var ds := Decisions(cfg, ts);
    if k > 0 {
      BucketStaysAhead(cfg, ts, sel, k - 1);
    }
    BucketHoldsLevel(cfg, ts, k);
    ConformsIffServed(cfg, ts, sel);
    if sel[k] && !ds[k] {
      assert Before(cfg, ts, sel, k) > Before(cfg, ts, ds, k);
    }
  }

  /** Maximal permissiveness: at every prefix of the history, the bucket has admitted
      at least as many calls as any selection that conforms. */
  lemma MaximallyPermissive(cfg: Config, ts: seq<int>, sel: seq<bool>, k: nat)
    requires cfg.Valid() && Sorted(ts) && |ts| == |sel| && k <= |ts|
    requires Conforms(cfg, ts, sel)
    ensures Count(sel, 0, k) <= Count(Decisions(cfg, ts), 0, k)
  {
    if k > 0 {
      BucketStaysAhead(cfg, ts, sel, k - 1);
    }
  }
}
