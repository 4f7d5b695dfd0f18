/** When a key's present bucket bounds what its threads are granted together: exactly when nothing is ever evicted.
    With a TTL, a thread can draw from a bucket that another has evicted meanwhile. */
module EvictedBucket {
  import TokenBucket
  import opened LimiterTable
  import opened LimiterThreads

  const EARLY := 1

  /** When a cleanup is due again and a bucket last seen at `EARLY` is idle. */
  function Late(cfg: TokenBucket.Config): (late: int)
    requires cfg.ttl > 0
    ensures late - EARLY > cfg.ttl && late - EARLY >= CleanupInterval(cfg.ttl)
  {
    if cfg.ttl + 1 > CleanupInterval(cfg.ttl) then EARLY + cfg.ttl + 1 else EARLY + CleanupInterval(cfg.ttl)
  }

  function Object(now: int, tokens: int): BucketObject {
    BucketObject("k", now, TokenBucket.BucketState(tokens as real, now, now))
  }

  const NOTHING_YET := State(map[], [], ZERO_TIME, [Resting, Resting], [])

  const FIRST_LOOKING := State(map[], [], EARLY, [Looking("k", EARLY), Resting], [])

  /** Thread 0 has made a bucket and is about to draw from it. */
  function Stalled(burst: int): State {
    State(map["k" := 0], [Object(EARLY, burst)], EARLY, [Holding("k", EARLY, 0), Resting], [])
  }

  /** Thread 1 is about to evict that bucket. */
  function SecondCleaning(burst: int, late: int): State {
    Stalled(burst).(threads := [Holding("k", EARLY, 0), Cleaning("k", late, {"k"})], lastCleanup := late)
  }

  /** Thread 1 has evicted that bucket and is looking for another. */
  function SecondLooking(burst: int, late: int): State {
    State(map[], [Object(EARLY, burst)], late, [Holding("k", EARLY, 0), Looking("k", late)], [])
  }

  /** There is a new bucket; thread 1, in the given phase, has drawn `k` tokens from it. */
  function Drawn(burst: int, late: int, k: nat, p: Phase): State {
    State(map["k" := 1], [Object(EARLY, burst), Object(late, burst - k)], late, [Holding("k", EARLY, 0), p],
          seq(k, _ => Answered("k", late, 1, true)))
  }

  /** Thread 0 has drawn as well. */
  function Overdrawn(burst: nat, late: int): State {
    var s := Drawn(burst, late, burst, Resting);
    s.(heap := [Object(EARLY, burst - 1), Object(late, 0)], threads := [Resting, Resting],
       answers := s.answers + [Answered("k", EARLY, 0, true)])
  }

  ghost predicate Reaches(cfg: TokenBucket.Config, ss: seq<State>, steps: seq<Step>, s: State) {
    Execution(cfg, ss, steps) && ss[|steps|] == s
  }

  lemma OneMoreStep(cfg: TokenBucket.Config, ss: seq<State>, steps: seq<Step>, step: Step, s: State)
      returns (ss': seq<State>, steps': seq<Step>)
    requires Reaches(cfg, ss, steps, s) && Enabled(cfg, s, step)
    ensures Reaches(cfg, ss', steps', Apply(cfg, s, step)) && ss <= ss'
  {
    hide Enabled, Init;
    ss', steps' := ss + [Apply(cfg, s, step)], steps + [step];
    forall i | 0 <= i < |steps'|
      ensures Enabled(cfg, ss'[i], steps'[i]) && ss'[i + 1] == Apply(cfg, ss'[i], steps'[i])
    {
      assert ss'[i] == ss[i];
      assert i < |steps| ==> steps'[i] == steps[i] && ss'[i + 1] == ss[i + 1];
    }
  }

  lemma FirstThreadLooks(cfg: TokenBucket.Config) returns (ss: seq<State>, steps: seq<Step>)
    requires cfg.Valid() && cfg.ttl > 0
    ensures Reaches(cfg, ss, steps, FIRST_LOOKING)
  {
    ss, steps := [NOTHING_YET], [];
    assert Reaches(cfg, ss, steps, NOTHING_YET);
    hide Reaches;
    ss, steps := OneMoreStep(cfg, ss, steps, Sample(0, "k", EARLY), NOTHING_YET);
    var sampled := NOTHING_YET.(threads := [Sampled("k", EARLY), Resting]);
    assert sampled == Apply(cfg, NOTHING_YET, Sample(0, "k", EARLY));
    ss, steps := OneMoreStep(cfg, ss, steps, EnterCleanup(0), sampled);
    var cleaning := NOTHING_YET.(threads := [Cleaning("k", EARLY, {}), Resting], lastCleanup := EARLY);
    assert cleaning == Apply(cfg, sampled, EnterCleanup(0));
    ss, steps := OneMoreStep(cfg, ss, steps, LeaveCleanup(0), cleaning);
    assert FIRST_LOOKING == Apply(cfg, cleaning, LeaveCleanup(0));
  }

  lemma FirstThreadStalls(cfg: TokenBucket.Config, ss: seq<State>, steps: seq<Step>)
      returns (ss': seq<State>, steps': seq<Step>)
    requires cfg.Valid() && Reaches(cfg, ss, steps, FIRST_LOOKING)
    ensures Reaches(cfg, ss', steps', Stalled(cfg.burst))
  {
    hide Reaches;
    ss', steps' := OneMoreStep(cfg, ss, steps, Lookup(0), FIRST_LOOKING);
    var missed := FIRST_LOOKING.(threads := [Missed("k", EARLY), Resting]);
    assert missed == Apply(cfg, FIRST_LOOKING, Lookup(0));
    ss', steps' := OneMoreStep(cfg, ss', steps', Create(0), missed);
    assert Stalled(cfg.burst) == Apply(cfg, missed, Create(0));
  }

  lemma SecondThreadEvicts(cfg: TokenBucket.Config, ss: seq<State>, steps: seq<Step>)
      returns (ss': seq<State>, steps': seq<Step>)
    requires cfg.Valid() && cfg.ttl > 0 && Reaches(cfg, ss, steps, Stalled(cfg.burst))
    ensures Reaches(cfg, ss', steps', SecondLooking(cfg.burst, Late(cfg)))
  {
    ss', steps' := SecondThreadCleans(cfg, ss, steps);
    var late := Late(cfg);
    hide Reaches, Late;
    var cleaning, p := SecondCleaning(cfg.burst, late), Holding("k", EARLY, 0);
    ss', steps' := OneMoreStep(cfg, ss', steps', Visit(1, "k"), cleaning);
    var visited := cleaning.(threads := [p, Cleaning("k", late, {})], buckets := map[]);
    assert {"k"} - {"k"} == {} && cleaning.buckets - {"k"} == map[];
    assert visited == Apply(cfg, cleaning, Visit(1, "k"));
    ss', steps' := OneMoreStep(cfg, ss', steps', LeaveCleanup(1), visited);
    assert SecondLooking(cfg.burst, late) == Apply(cfg, visited, LeaveCleanup(1));
  }

  lemma SecondThreadCleans(cfg: TokenBucket.Config, ss: seq<State>, steps: seq<Step>)
      returns (ss': seq<State>, steps': seq<Step>)
    requires cfg.Valid() && cfg.ttl > 0 && Reaches(cfg, ss, steps, Stalled(cfg.burst))
    ensures Reaches(cfg, ss', steps', SecondCleaning(cfg.burst, Late(cfg)))
  {
    var late := Late(cfg);
    hide Reaches, Late;
    var stalled, p := Stalled(cfg.burst), Holding("k", EARLY, 0);
    ss', steps' := OneMoreStep(cfg, ss, steps, Sample(1, "k", late), stalled);
    var sampled := stalled.(threads := [p, Sampled("k", late)]);
    assert sampled == Apply(cfg, stalled, Sample(1, "k", late));
    ss', steps' := OneMoreStep(cfg, ss', steps', EnterCleanup(1), sampled);
    assert stalled.buckets.Keys == {"k"};
    assert SecondCleaning(cfg.burst, late) == Apply(cfg, sampled, EnterCleanup(1));
  }

  lemma SecondThreadReplaces(cfg: TokenBucket.Config, ss: seq<State>, steps: seq<Step>)
      returns (ss': seq<State>, steps': seq<Step>)
    requires cfg.Valid() && cfg.ttl > 0 && Reaches(cfg, ss, steps, SecondLooking(cfg.burst, Late(cfg)))
    ensures Reaches(cfg, ss', steps', Drawn(cfg.burst, Late(cfg), 0, Holding("k", Late(cfg), 1)))
  {
    var late := Late(cfg);
    hide Reaches, Late;
    var looking := SecondLooking(cfg.burst, late);
    ss', steps' := OneMoreStep(cfg, ss, steps, Lookup(1), looking);
    var missed := looking.(threads := [Holding("k", EARLY, 0), Missed("k", late)]);
    assert missed == Apply(cfg, looking, Lookup(1));
    ss', steps' := OneMoreStep(cfg, ss', steps', Create(1), missed);
    assert Drawn(cfg.burst, late, 0, Holding("k", late, 1)) == Apply(cfg, missed, Create(1));
  }

  /** Right after a cleanup, a call finds the bucket without another one. */
  lemma SecondThreadReturns(cfg: TokenBucket.Config, ss: seq<State>, steps: seq<Step>, k: nat)
      returns (ss': seq<State>, steps': seq<Step>)
    requires cfg.Valid() && cfg.ttl > 0 && Reaches(cfg, ss, steps, Drawn(cfg.burst, Late(cfg), k, Resting))
    ensures Reaches(cfg, ss', steps', Drawn(cfg.burst, Late(cfg), k, Holding("k", Late(cfg), 1))) && ss <= ss'
  {
    var late := Late(cfg);
    hide Reaches, Late;
    var s := Drawn(cfg.burst, late, k, Resting);
    ss', steps' := OneMoreStep(cfg, ss, steps, Sample(1, "k", late), s);
    var sampled := Drawn(cfg.burst, late, k, Sampled("k", late));
    assert sampled == Apply(cfg, s, Sample(1, "k", late));
    ss', steps' := OneMoreStep(cfg, ss', steps', EnterCleanup(1), sampled);
    var looking := Drawn(cfg.burst, late, k, Looking("k", late));
    assert looking == Apply(cfg, sampled, EnterCleanup(1));
    ss', steps' := OneMoreStep(cfg, ss', steps', Lookup(1), looking);
    assert Drawn(cfg.burst, late, k, Holding("k", late, 1)) == Apply(cfg, looking, Lookup(1));
  }

  lemma SecondThreadDraws(cfg: TokenBucket.Config, ss: seq<State>, steps: seq<Step>, k: nat)
      returns (ss': seq<State>, steps': seq<Step>)
    requires cfg.Valid() && cfg.ttl > 0 && k < cfg.burst
    requires Reaches(cfg, ss, steps, Drawn(cfg.burst, Late(cfg), k, Holding("k", Late(cfg), 1)))
    ensures Reaches(cfg, ss', steps', Drawn(cfg.burst, Late(cfg), k + 1, Resting)) && ss <= ss'
  {
    var late := Late(cfg);
    hide Reaches, Late;
    var s := Drawn(cfg.burst, late, k, Holding("k", late, 1));
    ss', steps' := OneMoreStep(cfg, ss, steps, Consume(1), s);
    assert Apply(cfg, s, Consume(1)).answers == Drawn(cfg.burst, late, k + 1, Resting).answers;
  }

  lemma {:induction false} SecondThreadDrains(cfg: TokenBucket.Config, ss: seq<State>, steps: seq<Step>, k: nat)
      returns (ss': seq<State>, steps': seq<Step>)
    requires cfg.Valid() && cfg.ttl > 0 && 1 <= k <= cfg.burst
    requires Reaches(cfg, ss, steps, Drawn(cfg.burst, Late(cfg), 0, Holding("k", Late(cfg), 1)))
    ensures Reaches(cfg, ss', steps', Drawn(cfg.burst, Late(cfg), k, Resting)) && ss <= ss'
  {
    hide Reaches;
    if k == 1 {
      ss', steps' := SecondThreadDraws(cfg, ss, steps, 0);
    } else {
      ss', steps' := SecondThreadDrains(cfg, ss, steps, k - 1);
      ss', steps' := SecondThreadReturns(cfg, ss', steps', k - 1);
      ss', steps' := SecondThreadDraws(cfg, ss', steps', k - 1);
    }
  }

  lemma FirstThreadDraws(cfg: TokenBucket.Config, ss: seq<State>, steps: seq<Step>)
      returns (ss': seq<State>, steps': seq<Step>)
    requires cfg.Valid() && cfg.ttl > 0
    requires Reaches(cfg, ss, steps, Drawn(cfg.burst, Late(cfg), cfg.burst, Resting))
    ensures Reaches(cfg, ss', steps', Overdrawn(cfg.burst, Late(cfg))) && ss <= ss'
  {
    var late := Late(cfg);
    hide Reaches, Late;
    var s := Drawn(cfg.burst, late, cfg.burst, Resting);
    ss', steps' := OneMoreStep(cfg, ss, steps, Consume(0), s);
    assert Overdrawn(cfg.burst, late) == Apply(cfg, s, Consume(0));
  }

  lemma {:induction false} AllGranted(late: int, k: nat)
    ensures Granted(seq(k, _ => Answered("k", late, 1, true)), "k") == k
  {
    var answers := seq(k, _ => Answered("k", late, 1, true));
    if k > 0 {
      AllGranted(late, k - 1);
      assert answers[..k - 1] == seq(k - 1, _ => Answered("k", late, 1, true));
    }
  }

  /** With any TTL, burst and cap: thread 0 holds a bucket that is no longer the key's, and still draws from it after
      thread 1 has drawn a whole burst from the new one, all without a nanosecond's refill of the latter. */
  lemma EvictedBucketIsUsed(cfg: TokenBucket.Config) returns (ss: seq<State>, steps: seq<Step>, i: nat)
    requires cfg.Valid() && cfg.ttl > 0
    ensures Execution(cfg, ss, steps) && i < |ss|
    ensures ss[i] == Drawn(cfg.burst, Late(cfg), 0, Holding("k", Late(cfg), 1))
    ensures ss[|steps|] == Overdrawn(cfg.burst, Late(cfg))
    ensures LatestShown(ss[|steps|], "k", Late(cfg)) && Granted(ss[|steps|].answers, "k") == cfg.burst + 1
  {
    hide Late, Drawn, Overdrawn;
    ss, steps := FirstThreadLooks(cfg);
    ss, steps := FirstThreadStalls(cfg, ss, steps);
    ss, steps := SecondThreadEvicts(cfg, ss, steps);
    ss, steps := SecondThreadReplaces(cfg, ss, steps);
    i := |steps|;
    ss, steps := SecondThreadDrains(cfg, ss, steps, cfg.burst);
    ss, steps := FirstThreadDraws(cfg, ss, steps);
    OverdrawnGrants(cfg.burst, Late(cfg));
  }

  lemma OverdrawnGrants(burst: nat, late: int)
    requires late > EARLY
    ensures LatestShown(Overdrawn(burst, late), "k", late) && Granted(Overdrawn(burst, late).answers, "k") == burst + 1
  {
    OneMoreGranted(Drawn(burst, late, burst, Resting).answers, Answered("k", EARLY, 0, true));
    AllGranted(late, burst);
    hide Granted;
    assert forall a :: a in Drawn(burst, late, burst, Resting).answers ==> a == Answered("k", late, 1, true);
  }

  lemma OneMoreGranted(answers: seq<Answer>, a: Answer)
    requires a.Answered? && a.key == "k" && a.allowed
    ensures Granted(answers + [a], "k") == Granted(answers, "k") + 1
  {
    assert (answers + [a])[..|answers|] == answers;
  }

  // ---------- exactly when the present bucket is the bound

  /** In every interleaving, a key that has a bucket has been granted at most that bucket's burst and refill. */
  ghost predicate PresentBucketBounds(cfg: TokenBucket.Config) {
    forall ss, steps, i: nat, key, latest :: Execution(cfg, ss, steps) && i < |ss| ==>
      WithinPresentBucket(cfg, ss[i], key, latest)
  }

  ghost predicate WithinPresentBucket(cfg: TokenBucket.Config, s: State, key: string, latest: int) {
    key in s.buckets && s.buckets[key] < |s.heap| && LatestShown(s, key, latest) ==>
      Granted(s.answers, key) as real <=
        cfg.burst as real + TokenBucket.Refill(cfg.rate, latest - s.heap[s.buckets[key]].created)
  }

  lemma PresentBucketBoundsIff(cfg: TokenBucket.Config)
    requires cfg.Valid()
    ensures PresentBucketBounds(cfg) <==> cfg.ttl <= 0
  {
    if cfg.ttl <= 0 {
      forall ss, steps, i: nat, key, latest | Execution(cfg, ss, steps) && i < |ss|
        ensures WithinPresentBucket(cfg, ss[i], key, latest)
      {
        if LatestShown(ss[i], key, latest) {
          ConcurrentGrantsBounded(cfg, ss, steps, i, key, latest);
        }
      }
    } else {
      var ss, steps, i := EvictedBucketIsUsed(cfg);
      var s := ss[|steps|];
      TokenBucket.RefillGrows(cfg.rate, 0, 0);
      assert !WithinPresentBucket(cfg, s, "k", Late(cfg));
    }
  }
}
