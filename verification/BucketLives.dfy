/** The buckets a key has over time, in every interleaving: when one is made, when it goes, and what it refuses. */
module BucketLives {
  import opened TokenBucket
  import opened LimiterTable
  import opened LimiterThreads

  // ---------- a bucket stays until it is evicted

  /** Step `n` takes the key's bucket out of the map. */
  ghost predicate EvictsAt(ss: seq<State>, steps: seq<Step>, n: nat, key: string) {
    n < |steps| < |ss| && steps[n].Visit? && steps[n].victim == key && key in ss[n].buckets && key !in ss[n + 1].buckets
  }

  /** The visitor of step `n` found the key's bucket idle at the instant it had sampled. */
  ghost predicate FoundIdle(cfg: Config, ss: seq<State>, steps: seq<Step>, n: nat, key: string) {
    && n < |steps| < |ss| && steps[n].t < |ss[n].threads| && ss[n].threads[steps[n].t].Cleaning?
    && key in ss[n].buckets && ss[n].buckets[key] < |ss[n].heap|
    && Idle(cfg, ss[n].heap[ss[n].buckets[key]].state, ss[n].threads[steps[n].t].now)
  }

  ghost predicate SameBucket(s: State, s': State, key: string) {
    key in s.buckets && key in s'.buckets && s'.buckets[key] == s.buckets[key]
  }

  lemma StepKeepsBucket(cfg: Config, s: State, step: Step, key: string)
    requires Enabled(cfg, s, step) && key in s.buckets
    ensures var s' := Apply(cfg, s, step);
            SameBucket(s, s', key) || (step.Visit? && step.victim == key && key !in s'.buckets)
  {
  }

  /** A visit takes the bucket away exactly when it is idle. */
  lemma VisitEvictsIff(cfg: Config, ss: seq<State>, steps: seq<Step>, n: nat)
    requires Execution(cfg, ss, steps) && n < |steps| && steps[n].Visit?
    ensures EvictsAt(ss, steps, n, steps[n].victim) <==> FoundIdle(cfg, ss, steps, n, steps[n].victim)
  {
    assert Enabled(cfg, ss[n], steps[n]);
  }

  /** A key keeps its bucket - no thread that missed it can put another in its place - until a visit evicts it,
      having found it idle. */
  lemma {:induction false} OnlyEvictionEndsABucket(
    cfg: Config, ss: seq<State>, steps: seq<Step>, i: nat, j: nat, key: string)
    requires Execution(cfg, ss, steps) && i <= j < |ss| && key in ss[i].buckets && !SameBucket(ss[i], ss[j], key)
    ensures exists n :: i <= n < j && EvictsAt(ss, steps, n, key) && FoundIdle(cfg, ss, steps, n, key)
    decreases j
  {
    if SameBucket(ss[i], ss[j - 1], key) {
      StepKeepsBucket(cfg, ss[j - 1], steps[j - 1], key);
      hide Apply, Enabled, FoundIdle;
      if steps[j - 1].Visit? {
        VisitEvictsIff(cfg, ss, steps, j - 1);
      }
      assert EvictsAt(ss, steps, j - 1, key);
    } else {
      OnlyEvictionEndsABucket(cfg, ss, steps, i, j - 1, key);
    }
  }

  // ---------- how many buckets are made

  ghost function Made(heap: seq<BucketObject>, key: string): nat {
    if heap == [] then 0 else Made(heap[..|heap| - 1], key) + if heap[|heap| - 1].key == key then 1 else 0
  }

  /** How often the key was evicted in the first `i` steps. */
  ghost function Evictions(ss: seq<State>, steps: seq<Step>, i: nat, key: string): nat {
    if i == 0 then 0 else Evictions(ss, steps, i - 1, key) + if EvictsAt(ss, steps, i - 1, key) then 1 else 0
  }

  lemma {:induction false} MadeIsStable(heap: seq<BucketObject>, heap': seq<BucketObject>, key: string)
    requires |heap| == |heap'| && forall b :: 0 <= b < |heap| ==> heap[b].key == heap'[b].key
    ensures Made(heap, key) == Made(heap', key)
  {
    if heap != [] {
      MadeIsStable(heap[..|heap| - 1], heap'[..|heap| - 1], key);
    }
  }

  ghost function InMap(s: State, key: string): nat {
    if key in s.buckets then 1 else 0
  }

  lemma StepCountsMade(cfg: Config, s: State, step: Step, key: string)
    requires Enabled(cfg, s, step)
    ensures var s' := Apply(cfg, s, step);
            var evicted := step.Visit? && step.victim == key && key in s.buckets && key !in s'.buckets;
            Made(s'.heap, key) - InMap(s', key) == Made(s.heap, key) - InMap(s, key) + if evicted then 1 else 0
  {
    var s' := Apply(cfg, s, step);
    if |s'.heap| == |s.heap| {
      MadeIsStable(s.heap, s'.heap, key);
    } else {
      assert s'.heap[..|s.heap|] == s.heap;
    }
  }

  /** Conservation: the buckets ever made for a key are those evicted, and the one it has. */
  lemma {:induction false} MadeIsEvictedPlusPresent(cfg: Config, ss: seq<State>, steps: seq<Step>, i: nat, key: string)
    requires Execution(cfg, ss, steps) && i < |ss|
    ensures Made(ss[i].heap, key) == Evictions(ss, steps, i, key) + InMap(ss[i], key)
  {
    if i > 0 {
      MadeIsEvictedPlusPresent(cfg, ss, steps, i - 1, key);
      StepCountsMade(cfg, ss[i - 1], steps[i - 1], key);
    }
  }

  /** No bucket was made for the key before this. */
  ghost predicate EarliestShown(s: State, key: string, earliest: int) {
    forall o :: o in s.heap && o.key == key ==> earliest <= o.created
  }

  /** One bucket's burst and refill over `span`, `n` times. */
  ghost function Shares(cfg: Config, n: nat, span: int): real {
    if n == 0 then 0.0 else Shares(cfg, n - 1, span) + (cfg.burst as real + Refill(cfg.rate, span))
  }

  lemma {:induction false} AllowedByShares(cfg: Config, heap: seq<BucketObject>, key: string, span: int)
    requires cfg.Valid()
    requires forall o :: o in heap && o.key == key ==> o.state.last - o.created <= span
    ensures BucketsAllow(cfg, heap, key) <= Shares(cfg, Made(heap, key), span)
  {
    hide Refill;
    if heap != [] {
      var o, init := heap[|heap| - 1], heap[..|heap| - 1];
      assert o in heap && forall p :: p in init ==> p in heap;
      AllowedByShares(cfg, init, key, span);
      if o.key == key {
        RefillGrows(cfg.rate, o.state.last - o.created, span);
      }
    }
  }

  lemma LastWasShown(cfg: Config, s: State, b: nat, latest: int)
    requires Wired(cfg, s) && Accounted(cfg, s) && b < |s.heap| && LatestShown(s, s.heap[b].key, latest)
    ensures s.heap[b].state.last <= latest
  {
    assert BucketAccounted(cfg, s, b);
    assert s.heap[b] in s.heap;
    hide Replay, Refill, GrantedBy;
    if s.heap[b].state.last != s.heap[b].created {
      var a :| a in s.answers && a.Answered? && a.bucket == b && a.now == s.heap[b].state.last;
      assert AnswerWired(s, a);
    }
  }

  lemma SpansAreShown(cfg: Config, s: State, key: string, earliest: int, latest: int)
    requires Wired(cfg, s) && Accounted(cfg, s) && EarliestShown(s, key, earliest) && LatestShown(s, key, latest)
    ensures forall o :: o in s.heap && o.key == key ==> o.state.last - o.created <= latest - earliest
  {
    hide Wired, Accounted, LatestShown;
    forall o | o in s.heap && o.key == key ensures o.state.last - o.created <= latest - earliest {
      var b :| 0 <= b < |s.heap| && s.heap[b] == o;
      LastWasShown(cfg, s, b, latest);
    }
  }

  /** With any TTL and in every interleaving, the threads on a key are together granted at most one burst and refill
      for the bucket it has, and one for each time it was evicted. */
  lemma GrantsWithinEvictions(
    cfg: Config, ss: seq<State>, steps: seq<Step>, i: nat, key: string, earliest: int, latest: int)
    requires cfg.Valid() && Execution(cfg, ss, steps) && i < |ss|
    requires EarliestShown(ss[i], key, earliest) && LatestShown(ss[i], key, latest)
    ensures Granted(ss[i].answers, key) as real <=
            Shares(cfg, Evictions(ss, steps, i, key) + InMap(ss[i], key), latest - earliest)
  {
    hide *;
    Invariant(cfg, ss, steps, i);
    GrantsWithinBuckets(cfg, ss, steps, i, key);
    MadeIsEvictedPlusPresent(cfg, ss, steps, i, key);
    SpansAreShown(cfg, ss[i], key, earliest, latest);
    AllowedByShares(cfg, ss[i].heap, key, latest - earliest);
  }

  // ---------- what a bucket refuses

  /** Answer `i` is the one its bucket gives when its answers are given one at a time. */
  ghost predicate InLockOrder(cfg: Config, s: State, i: nat)
    requires i < |s.answers|
  {
    var a := s.answers[i];
    a.Answered? ==>
      (a.bucket < |s.heap| &&
       (a.allowed <==> Take(cfg, Replay(cfg, s.answers[..i], a.bucket, s.heap[a.bucket].created), a.now).1))
  }

  ghost predicate AllInLockOrder(cfg: Config, s: State) {
    forall i :: 0 <= i < |s.answers| ==> InLockOrder(cfg, s, i)
  }

  /** Bucket objects never change their time of creation, and answers are only added. */
  lemma StepExtends(cfg: Config, s: State, step: Step)
    requires Enabled(cfg, s, step)
    ensures var s' := Apply(cfg, s, step);
            && s.answers <= s'.answers && |s.answers| <= |s'.answers| <= |s.answers| + 1 && |s.heap| <= |s'.heap|
            && (forall b :: 0 <= b < |s.heap| ==> s'.heap[b].created == s.heap[b].created)
            && (|s'.answers| > |s.answers| && s'.answers[|s.answers|].Answered? ==>
                  var a := s'.answers[|s.answers|];
                  a.bucket < |s.heap| && (a.allowed <==> Take(cfg, s.heap[a.bucket].state, a.now).1))
  {
  }

  lemma StepKeepsLockOrder(cfg: Config, s: State, step: Step)
    requires Enabled(cfg, s, step) && Accounted(cfg, s) && AllInLockOrder(cfg, s)
    ensures AllInLockOrder(cfg, Apply(cfg, s, step))
  {
    var s' := Apply(cfg, s, step);
    StepExtends(cfg, s, step);
    hide Take, Replay, Apply, Enabled;
    forall i | 0 <= i < |s'.answers| ensures InLockOrder(cfg, s', i) {
      var a := s'.answers[i];
      if i < |s.answers| {
        assert InLockOrder(cfg, s, i) && a == s.answers[i];
        assert s'.answers[..i] == s.answers[..i];
      } else if a.Answered? {
        assert i == |s.answers| && s'.answers[..i] == s.answers;
        assert BucketAccounted(cfg, s, a.bucket);
      }
    }
  }

  /** In every interleaving each answer, granted or not, is the one that one bucket alone gives to the calls it was
      shown, in the order in which they held its lock. */
  lemma {:induction false} AnswersAreInLockOrder(cfg: Config, ss: seq<State>, steps: seq<Step>, i: nat)
    requires cfg.Valid() && Execution(cfg, ss, steps) && i < |ss|
    ensures AllInLockOrder(cfg, ss[i])
  {
    if i > 0 {
      AnswersAreInLockOrder(cfg, ss, steps, i - 1);
      Invariant(cfg, ss, steps, i - 1);
      StepKeepsLockOrder(cfg, ss[i - 1], steps[i - 1]);
    }
  }

  /** A bucket still has of its burst what it has not granted, whatever the order of the instants it was shown. */
  lemma {:induction false} UngrantedRemains(cfg: Config, s: State, n: nat, b: nat)
    requires cfg.Valid() && AllInLockOrder(cfg, s) && n <= |s.answers| && b < |s.heap|
    ensures var r := Replay(cfg, s.answers[..n], b, s.heap[b].created);
            InRange(cfg, r) && r.tokens + GrantedBy(s.answers[..n], b) as real >= cfg.burst as real
  {
    if n > 0 {
      UngrantedRemains(cfg, s, n - 1, b);
      assert s.answers[..n][..n - 1] == s.answers[..n - 1];
      var a, before := s.answers[n - 1], Replay(cfg, s.answers[..n - 1], b, s.heap[b].created);
      assert InLockOrder(cfg, s, n - 1);
      TakeSpends(cfg, before, if a.Answered? then a.now else 0);
      hide Take;
    }
  }

  /** In every interleaving: a bucket never holds less than what it has not granted of its burst, so it refuses only
      after it has granted a whole burst - however far an instant lies behind those it was shown before. */
  lemma RefusesOnlyAfterABurst(cfg: Config, ss: seq<State>, steps: seq<Step>, i: nat, n: nat)
    requires cfg.Valid() && Execution(cfg, ss, steps) && i < |ss| && n < |ss[i].answers|
    requires var a := ss[i].answers[n]; a.Answered? && !a.allowed
    ensures GrantedBy(ss[i].answers[..n], ss[i].answers[n].bucket) >= cfg.burst
  {
    var s, a := ss[i], ss[i].answers[n];
    AnswersAreInLockOrder(cfg, ss, steps, i);
    assert InLockOrder(cfg, s, n);
    UngrantedRemains(cfg, s, n, a.bucket);
    TakeSpends(cfg, Replay(cfg, s.answers[..n], a.bucket, s.heap[a.bucket].created), a.now);
  }

  lemma BucketHoldsTheRest(cfg: Config, ss: seq<State>, steps: seq<Step>, i: nat, b: nat)
    requires cfg.Valid() && Execution(cfg, ss, steps) && i < |ss| && b < |ss[i].heap|
    ensures ss[i].heap[b].state.tokens >= (cfg.burst - GrantedBy(ss[i].answers, b)) as real
  {
    var s := ss[i];
    AnswersAreInLockOrder(cfg, ss, steps, i);
    Invariant(cfg, ss, steps, i);
    assert BucketAccounted(cfg, s, b);
    assert s.answers[..|s.answers|] == s.answers;
    UngrantedRemains(cfg, s, |s.answers|, b);
  }

  // ---------- creation and cleanup under the write lock

  /** The second look-up of a creation: the thread ends up with the bucket the map has for its key, be it somebody
      else's or a full one of its own; or it is refused, which takes a full map without the key. */
  lemma CreationLaw(cfg: Config, ss: seq<State>, steps: seq<Step>, n: nat)
    requires cfg.Valid() && Execution(cfg, ss, steps) && n < |steps| && steps[n].Create?
    ensures var s, s', t := ss[n], ss[n + 1], steps[n].t;
            t < |s.threads| == |s'.threads| && s.threads[t].Missed? &&
            var key, now := s.threads[t].key, s.threads[t].now;
            if s'.threads[t].Resting? then
              && s'.answers == s.answers + [Refused(key)] && s'.buckets == s.buckets && s'.heap == s.heap
              && key !in s.buckets && cfg.maxBuckets > 0 && |s.buckets| == cfg.maxBuckets
            else
              && key in s'.buckets && s'.threads[t] == Holding(key, now, s'.buckets[key]) && s'.answers == s.answers
              && (key in s.buckets ==> s'.buckets == s.buckets && s'.heap == s.heap)
              && (key !in s.buckets ==>
                    s'.heap == s.heap + [BucketObject(key, now, BucketState(cfg.burst as real, now, now))])
  {
    Invariant(cfg, ss, steps, n);
    assert Enabled(cfg, ss[n], steps[n]);
  }

  /** At most one thread cleans up, and all it still has to visit is in the map. */
  ghost predicate OneCleaner(s: State) {
    && (forall t, u :: 0 <= t < |s.threads| && 0 <= u < |s.threads| ==>
          s.threads[t].Cleaning? && s.threads[u].Cleaning? ==> t == u)
    && (forall t :: 0 <= t < |s.threads| && s.threads[t].Cleaning? ==> s.threads[t].todo <= s.buckets.Keys)
  }

  lemma StepKeepsOneCleaner(cfg: Config, s: State, step: Step)
    requires Enabled(cfg, s, step) && Wired(cfg, s) && OneCleaner(s)
    ensures OneCleaner(Apply(cfg, s, step))
    ensures !NoWriter(s) && !s.threads[step.t].Cleaning? ==>
              var s' := Apply(cfg, s, step); s'.buckets == s.buckets && s'.lastCleanup == s.lastCleanup
  {
    var s' := Apply(cfg, s, step);
    assert s'.threads == s.threads[step.t := s'.threads[step.t]];
    assert forall t :: 0 <= t < |s.threads| && s.threads[t].Cleaning? ==> s.threads[t] in s.threads;
  }

  /** A cleanup has the map to itself: no other thread cleans up, and none changes the map until it is over. */
  lemma CleanupIsExclusive(cfg: Config, ss: seq<State>, steps: seq<Step>, i: nat)
    requires cfg.Valid() && Execution(cfg, ss, steps) && i < |ss|
    ensures OneCleaner(ss[i])
    ensures i < |steps| && !NoWriter(ss[i]) ==>
              steps[i].t < |ss[i].threads| &&
              (ss[i].threads[steps[i].t].Cleaning? ||
               (ss[i + 1].buckets == ss[i].buckets && ss[i + 1].lastCleanup == ss[i].lastCleanup))
  {
    OneCleanerAtATime(cfg, ss, steps, i);
    Invariant(cfg, ss, steps, i);
    if i < |steps| && !NoWriter(ss[i]) {
      assert Enabled(cfg, ss[i], steps[i]) && ss[i + 1] == Apply(cfg, ss[i], steps[i]);
      assert steps[i].t < |ss[i].threads|;
      hide *;
      StepKeepsOneCleaner(cfg, ss[i], steps[i]);
    }
  }

  lemma {:induction false} OneCleanerAtATime(cfg: Config, ss: seq<State>, steps: seq<Step>, i: nat)
    requires cfg.Valid() && Execution(cfg, ss, steps) && i < |ss|
    ensures OneCleaner(ss[i])
  {
    hide Init, Enabled, Apply, OneCleaner, Wired, Accounted, OnePerKey;
    if i == 0 {
      NobodyCleansAtFirst(ss[0]);
    } else {
      OneCleanerAtATime(cfg, ss, steps, i - 1);
      Invariant(cfg, ss, steps, i - 1);
      StepKeepsOneCleaner(cfg, ss[i - 1], steps[i - 1]);
    }
  }

  lemma NobodyCleansAtFirst(s: State)
    requires Init(s)
    ensures OneCleaner(s)
  {
    assert forall t :: 0 <= t < |s.threads| ==> s.threads[t] in s.threads;
  }

  /** No thread is ever stuck: whoever does not need the map, has it, or finds no cleanup under way can go on. */
  lemma ThreadsGoOn(cfg: Config, ss: seq<State>, steps: seq<Step>, i: nat, t: nat)
    requires cfg.Valid() && Execution(cfg, ss, steps) && i < |ss| && t < |ss[i].threads|
    requires var p := ss[i].threads[t];
             NoWriter(ss[i]) || p.Resting? || p.Cleaning? || p.Holding? || (p.Sampled? && cfg.ttl <= 0)
    ensures exists step: Step :: step.t == t && Enabled(cfg, ss[i], step)
  {
    var s, p := ss[i], ss[i].threads[t];
    Invariant(cfg, ss, steps, i);
    CleanupIsExclusive(cfg, ss, steps, i);
    assert PhaseWired(cfg, s, p);
    var step :=
      match p
      case Resting => Sample(t, "", 0)
      case Sampled(_, _) => EnterCleanup(t)
      case Cleaning(_, _, todo) =>
        if todo == {} then LeaveCleanup(t) else (assert exists v :: v in todo; var v :| v in todo; Visit(t, v))
      case Looking(_, _) => Lookup(t)
      case Missed(_, _) => Create(t)
      case Holding(_, _, _) => Consume(t);
    assert step.t == t && Enabled(cfg, s, step);
  }
}
