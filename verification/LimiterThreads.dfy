/** The limiter used by many threads at once: one step for each region that runs under one lock.
    `now` is sampled before any lock is taken, so a bucket can see instants out of order. */
module LimiterThreads {
  import opened TokenBucket
  import opened LimiterTable

  /** Where a thread stands inside Allow. */
  datatype Phase =
    | Resting
    | Sampled(key: string, now: int)
    | Cleaning(key: string, now: int, todo: set<string>)  // holds the write lock
    | Looking(key: string, now: int)
    | Missed(key: string, now: int)
    | Holding(key: string, now: int, bucket: nat)

  /** A bucket object; it outlives its eviction for as long as a thread holds it. */
  datatype BucketObject = BucketObject(key: string, created: int, state: BucketState)

  datatype Answer = Refused(key: string) | Answered(key: string, now: int, bucket: nat, allowed: bool)

  datatype State = State(buckets: map<string, nat>, heap: seq<BucketObject>, lastCleanup: int,
                         threads: seq<Phase>, answers: seq<Answer>)

  datatype Step =
    | Sample(t: nat, key: string, now: int)
    | EnterCleanup(t: nat)
    | Visit(t: nat, victim: string)
    | LeaveCleanup(t: nat)
    | Lookup(t: nat)
    | Create(t: nat)
    | Consume(t: nat)

  ghost predicate Init(s: State) {
    s.buckets == map[] && s.heap == [] && s.lastCleanup == ZERO_TIME && s.answers == [] &&
    forall p :: p in s.threads ==> p == Resting
  }

  ghost predicate NoWriter(s: State) {
    forall p :: p in s.threads ==> !p.Cleaning?
  }

  ghost predicate Enabled(cfg: Config, s: State, step: Step) {
    step.t < |s.threads| &&
    var p := s.threads[step.t];
    match step
    case Sample(_, _, _) => p.Resting?
    case EnterCleanup(_) => p.Sampled? && (cfg.ttl > 0 ==> NoWriter(s))
    case Visit(_, victim) => p.Cleaning? && victim in p.todo && victim in s.buckets && s.buckets[victim] < |s.heap|
    case LeaveCleanup(_) => p.Cleaning? && p.todo == {}
    case Lookup(_) => p.Looking? && NoWriter(s)
    case Create(_) => p.Missed? && NoWriter(s)
    case Consume(_) => p.Holding? && p.bucket < |s.heap|
  }

  ghost function MoveTo(s: State, t: nat, p: Phase): State
    requires t < |s.threads|
  {
    s.(threads := s.threads[t := p])
  }

  ghost function Due(cfg: Config, s: State, now: int): bool {
    CleanupDue(cfg, Table(map[], s.lastCleanup), now)
  }

  ghost function Apply(cfg: Config, s: State, step: Step): State
    requires Enabled(cfg, s, step)
  {
    var p := s.threads[step.t];
    match step
    case Sample(t, key, now) => MoveTo(s, t, Sampled(key, now))
    case EnterCleanup(t) =>
      if Due(cfg, s, p.now) then MoveTo(s, t, Cleaning(p.key, p.now, s.buckets.Keys)).(lastCleanup := p.now)
      else MoveTo(s, t, Looking(p.key, p.now))
    case Visit(t, victim) =>
      var v := MoveTo(s, t, p.(todo := p.todo - {victim}));
      if LimiterTable.Idle(cfg, s.heap[s.buckets[victim]].state, p.now) then v.(buckets := s.buckets - {victim}) else v
    case LeaveCleanup(t) => MoveTo(s, t, Looking(p.key, p.now))
    case Lookup(t) =>
      if p.key in s.buckets then MoveTo(s, t, Holding(p.key, p.now, s.buckets[p.key]))
      else MoveTo(s, t, Missed(p.key, p.now))
    case Create(t) =>
      if p.key in s.buckets then MoveTo(s, t, Holding(p.key, p.now, s.buckets[p.key]))
      else if cfg.maxBuckets > 0 && |s.buckets| >= cfg.maxBuckets then
        MoveTo(s, t, Resting).(answers := s.answers + [Refused(p.key)])
      else
        MoveTo(s, t, Holding(p.key, p.now, |s.heap|)).(
          buckets := s.buckets[p.key := |s.heap|],
          heap := s.heap + [BucketObject(p.key, p.now, Fresh(cfg, p.now))])
    case Consume(t) =>
      var o := s.heap[p.bucket];
      var (b, allowed) := Take(cfg, o.state, p.now);
      MoveTo(s, t, Resting).(
        heap := s.heap[p.bucket := o.(state := b)],
        answers := s.answers + [Answered(p.key, p.now, p.bucket, allowed)])
  }

  /** A run of any number of threads, in any interleaving. */
  ghost predicate Execution(cfg: Config, ss: seq<State>, steps: seq<Step>) {
    |ss| == |steps| + 1 && Init(ss[0]) &&
    forall i :: 0 <= i < |steps| ==> Enabled(cfg, ss[i], steps[i]) && ss[i + 1] == Apply(cfg, ss[i], steps[i])
  }

  // ---------- what the answers say

  ghost function GrantedBy(answers: seq<Answer>, b: nat): nat {
    if answers == [] then 0
    else
      var a := answers[|answers| - 1];
      GrantedBy(answers[..|answers| - 1], b) + if a.Answered? && a.bucket == b && a.allowed then 1 else 0
  }

  ghost function Granted(answers: seq<Answer>, key: string): nat {
    if answers == [] then 0
    else
      var a := answers[|answers| - 1];
      Granted(answers[..|answers| - 1], key) + if a.Answered? && a.key == key && a.allowed then 1 else 0
  }

  /** The bucket a run of answers would leave if a single thread gave them one after another. */
  ghost function Replay(cfg: Config, answers: seq<Answer>, b: nat, created: int): BucketState {
    if answers == [] then Fresh(cfg, created)
    else
      var a, before := answers[|answers| - 1], Replay(cfg, answers[..|answers| - 1], b, created);
      if a.Answered? && a.bucket == b then Take(cfg, before, a.now).0 else before
  }

  // ---------- invariants of every interleaving

  ghost predicate MapWired(cfg: Config, s: State) {
    && (forall k :: k in s.buckets ==> s.buckets[k] < |s.heap| && s.heap[s.buckets[k]].key == k)
    && (cfg.maxBuckets > 0 ==> |s.buckets| <= cfg.maxBuckets)
  }

  ghost predicate PhaseWired(cfg: Config, s: State, p: Phase) {
    && (p.Holding? ==> p.bucket < |s.heap| && s.heap[p.bucket].key == p.key)
    && (p.Cleaning? ==> cfg.ttl > 0)
  }

  ghost predicate Wired(cfg: Config, s: State) {
    && MapWired(cfg, s)
    && (forall p :: p in s.threads ==> PhaseWired(cfg, s, p))
    && (forall a :: a in s.answers ==> AnswerWired(s, a))
  }

  /** Without a TTL, a key's bucket is created once and stays in the map. */
  ghost predicate OnePerKey(s: State) {
    forall b :: 0 <= b < |s.heap| ==> s.heap[b].key in s.buckets && s.buckets[s.heap[b].key] == b
  }

  ghost predicate BucketAccounted(cfg: Config, s: State, b: nat)
    requires b < |s.heap|
  {
    var o := s.heap[b];
    && InRange(cfg, o.state)
    && o.created <= o.state.last
    && (o.state.last == o.created ||
        exists a :: a in s.answers && a.Answered? && a.bucket == b && a.now == o.state.last)
    && GrantedBy(s.answers, b) as real + o.state.tokens <=
       cfg.burst as real + Refill(cfg.rate, o.state.last - o.created)
    && o.state == Replay(cfg, s.answers, b, o.created)
  }

  ghost predicate Accounted(cfg: Config, s: State) {
    forall b :: 0 <= b < |s.heap| ==> BucketAccounted(cfg, s, b)
  }

  lemma RemovalShrinks(m: map<string, nat>, k: string)
    ensures |m - {k}| <= |m|
  {
    assert (m - {k}).Keys <= m.Keys;
    KeysCard((m - {k}).Keys, m.Keys);
  }

  lemma StepKeepsMapWired(cfg: Config, s: State, step: Step)
    requires Enabled(cfg, s, step) && MapWired(cfg, s)
    ensures MapWired(cfg, Apply(cfg, s, step))
  {
    if step.Visit? {
      RemovalShrinks(s.buckets, step.victim);
    } else if step.Create? {
      assert s.threads[step.t].key !in s.buckets ==>
          |s.buckets[s.threads[step.t].key := |s.heap|]| == |s.buckets| + 1;
    }
  }

  /** Bucket objects are never lost and never change keys. */
  ghost predicate HeapGrows(s: State, s': State) {
    |s.heap| <= |s'.heap| && forall b :: 0 <= b < |s.heap| ==> s'.heap[b].key == s.heap[b].key
  }

  ghost predicate AnswerWired(s: State, a: Answer) {
    a.Answered? ==> a.bucket < |s.heap| && s.heap[a.bucket].key == a.key
  }

  /** A step moves one thread, grows the heap and adds at most one answer. */
  lemma StepShape(cfg: Config, s: State, step: Step)
    requires Enabled(cfg, s, step) && Wired(cfg, s)
    ensures var s' := Apply(cfg, s, step);
            && HeapGrows(s, s')
            && |s'.threads| == |s.threads| && s'.threads == s.threads[step.t := s'.threads[step.t]]
            && PhaseWired(cfg, s', s'.threads[step.t])
            && (s'.answers == s.answers ||
                (s'.answers != [] && s'.answers == s.answers + [s'.answers[|s'.answers| - 1]] &&
                 AnswerWired(s', s'.answers[|s'.answers| - 1])))
  {
    assert PhaseWired(cfg, s, s.threads[step.t]);
  }

  lemma ShapeKeepsWired(cfg: Config, s: State, s': State, t: nat)
    requires Wired(cfg, s) && MapWired(cfg, s') && HeapGrows(s, s')
    requires t < |s.threads| == |s'.threads| && s'.threads == s.threads[t := s'.threads[t]]
    requires PhaseWired(cfg, s', s'.threads[t])
    requires s'.answers == s.answers ||
             (s'.answers != [] && s'.answers == s.answers + [s'.answers[|s'.answers| - 1]] &&
              AnswerWired(s', s'.answers[|s'.answers| - 1]))
    ensures Wired(cfg, s')
  {
    forall p | p in s'.threads ensures PhaseWired(cfg, s', p) {
      assert p == s'.threads[t] || p in s.threads;
    }
    forall a | a in s'.answers ensures AnswerWired(s', a) {
      assert a in s.answers || AnswerWired(s', a);
    }
  }

  lemma StepKeepsWired(cfg: Config, s: State, step: Step)
    requires Enabled(cfg, s, step) && Wired(cfg, s)
    ensures Wired(cfg, Apply(cfg, s, step))
  {
    StepKeepsMapWired(cfg, s, step);
    StepShape(cfg, s, step);
    ShapeKeepsWired(cfg, s, Apply(cfg, s, step), step.t);
  }

  lemma StepKeepsOnePerKey(cfg: Config, s: State, step: Step)
    requires Enabled(cfg, s, step) && Wired(cfg, s) && OnePerKey(s) && cfg.ttl <= 0
    ensures OnePerKey(Apply(cfg, s, step))
  {
    assert PhaseWired(cfg, s, s.threads[step.t]);
  }

  lemma {:induction false} UnusedBucket(cfg: Config, answers: seq<Answer>, b: nat, created: int)
    requires forall a :: a in answers && a.Answered? ==> a.bucket != b
    ensures GrantedBy(answers, b) == 0 && Replay(cfg, answers, b, created) == Fresh(cfg, created)
  {
    if answers != [] {
      UnusedBucket(cfg, answers[..|answers| - 1], b, created);
    }
  }

  /** One more answer: the bucket that gave it moves by one Take, and no other bucket moves. */
  lemma {:induction false} AnswerAccounted(cfg: Config, s: State, s': State, a: Answer, b: nat)
    requires cfg.Valid() && b < |s.heap| <= |s'.heap| && s'.answers == s.answers + [a]
    requires BucketAccounted(cfg, s, b) && s'.heap[b].created == s.heap[b].created
    requires if a.Answered? && a.bucket == b
             then (s'.heap[b].state, a.allowed) == Take(cfg, s.heap[b].state, a.now)
             else s'.heap[b].state == s.heap[b].state
    ensures BucketAccounted(cfg, s', b)
  {
    var old_, new_, c := s.heap[b].state, s'.heap[b].state, s.heap[b].created;
    assert s'.answers[..|s'.answers| - 1] == s.answers;
    if a.Answered? && a.bucket == b {
      TakeKeepsRange(cfg, old_, a.now);
      assert a in s'.answers;
      if a.now > old_.last {
        RefillAdds(cfg.rate, old_.last - c, a.now - old_.last);
      }
    }
    if new_.last != c && !(a.Answered? && a.bucket == b && a.now == new_.last) {
      var w :| w in s.answers && w.Answered? && w.bucket == b && w.now == old_.last;
      assert w in s'.answers;
    }
  }

  lemma StepKeepsAccounted(cfg: Config, s: State, step: Step)
    requires cfg.Valid() && Enabled(cfg, s, step) && Wired(cfg, s) && Accounted(cfg, s)
    ensures Accounted(cfg, Apply(cfg, s, step))
  {
    var s' := Apply(cfg, s, step);
    forall b | 0 <= b < |s'.heap| ensures BucketAccounted(cfg, s', b) {
      if s'.answers != s.answers {
        AnswerAccounted(cfg, s, s', s'.answers[|s.answers|], b);
      } else if b == |s.heap| {
        UnusedBucket(cfg, s.answers, b, s'.heap[b].created);
        RefillGrows(cfg.rate, 0, 0);
      } else {
        assert BucketAccounted(cfg, s, b);
      }
    }
  }

  lemma {:induction false} Invariant(cfg: Config, ss: seq<State>, steps: seq<Step>, i: nat)
    requires cfg.Valid() && Execution(cfg, ss, steps) && i < |ss|
    ensures Wired(cfg, ss[i]) && Accounted(cfg, ss[i])
    ensures cfg.ttl <= 0 ==> OnePerKey(ss[i])
  {
    if i > 0 {
      Invariant(cfg, ss, steps, i - 1);
      StepKeepsWired(cfg, ss[i - 1], steps[i - 1]);
      StepKeepsAccounted(cfg, ss[i - 1], steps[i - 1]);
      if cfg.ttl <= 0 {
        StepKeepsOnePerKey(cfg, ss[i - 1], steps[i - 1]);
      }
    }
  }

  // ---------- theorems over every interleaving

  /** The cap holds at every moment, even though creation re-checks it only under the write lock. */
  lemma CapHoldsConcurrently(cfg: Config, ss: seq<State>, steps: seq<Step>, i: nat)
    requires cfg.Valid() && Execution(cfg, ss, steps) && i < |ss| && cfg.maxBuckets > 0
    ensures |ss[i].buckets| <= cfg.maxBuckets
  {
    Invariant(cfg, ss, steps, i);
  }

  /** Each bucket, evicted or not, behaves as if its answers had been given one at a time in lock order,
      and all it ever granted fits a burst and the refill up to the latest instant it was shown. */
  lemma EveryBucketIsBounded(cfg: Config, ss: seq<State>, steps: seq<Step>, i: nat, b: nat)
    requires cfg.Valid() && Execution(cfg, ss, steps) && i < |ss| && b < |ss[i].heap|
    ensures var s := ss[i]; var o := s.heap[b];
            && o.state == Replay(cfg, s.answers, b, o.created)
            && GrantedBy(s.answers, b) as real <= cfg.burst as real + Refill(cfg.rate, o.state.last - o.created)
            && (o.state.last == o.created ||
                exists a :: a in s.answers && a.Answered? && a.bucket == b && a.now == o.state.last)
  {
    Invariant(cfg, ss, steps, i);
    assert BucketAccounted(cfg, ss[i], b);
  }

  lemma {:induction false} GrantsComeFromTheBucket(answers: seq<Answer>, key: string, b: nat)
    requires forall a :: a in answers && a.Answered? ==> (a.key == key <==> a.bucket == b)
    ensures Granted(answers, key) == GrantedBy(answers, b)
  {
    if answers != [] {
      GrantsComeFromTheBucket(answers[..|answers| - 1], key, b);
    }
  }

  lemma {:induction false} NoGrantsWithoutBucket(answers: seq<Answer>, key: string)
    requires forall a :: a in answers && a.Answered? ==> a.key != key
    ensures Granted(answers, key) == 0
  {
    if answers != [] {
      NoGrantsWithoutBucket(answers[..|answers| - 1], key);
    }
  }

  /** No key was shown an instant later than this. */
  ghost predicate LatestShown(s: State, key: string, latest: int) {
    && (forall o :: o in s.heap && o.key == key ==> o.created <= latest)
    && (forall a :: a in s.answers && a.Answered? && a.key == key ==> a.now <= latest)
  }

  /** Without a TTL, in every interleaving: all threads on a key use one bucket, and together they are granted
      at most Burst + Rate * (latest instant shown - creation), however out of order the instants arrive. */
  lemma ConcurrentGrantsBounded(cfg: Config, ss: seq<State>, steps: seq<Step>, i: nat, key: string, latest: int)
    requires cfg.Valid() && cfg.ttl <= 0 && Execution(cfg, ss, steps) && i < |ss|
    requires LatestShown(ss[i], key, latest)
    ensures var s := ss[i];
            if key in s.buckets then
              var b := s.buckets[key];
              && b < |s.heap|
              && (forall p :: p in s.threads && p.Holding? && p.key == key ==> p.bucket == b)
              && (forall a :: a in s.answers && a.Answered? && a.key == key ==> a.bucket == b)
              && Granted(s.answers, key) as real <= cfg.burst as real + Refill(cfg.rate, latest - s.heap[b].created)
            else Granted(s.answers, key) == 0
  {
    var s := ss[i];
    Invariant(cfg, ss, steps, i);
    if key in s.buckets {
      var b := s.buckets[key];
      assert BucketAccounted(cfg, s, b);
      assert s.heap[b] in s.heap;
      GrantsComeFromTheBucket(s.answers, key, b);
      RefillGrows(cfg.rate, s.heap[b].state.last - s.heap[b].created, latest - s.heap[b].created);
    } else {
      NoGrantsWithoutBucket(s.answers, key);
    }
  }

  /** What the buckets made for a key allow together: each a burst, and the refill over the time it was shown. */
  ghost function BucketsAllow(cfg: Config, heap: seq<BucketObject>, key: string): real {
    if heap == [] then 0.0
    else
      var o := heap[|heap| - 1];
      BucketsAllow(cfg, heap[..|heap| - 1], key) +
      if o.key == key then cfg.burst as real + Refill(cfg.rate, o.state.last - o.created) else 0.0
  }

  /** What the first `n` buckets granted for their key, if it is `key`. */
  ghost function GrantedByFirst(answers: seq<Answer>, heap: seq<BucketObject>, key: string, n: nat): nat
    requires n <= |heap|
  {
    if n == 0 then 0
    else GrantedByFirst(answers, heap, key, n - 1) + if heap[n - 1].key == key then GrantedBy(answers, n - 1) else 0
  }

  lemma {:induction false} OneMoreGrant(answers: seq<Answer>, heap: seq<BucketObject>, key: string, n: nat)
    requires n <= |heap| && answers != []
    ensures var a := answers[|answers| - 1];
            GrantedByFirst(answers, heap, key, n) ==
              GrantedByFirst(answers[..|answers| - 1], heap, key, n) +
              if a.Answered? && a.allowed && a.bucket < n && heap[a.bucket].key == key then 1 else 0
  {
    if n > 0 {
      OneMoreGrant(answers, heap, key, n - 1);
    }
  }

  lemma {:induction false} NothingGranted(heap: seq<BucketObject>, key: string, n: nat)
    requires n <= |heap|
    ensures GrantedByFirst([], heap, key, n) == 0
  {
    if n > 0 {
      NothingGranted(heap, key, n - 1);
    }
  }

  /** Every grant for a key comes from one of the buckets made for it. */
  lemma {:induction false} GrantsComeFromBuckets(answers: seq<Answer>, heap: seq<BucketObject>, key: string)
    requires forall a :: a in answers && a.Answered? ==> a.bucket < |heap| && heap[a.bucket].key == a.key
    ensures Granted(answers, key) == GrantedByFirst(answers, heap, key, |heap|)
  {
    if answers == [] {
      NothingGranted(heap, key, |heap|);
    } else {
      GrantsComeFromBuckets(answers[..|answers| - 1], heap, key);
      OneMoreGrant(answers, heap, key, |heap|);
      assert answers[|answers| - 1] in answers;
    }
  }

  lemma {:induction false} FirstBucketsBound(cfg: Config, s: State, key: string, n: nat)
    requires cfg.Valid() && Accounted(cfg, s) && n <= |s.heap|
    ensures GrantedByFirst(s.answers, s.heap, key, n) as real <= BucketsAllow(cfg, s.heap[..n], key)
  {
    if n > 0 {
      FirstBucketsBound(cfg, s, key, n - 1);
      assert BucketAccounted(cfg, s, n - 1);
      assert s.heap[..n][..n - 1] == s.heap[..n - 1];
    }
  }

  /** With any TTL, in every interleaving: the threads on a key are together granted at most what the buckets ever
      made for it allow, evicted ones included. */
  lemma GrantsWithinBuckets(cfg: Config, ss: seq<State>, steps: seq<Step>, i: nat, key: string)
    requires cfg.Valid() && Execution(cfg, ss, steps) && i < |ss|
    ensures Granted(ss[i].answers, key) as real <= BucketsAllow(cfg, ss[i].heap, key)
  {
    var s := ss[i];
    Invariant(cfg, ss, steps, i);
    GrantsComeFromBuckets(s.answers, s.heap, key);
    FirstBucketsBound(cfg, s, key, |s.heap|);
    assert s.heap[..|s.heap|] == s.heap;
  }

  // ---------- a call that nothing interrupts is one step of the sequential limiter

  /** What the map and the heap amount to as a table. */
  ghost function View(s: State): Table {
    Table(map k | k in s.buckets && s.buckets[k] < |s.heap| :: s.heap[s.buckets[k]].state, s.lastCleanup)
  }

  ghost predicate VisitedSoFar(cfg: Config, t0: Table, t: Table, now: int, todo: set<string>) {
    && t.lastCleanup == now && todo <= t.buckets.Keys <= t0.buckets.Keys
    && (forall k :: k in t.buckets ==> t.buckets[k] == t0.buckets[k])
    && (forall k :: k in t0.buckets ==> (k in t.buckets <==> k in todo || !LimiterTable.Idle(cfg, t0.buckets[k], now)))
  }

  /** How far thread `t` has brought the table `t0` it found, at each point of its call. */
  ghost predicate Underway(cfg: Config, t0: Table, a0: seq<Answer>, s: State, t: nat, key: string, now: int) {
    t < |s.threads| &&
    var v, c := View(s), Cleaned(cfg, t0, now);
    match s.threads[t]
    case Sampled(k, n) => k == key && n == now && v == t0 && s.answers == a0
    case Cleaning(k, n, todo) =>
      k == key && n == now && s.answers == a0 && CleanupDue(cfg, t0, now) && VisitedSoFar(cfg, t0, v, now, todo)
    case Looking(k, n) => k == key && n == now && v == c && s.answers == a0
    case Missed(k, n) => k == key && n == now && v == c && key !in v.buckets && s.answers == a0
    case Holding(k, n, b) =>
      k == key && n == now && v == WithBucket(cfg, c, key, now) && s.answers == a0 &&
      key in s.buckets && s.buckets[key] == b
    case Resting =>
      v == LimiterTable.Serve(cfg, t0, key, now).0 && |s.answers| == |a0| + 1 && s.answers[..|a0|] == a0 &&
      match s.answers[|a0|]
      case Refused(k) => k == key && !LimiterTable.Serve(cfg, t0, key, now).1
      case Answered(k, n, _, allowed) => k == key && n == now && (allowed <==> LimiterTable.Serve(cfg, t0, key, now).1)
  }

  lemma VisitKeepsUnderway(
    cfg: Config, t0: Table, a0: seq<Answer>, s: State, t: nat, key: string, now: int, victim: string)
    requires Wired(cfg, s) && Underway(cfg, t0, a0, s, t, key, now) && Enabled(cfg, s, Visit(t, victim))
    ensures Underway(cfg, t0, a0, Apply(cfg, s, Visit(t, victim)), t, key, now)
  {
  }

  lemma LeaveKeepsUnderway(cfg: Config, t0: Table, a0: seq<Answer>, s: State, t: nat, key: string, now: int)
    requires Wired(cfg, s) && Underway(cfg, t0, a0, s, t, key, now) && Enabled(cfg, s, LeaveCleanup(t))
    ensures Underway(cfg, t0, a0, Apply(cfg, s, LeaveCleanup(t)), t, key, now)
  {
    assert View(s).buckets == Cleaned(cfg, t0, now).buckets;
  }

  lemma EnterKeepsUnderway(cfg: Config, t0: Table, a0: seq<Answer>, s: State, t: nat, key: string, now: int)
    requires Wired(cfg, s) && Underway(cfg, t0, a0, s, t, key, now) && Enabled(cfg, s, EnterCleanup(t))
    ensures Underway(cfg, t0, a0, Apply(cfg, s, EnterCleanup(t)), t, key, now)
  {
    var s' := Apply(cfg, s, EnterCleanup(t));
    assert View(s').buckets == View(s).buckets;
  }

  lemma LookupKeepsUnderway(cfg: Config, t0: Table, a0: seq<Answer>, s: State, t: nat, key: string, now: int)
    requires Wired(cfg, s) && Underway(cfg, t0, a0, s, t, key, now) && Enabled(cfg, s, Lookup(t))
    ensures Underway(cfg, t0, a0, Apply(cfg, s, Lookup(t)), t, key, now)
  {
    assert View(Apply(cfg, s, Lookup(t))) == View(s);
  }

  lemma CreateKeepsUnderway(cfg: Config, t0: Table, a0: seq<Answer>, s: State, t: nat, key: string, now: int)
    requires Wired(cfg, s) && Underway(cfg, t0, a0, s, t, key, now) && Enabled(cfg, s, Create(t))
    ensures Underway(cfg, t0, a0, Apply(cfg, s, Create(t)), t, key, now)
  {
    var s', v := Apply(cfg, s, Create(t)), View(s);
    assert v.buckets.Keys == s.buckets.Keys;
    assert |v.buckets| == |v.buckets.Keys| == |s.buckets|;
    assert View(s').buckets == if Full(cfg, v) then v.buckets else v.buckets[key := Fresh(cfg, now)];
  }

  lemma ConsumeKeepsUnderway(cfg: Config, t0: Table, a0: seq<Answer>, s: State, t: nat, key: string, now: int)
    requires Wired(cfg, s) && Underway(cfg, t0, a0, s, t, key, now) && Enabled(cfg, s, Consume(t))
    ensures Underway(cfg, t0, a0, Apply(cfg, s, Consume(t)), t, key, now)
  {
    var s', v := Apply(cfg, s, Consume(t)), View(s);
    assert View(s').buckets == v.buckets[key := Take(cfg, v.buckets[key], now).0];
  }

  /** Thread `t` makes all the steps from `i` to `j`: one whole call, begun at `i`. */
  ghost predicate OneCall(ss: seq<State>, steps: seq<Step>, i: nat, j: nat, t: nat, key: string, now: int) {
    i < j <= |steps| < |ss| && steps[i] == Sample(t, key, now) &&
    (forall k :: i < k < j ==> steps[k].t == t && !steps[k].Sample?)
  }

  lemma {:induction false} CallUnderway(
    cfg: Config, ss: seq<State>, steps: seq<Step>, i: nat, j: nat, t: nat, key: string, now: int)
    requires cfg.Valid() && Execution(cfg, ss, steps) && OneCall(ss, steps, i, j, t, key, now)
    ensures Underway(cfg, View(ss[i]), ss[i].answers, ss[j], t, key, now)
    decreases j
  {
    var t0, a0 := View(ss[i]), ss[i].answers;
    Invariant(cfg, ss, steps, j - 1);
    if i + 1 == j {
      assert View(ss[j]) == t0;
    } else {
      CallUnderway(cfg, ss, steps, i, j - 1, t, key, now);
      var s := ss[j - 1];
      match steps[j - 1]
      case EnterCleanup(_) => EnterKeepsUnderway(cfg, t0, a0, s, t, key, now);
      case Visit(_, victim) => VisitKeepsUnderway(cfg, t0, a0, s, t, key, now, victim);
      case LeaveCleanup(_) => LeaveKeepsUnderway(cfg, t0, a0, s, t, key, now);
      case Lookup(_) => LookupKeepsUnderway(cfg, t0, a0, s, t, key, now);
      case Create(_) => CreateKeepsUnderway(cfg, t0, a0, s, t, key, now);
      case Consume(_) => ConsumeKeepsUnderway(cfg, t0, a0, s, t, key, now);
    }
  }

  /** Uninterrupted, the regions of a call - cleanup visit by visit, lookup, re-checked creation, draw - add up
      to one step of the sequential limiter, and the answer is that step's answer. */
  lemma UninterruptedCallIsStep(
    cfg: Config, ss: seq<State>, steps: seq<Step>, i: nat, j: nat, t: nat, key: string, now: int)
    requires cfg.Valid() && Execution(cfg, ss, steps) && OneCall(ss, steps, i, j, t, key, now)
    requires t < |ss[j].threads| && ss[j].threads[t].Resting?
    ensures var (u, allowed) := LimiterTable.Serve(cfg, View(ss[i]), key, now);
            View(ss[j]) == u && ss[j].answers != [] &&
            var a := ss[j].answers[|ss[j].answers| - 1];
            ss[j].answers == ss[i].answers + [a] && a.key == key && (allowed <==> a.Answered? && a.allowed)
  {
    CallUnderway(cfg, ss, steps, i, j, t, key, now);
  }
}
