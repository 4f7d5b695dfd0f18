/** The claim loop driving the order processor while others use the same tables: what a whole run of sessions comes
    to (internal/transport/kafka/consumer.go, internal/app/kafka_orders.go, internal/service/orders). */
module WorkerRuns {
  import Text
  import opened DeliveryTables
  import Orders
  import opened Worker
  import DeliveryRuns
  import C = ClaimLoop

  /** What one handling of a message meets: the answer of the orders service, and the attempt at the tables. */
  datatype Input = Input(lookup: Orders.Lookup, handling: Orders.Handling)

  /** One transaction: of this partition's claim loop, trying a message; or of anybody else - an HTTP call, the
      automatic release, the worker of another partition. */
  datatype Act =
    | Try(attempt: C.Attempt, input: Input)
    | Other(op: DeliveryRuns.Op)

  /** Every message tried is in the log. */
  ghost predicate OnLog(log: seq<C.Message>, acts: seq<Act>) {
    forall a :: a in acts && a.Try? ==> a.attempt.offset < |log|
  }

  /** The tables after one act, and the fate of the message if it tried one. */
  ghost function Performed(t: Tables, log: seq<C.Message>, a: Act): (r: (Tables, C.Fate))
    requires WellFormed(t) && (a.Try? ==> a.attempt.offset < |log|)
    ensures WellFormed(r.0)
    ensures a.Try? && r.1 == C.WillRetry ==> r.0 == t
  {
    match a
    case Try(attempt, input) =>
      RetriedMeansUnchanged(t, log[attempt.offset], input.lookup, input.handling);
      Process(t, log[attempt.offset], input.lookup, input.handling)
    case Other(op) => (DeliveryRuns.Apply(t, op).0, C.Done)
  }

  ghost function Through(t: Tables, log: seq<C.Message>, acts: seq<Act>): (u: Tables)
    requires WellFormed(t) && OnLog(log, acts)
    ensures WellFormed(u)
  {
    if acts == [] then t
    else
      var n := |acts| - 1;
      assert acts[n] in acts;
      Performed(Through(t, log, acts[..n]), log, acts[n]).0
  }

  /** The claim loop is told, each time, what the handling made of the tables as they were. */
  ghost predicate Faithful(t: Tables, log: seq<C.Message>, acts: seq<Act>)
    requires WellFormed(t)
  {
    OnLog(log, acts) &&
    (acts != [] ==>
       var n := |acts| - 1;
       Faithful(t, log, acts[..n]) && FaithfulAct(Through(t, log, acts[..n]), log, acts[n]))
  }

  ghost predicate FaithfulAct(t: Tables, log: seq<C.Message>, a: Act)
    requires WellFormed(t)
  {
    a.Try? ==> a.attempt.offset < |log| && a.attempt.fate == Performed(t, log, a).1
  }

  /** The attempts at messages, as the claim loop sees them. */
  ghost function Attempts(acts: seq<Act>): seq<C.Attempt> {
    if acts == [] then []
    else
      var a := acts[|acts| - 1];
      if a.Try? then Attempts(acts[..|acts| - 1]) + [a.attempt] else Attempts(acts[..|acts| - 1])
  }

  /** What everybody else does. */
  ghost function Others(acts: seq<Act>): seq<DeliveryRuns.Op> {
    if acts == [] then []
    else
      var a := acts[|acts| - 1];
      if a.Other? then Others(acts[..|acts| - 1]) + [a.op] else Others(acts[..|acts| - 1])
  }

  /** The attempts that settled their message. */
  ghost function Settling(trace: seq<C.Attempt>): seq<C.Attempt> {
    if trace == [] then []
    else
      var a := trace[|trace| - 1];
      if a.fate == C.WillRetry then Settling(trace[..|trace| - 1]) else Settling(trace[..|trace| - 1]) + [a]
  }

  ghost function FaultFree(a: Act): Act {
    if a.Try? then a.(input := a.input.(handling := a.input.handling.(fault := NoFault))) else a
  }

  /** The clean pass: only the attempts that settled their message, without their faults, and everything that
      others did, in the order in which it all came. */
  ghost function Clean(acts: seq<Act>): seq<Act> {
    if acts == [] then []
    else
      var a := acts[|acts| - 1];
      if Retried(a) then Clean(acts[..|acts| - 1]) else Clean(acts[..|acts| - 1]) + [FaultFree(a)]
  }

  // ---------- only the attempts that settle a message count

  /** A message is settled only by a handling that comes to what it would without a fault. */
  lemma SettledMeansClean(t: Tables, m: C.Message, l: Orders.Lookup, h: Orders.Handling)
    requires WellFormed(t) && Process(t, m, l, h).1 != C.WillRetry
    ensures Process(t, m, l, h) == Process(t, m, l, h.(fault := NoFault))
  {
    hide Text.TrimSpace, Pick, Booked, Unbooked, WithStatus, Deadline, Orders.ActionFor;
  }

  lemma ThroughOneMore(t: Tables, log: seq<C.Message>, acts: seq<Act>, a: Act)
    requires WellFormed(t) && OnLog(log, acts) && (a.Try? ==> a.attempt.offset < |log|)
    ensures OnLog(log, acts + [a]) && Through(t, log, acts + [a]) == Performed(Through(t, log, acts), log, a).0
    ensures Faithful(t, log, acts) && FaithfulAct(Through(t, log, acts), log, a) ==> Faithful(t, log, acts + [a])
    ensures Attempts(acts + [a]) == if a.Try? then Attempts(acts) + [a.attempt] else Attempts(acts)
    ensures Others(acts + [a]) == if a.Other? then Others(acts) + [a.op] else Others(acts)
  {
    hide Performed;
    assert (acts + [a])[..|acts|] == acts;
  }

  lemma SettlingMore(trace: seq<C.Attempt>, a: C.Attempt)
    ensures Settling(trace + [a]) == if a.fate == C.WillRetry then Settling(trace) else Settling(trace) + [a]
  {
    assert (trace + [a])[..|trace|] == trace;
  }

  /** `clean` is a pass over the settled attempts of `acts`, with everything that others did, and ends in the
      same tables. */
  ghost predicate SameEffect(t: Tables, log: seq<C.Message>, acts: seq<Act>, clean: seq<Act>)
    requires WellFormed(t) && OnLog(log, acts)
  {
    && Faithful(t, log, clean) && Through(t, log, clean) == Through(t, log, acts)
    && Attempts(clean) == Settling(Attempts(acts)) && Others(clean) == Others(acts)
  }

  ghost predicate Retried(a: Act) {
    a.Try? && a.attempt.fate == C.WillRetry
  }

  lemma RetryHasNoEffect(t: Tables, log: seq<C.Message>, acts: seq<Act>, a: Act, clean: seq<Act>)
    requires WellFormed(t) && OnLog(log, acts) && SameEffect(t, log, acts, clean)
    requires FaithfulAct(Through(t, log, acts), log, a) && Retried(a)
    ensures OnLog(log, acts + [a]) && SameEffect(t, log, acts + [a], clean)
  {
    hide Performed, Through, Faithful, Attempts, Settling, Others;
    ThroughOneMore(t, log, acts, a);
    SettlingMore(Attempts(acts), a.attempt);
  }

  lemma OthersHaveSameEffect(t: Tables, log: seq<C.Message>, acts: seq<Act>, a: Act, clean: seq<Act>)
    requires WellFormed(t) && OnLog(log, acts) && SameEffect(t, log, acts, clean)
    requires FaithfulAct(Through(t, log, acts), log, a) && !Retried(a)
    ensures OnLog(log, acts + [a]) && SameEffect(t, log, acts + [a], clean + [FaultFree(a)])
  {
    FaultFreeIsSame(Through(t, log, acts), log, a);
    hide Performed, Through, Faithful, Attempts, Settling, Others, FaithfulAct;
    ThroughOneMore(t, log, acts, a);
    ThroughOneMore(t, log, clean, FaultFree(a));
    if a.Try? {
      SettlingMore(Attempts(acts), a.attempt);
    }
  }

  /** Whatever a run looks like - attempts that fail, sessions cut short, marks lost, others writing in between - the
      tables are those of its clean pass; and that pass settles the same messages with the same fates. */
  lemma {:induction false} SettlingDecides(t: Tables, log: seq<C.Message>, acts: seq<Act>)
    requires WellFormed(t) && Faithful(t, log, acts)
    ensures SameEffect(t, log, acts, Clean(acts))
  {
    if acts != [] {
      var n := |acts| - 1;
      var a, init := acts[n], acts[..n];
      assert init + [a] == acts;
      SettlingDecides(t, log, init);
      assert Clean(acts) == if Retried(a) then Clean(init) else Clean(init) + [FaultFree(a)];
      hide *;
      if Retried(a) {
        RetryHasNoEffect(t, log, init, a, Clean(init));
      } else {
        OthersHaveSameEffect(t, log, init, a, Clean(init));
      }
    }
  }

  lemma FaultFreeIsSame(t: Tables, log: seq<C.Message>, a: Act)
    requires WellFormed(t) && FaithfulAct(t, log, a) && (a.Try? ==> a.attempt.fate != C.WillRetry)
    ensures FaithfulAct(t, log, FaultFree(a)) && Performed(t, log, FaultFree(a)) == Performed(t, log, a)
  {
    hide Process;
    if a.Try? {
      SettledMeansClean(t, log[a.attempt.offset], a.input.lookup, a.input.handling);
    }
  }

  // ---------- how far the sessions of a run overlap

  /** Everything below has been tried. */
  ghost function Reached(trace: seq<C.Attempt>): nat {
    if trace == [] then 0
    else
      var before, offset := Reached(trace[..|trace| - 1]), trace[|trace| - 1].offset;
      if before <= offset then offset + 1 else before
  }

  /** Each attempt is at the next message, or falls back by at most `d`. */
  ghost predicate Creeps(trace: seq<C.Attempt>, d: nat) {
    trace == [] ||
    (Creeps(trace[..|trace| - 1], d) &&
     var before, offset := Reached(trace[..|trace| - 1]), trace[|trace| - 1].offset;
     offset <= before <= offset + d)
  }

  /** At most `d` messages from the committed position on have been settled already. */
  ghost predicate StandsAt(trace: seq<C.Attempt>, position: nat, d: nat) {
    Creeps(Settling(trace), d) && position <= Reached(Settling(trace)) <= position + d
  }

  /** No session loses more than `d` of its marks. */
  ghost predicate LosesAtMost(log: seq<C.Message>, plans: seq<C.Plan>, d: nat)
    requires C.IsRun(log, plans)
  {
    forall k :: 0 <= k < |plans| ==>
      C.PlanOk(log, C.Position(plans, k), plans[k]) &&
      C.MarkAfter(log, plans[k].answers, C.Position(plans, k), plans[k].stop) <= plans[k].kept + d
  }

  /** One attempt at each message from `from` on; all but the one at `mark`, if it came to that, settle theirs. */
  ghost predicate InOneGo(tr: seq<C.Attempt>, from: nat, mark: nat) {
    && from <= mark && mark - from <= |tr| <= mark - from + 1
    && forall n :: 0 <= n < |tr| ==> tr[n].offset == from + n && (tr[n].fate == C.WillRetry <==> n == mark - from)
  }

  lemma SessionInOneGo(log: seq<C.Message>, p: C.Plan, from: nat)
    requires C.PlanOk(log, from, p)
    ensures C.MarkAfter(log, p.answers, from, p.stop) <= |log|
    ensures InOneGo(C.SessionTrace(log, p.answers, from, p.stop), from, C.MarkAfter(log, p.answers, from, p.stop))
  {
    C.MarkLaw(log, p.answers, from, p.stop);
    C.TraceLaw(log, p.answers, from, p.stop);
  }

  lemma CreepsMore(trace: seq<C.Attempt>, a: C.Attempt, d: nat)
    requires Creeps(trace, d) && a.offset <= Reached(trace) <= a.offset + d
    ensures Creeps(trace + [a], d)
    ensures Reached(trace + [a]) == if Reached(trace) <= a.offset then a.offset + 1 else Reached(trace)
  {
    assert (trace + [a])[..|trace|] == trace;
  }

  /** A session goes on where the run stands: it settles anew what it tries again, and then what comes next. */
  lemma {:induction false} SessionCreeps(before: seq<C.Attempt>, tr: seq<C.Attempt>, from: nat, mark: nat, d: nat)
    requires StandsAt(before, from, d) && InOneGo(tr, from, mark)
    ensures var s, reached := Settling(before + tr), Reached(Settling(before));
            Creeps(s, d) && Reached(s) == if reached < mark then mark else reached
    decreases |tr|
  {
    hide Creeps, Reached, Settling;
    if tr == [] {
      assert before + tr == before;
    } else {
      var n := |tr| - 1;
      var a := tr[n];
      assert before + tr == before + tr[..n] + [a];
      SettlingMore(before + tr[..n], a);
      if n == mark - from {
        SessionCreeps(before, tr[..n], from, mark, d);
      } else {
        SessionCreeps(before, tr[..n], from, mark - 1, d);
        CreepsMore(Settling(before + tr[..n]), a, d);
      }
    }
  }

  lemma SessionStands(before: seq<C.Attempt>, tr: seq<C.Attempt>, from: nat, mark: nat, kept: nat, d: nat)
    requires StandsAt(before, from, d) && InOneGo(tr, from, mark) && from <= kept <= mark <= kept + d
    ensures StandsAt(before + tr, kept, d)
  {
    SessionCreeps(before, tr, from, mark, d);
  }

  lemma NothingStands(d: nat)
    ensures StandsAt([], 0, d) && Reached(Settling([])) == 0
  {
  }

  lemma OneSession(log: seq<C.Message>, plans: seq<C.Plan>, k: nat, d: nat) returns (tr: seq<C.Attempt>, mark: nat)
    requires C.IsRun(log, plans) && LosesAtMost(log, plans, d) && 0 < k <= |plans|
    ensures C.Trace(log, plans, k) == C.Trace(log, plans, k - 1) + tr
    ensures InOneGo(tr, C.Position(plans, k - 1), mark) && mark <= |log|
    ensures C.Position(plans, k - 1) <= C.Position(plans, k) <= mark <= C.Position(plans, k) + d
  {
    hide InOneGo, C.MarkAfter, C.SessionTrace;
    var p, from := plans[k - 1], C.Position(plans, k - 1);
    assert C.PlanOk(log, from, p) && C.MarkAfter(log, p.answers, from, p.stop) <= p.kept + d;
    SessionInOneGo(log, p, from);
    tr, mark := C.SessionTrace(log, p.answers, from, p.stop), C.MarkAfter(log, p.answers, from, p.stop);
  }

  /** A run that loses at most `d` marks a session falls back by at most `d` messages at any time. */
  lemma {:induction false} RunStandsAt(log: seq<C.Message>, plans: seq<C.Plan>, k: nat, d: nat)
    requires C.IsRun(log, plans) && LosesAtMost(log, plans, d) && k <= |plans|
    ensures StandsAt(C.Trace(log, plans, k), C.Position(plans, k), d)
    ensures Reached(Settling(C.Trace(log, plans, k))) <= |log|
  {
    hide StandsAt, InOneGo, LosesAtMost, C.IsRun, Reached, Settling;
    if k == 0 {
      NothingStands(d);
    } else {
      RunStandsAt(log, plans, k - 1, d);
      var tr, mark := OneSession(log, plans, k, d);
      var before, from := C.Trace(log, plans, k - 1), C.Position(plans, k - 1);
      hide C.Trace, C.Position;
      SessionCreeps(before, tr, from, mark, d);
      SessionStands(before, tr, from, mark, C.Position(plans, k), d);
    }
  }

  // ---------- one clean pass

  /** The messages of the log from the first on, one attempt each. */
  ghost predicate InTurn(trace: seq<C.Attempt>) {
    forall i :: 0 <= i < |trace| ==> trace[i].offset == i
  }

  /** `part` is what remains of `whole` when some acts are left out. */
  ghost predicate Subsequence(part: seq<Act>, whole: seq<Act>) {
    if whole == [] then part == []
    else
      var init := whole[..|whole| - 1];
      Subsequence(part, init) ||
      (part != [] && part[|part| - 1] == whole[|whole| - 1] && Subsequence(part[..|part| - 1], init))
  }

  lemma {:induction false} SubsequenceOfItself(acts: seq<Act>)
    ensures Subsequence(acts, acts)
  {
    if acts != [] {
      SubsequenceOfItself(acts[..|acts| - 1]);
    }
  }

  lemma {:induction false} SubsequenceWithin(part: seq<Act>, whole: seq<Act>, a: Act)
    requires Subsequence(part, whole) && a in part
    ensures a in whole
  {
    var init := whole[..|whole| - 1];
    if Subsequence(part, init) {
      SubsequenceWithin(part, init, a);
    } else if a != part[|part| - 1] {
      SubsequenceWithin(part[..|part| - 1], init, a);
    }
  }

  lemma SubsequenceMore(part: seq<Act>, whole: seq<Act>, a: Act)
    requires Subsequence(part, whole)
    ensures Subsequence(part, whole + [a]) && Subsequence(part + [a], whole + [a])
  {
    assert (whole + [a])[..|whole|] == whole && (part + [a])[..|part|] == part;
  }

  /** `pass` is one pass over the log up to some message at or beyond `position`: of each message it has one handling
      that settled it, freed of its fault, and of the others all they did, in the order in which it all came; and it
      ends in the same tables. */
  ghost predicate IsOneCleanPass(
    t: Tables, log: seq<C.Message>, acts: seq<Act>, pass: seq<Act>, position: nat)
    requires WellFormed(t) && OnLog(log, acts)
  {
    && OnLog(log, pass) && Subsequence(pass, Clean(acts)) && Others(pass) == Others(acts)
    && InTurn(Attempts(pass)) && position <= |Attempts(pass)| <= |log|
    && Through(t, log, pass) == Through(t, log, acts)
  }

  /** What the claim loop and everybody else do to the tables in a run that loses at most `d` marks a session. */
  ghost predicate RunOf(t: Tables, log: seq<C.Message>, plans: seq<C.Plan>, acts: seq<Act>, d: nat) {
    && WellFormed(t) && Faithful(t, log, acts)
    && C.IsRun(log, plans) && LosesAtMost(log, plans, d) && Attempts(acts) == C.Trace(log, plans, |plans|)
  }

  lemma {:induction false} StrictCreep(trace: seq<C.Attempt>)
    requires Creeps(trace, 0)
    ensures InTurn(trace) && Reached(trace) == |trace|
  {
    if trace != [] {
      StrictCreep(trace[..|trace| - 1]);
    }
  }

  /** Exactly-once effect: in every run of sessions that loses no mark, however often its handlings fail and its
      sessions end, and whatever others do in between, the tables are those of one clean pass over the messages
      below the committed position, with everything the others did. */
  lemma {:induction false} RunIsOneCleanPass(t: Tables, log: seq<C.Message>, plans: seq<C.Plan>, acts: seq<Act>)
    requires RunOf(t, log, plans, acts, 0)
    ensures IsOneCleanPass(t, log, acts, Clean(acts), C.Position(plans, |plans|))
    ensures |Attempts(Clean(acts))| == C.Position(plans, |plans|)
  {
    RunStandsAt(log, plans, |plans|, 0);
    SettlingDecides(t, log, acts);
    SubsequenceOfItself(Clean(acts));
    StrictCreep(Settling(Attempts(acts)));
  }

  // ---------- a mark lost

  /** A message tried when it has been reached before. */
  ghost predicate Again(before: seq<Act>, a: Act) {
    a.Try? && a.attempt.offset < Reached(Attempts(before))
  }

  /** Of the attempts at each message the first only. */
  ghost function Firsts(acts: seq<Act>): seq<Act> {
    if acts == [] then []
    else
      var init, a := acts[..|acts| - 1], acts[|acts| - 1];
      if Again(init, a) then Firsts(init) else Firsts(init) + [a]
  }

  /** No one else's transaction stands right before a message that is handled again. */
  ghost predicate Undisturbed(acts: seq<Act>) {
    acts == [] ||
    var init, a := acts[..|acts| - 1], acts[|acts| - 1];
    Undisturbed(init) && (Again(init, a) && init != [] ==> init[|init| - 1].Try?)
  }

  /** The orders service gives the same answer at each handling of a message. */
  ghost predicate SameLookups(acts: seq<Act>) {
    forall a, b :: a in acts && b in acts && a.Try? && b.Try? && a.attempt.offset == b.attempt.offset ==>
      a.input.lookup == b.input.lookup
  }

  ghost predicate AllSettled(acts: seq<Act>) {
    forall a :: a in acts ==> !Retried(a)
  }

  /** Handling a message again right after it has been settled changes nothing. */
  lemma RepeatIsHarmless(t: Tables, m: C.Message, l: Orders.Lookup, h: Orders.Handling, again: Orders.Handling)
    requires WellFormed(t) && Process(t, m, l, h).1 != C.WillRetry && WellFormed(Process(t, m, l, h).0)
    ensures var u := Process(t, m, l, h).0; Process(u, m, l, again).0 == u
  {
    SettledMeansClean(t, m, l, h);
    if m.Payload? && EventOf(m).orderId != "" && !l.Failed? && !l.Missing? {
      var e := if l.Found? then EventOf(m).(status := l.status) else EventOf(m);
      Orders.RedeliveryIsHarmless(t, e, h.(fault := NoFault));
      hide Orders.Outcome;
    }
  }

  lemma StepAgain(t: Tables, log: seq<C.Message>, a: Act, b: Act)
    requires WellFormed(t) && FaithfulAct(t, log, a) && a.Try? && !Retried(a)
    requires b.Try? && b.attempt.offset == a.attempt.offset && b.input.lookup == a.input.lookup
    ensures var u := Performed(t, log, a).0; Performed(u, log, b).0 == u
  {
    hide Process;
    RepeatIsHarmless(t, log[a.attempt.offset], a.input.lookup, a.input.handling, b.input.handling);
  }

  /** The latest attempt is at the latest message reached. */
  lemma LastReached(trace: seq<C.Attempt>)
    requires Creeps(trace, 1) && trace != []
    ensures Reached(trace) == trace[|trace| - 1].offset + 1
  {
  }

  /** `once` is made of `acts`, has one attempt at each message reached, and ends in the same tables. */
  ghost predicate Reduces(t: Tables, log: seq<C.Message>, acts: seq<Act>, once: seq<Act>)
    requires WellFormed(t) && OnLog(log, acts)
  {
    && OnLog(log, once) && Subsequence(once, acts) && Others(once) == Others(acts)
    && InTurn(Attempts(once)) && |Attempts(once)| == Reached(Attempts(acts))
    && Through(t, log, once) == Through(t, log, acts)
  }

  lemma ReducesMore(t: Tables, log: seq<C.Message>, acts: seq<Act>, once: seq<Act>, a: Act)
    requires WellFormed(t) && OnLog(log, acts + [a]) && OnLog(log, acts) && Reduces(t, log, acts, once)
    requires a.Try? ==> a.attempt.offset == Reached(Attempts(acts))
    ensures Reduces(t, log, acts + [a], once + [a])
  {
    hide Performed, Through, Faithful, Attempts, Others, Reached, Subsequence;
    assert a in acts + [a];
    SubsequenceMore(once, acts, a);
    ThroughOneMore(t, log, acts, a);
    ThroughOneMore(t, log, once, a);
    if a.Try? {
      ReachedOneMore(Attempts(acts), a.attempt);
    }
  }

  lemma ReachedOneMore(trace: seq<C.Attempt>, a: C.Attempt)
    ensures Reached(trace + [a]) == if Reached(trace) <= a.offset then a.offset + 1 else Reached(trace)
  {
    assert (trace + [a])[..|trace|] == trace;
  }

  lemma StaysReduced(t: Tables, log: seq<C.Message>, acts: seq<Act>, once: seq<Act>, a: Act)
    requires WellFormed(t) && OnLog(log, acts + [a]) && OnLog(log, acts) && Reduces(t, log, acts, once)
    requires Again(acts, a) && Through(t, log, acts + [a]) == Through(t, log, acts)
    ensures Reduces(t, log, acts + [a], once)
  {
    hide Performed, Through, Faithful, Attempts, Others, Reached, Subsequence;
    assert a in acts + [a];
    SubsequenceMore(once, acts, a);
    ThroughOneMore(t, log, acts, a);
    ReachedOneMore(Attempts(acts), a.attempt);
  }

  /** Right after message `b` has been settled, handling it again as `a` leaves the tables alone. */
  lemma AgainChangesNothing(t: Tables, log: seq<C.Message>, before: seq<Act>, b: Act, a: Act)
    requires WellFormed(t) && OnLog(log, before) && b.Try? && !Retried(b)
    requires FaithfulAct(Through(t, log, before), log, b)
    requires a.Try? && a.attempt.offset == b.attempt.offset && a.input.lookup == b.input.lookup
    ensures OnLog(log, before + [b]) && OnLog(log, before + [b] + [a])
    ensures Through(t, log, before + [b] + [a]) == Through(t, log, before + [b])
  {
    StepAgain(Through(t, log, before), log, b, a);
    hide Performed, Through, Faithful, FaithfulAct;
    ThroughOneMore(t, log, before, b);
    ThroughOneMore(t, log, before + [b], a);
  }

  /** An attempt at a message reached before comes right after another one at it. */
  lemma AgainMeansRightAway(acts: seq<Act>, a: Act) returns (before: seq<Act>, b: Act)
    requires Creeps(Attempts(acts), 1) && Again(acts, a) && a.attempt.offset + 1 >= Reached(Attempts(acts))
    requires acts != [] ==> acts[|acts| - 1].Try?
    ensures acts == before + [b] && b.Try? && b.attempt.offset == a.attempt.offset
  {
    before, b := acts[..|acts| - 1], acts[|acts| - 1];
    LastReached(Attempts(acts));
  }

  lemma FaithfulParts(t: Tables, log: seq<C.Message>, acts: seq<Act>, a: Act)
    requires WellFormed(t) && Faithful(t, log, acts + [a])
    ensures Faithful(t, log, acts) && FaithfulAct(Through(t, log, acts), log, a)
  {
    hide FaithfulAct;
    assert (acts + [a])[..|acts|] == acts;
  }

  lemma CreepsParts(acts: seq<Act>, a: Act)
    requires Creeps(Attempts(acts + [a]), 1)
    ensures Creeps(Attempts(acts), 1)
    ensures a.Try? ==> a.attempt.offset <= Reached(Attempts(acts)) <= a.attempt.offset + 1
  {
    assert (acts + [a])[..|acts|] == acts;
    if a.Try? {
      assert (Attempts(acts) + [a.attempt])[..|Attempts(acts)|] == Attempts(acts);
    }
  }

  /** A pass in which messages are handled again only right away and with the same answer, one at a time. */
  ghost predicate Stutters(t: Tables, log: seq<C.Message>, acts: seq<Act>)
    requires WellFormed(t)
  {
    Faithful(t, log, acts) && AllSettled(acts) && Creeps(Attempts(acts), 1) && Undisturbed(acts) && SameLookups(acts)
  }

  lemma StuttersParts(t: Tables, log: seq<C.Message>, acts: seq<Act>, a: Act)
    requires WellFormed(t) && Stutters(t, log, acts + [a])
    ensures Stutters(t, log, acts) && FaithfulAct(Through(t, log, acts), log, a)
    ensures a.Try? ==> a.attempt.offset <= Reached(Attempts(acts)) <= a.attempt.offset + 1
    ensures Again(acts, a) && acts != [] ==> acts[|acts| - 1].Try?
  {
    hide Creeps, FaithfulAct, Attempts, Reached;
    FaithfulParts(t, log, acts, a);
    CreepsParts(acts, a);
    assert (acts + [a])[..|acts|] == acts;
    hide Faithful;
    forall b | b in acts ensures b in acts + [a] {
    }
  }

  /** Of such a pass, only the first attempt at each message counts. */
  lemma {:induction false} FirstsDecide(t: Tables, log: seq<C.Message>, acts: seq<Act>)
    requires WellFormed(t) && Stutters(t, log, acts)
    ensures Reduces(t, log, acts, Firsts(acts))
  {
    if acts != [] {
      var n := |acts| - 1;
      var a, init := acts[n], acts[..n];
      assert acts == init + [a];
      StuttersParts(t, log, init, a);
      FirstsDecide(t, log, init);
      assert Firsts(acts) == if Again(init, a) then Firsts(init) else Firsts(init) + [a];
      if !Again(init, a) {
        hide Through, Reached, Attempts, Reduces, Stutters, Firsts, FaithfulAct;
        ReducesMore(t, log, init, Firsts(init), a);
      } else {
        var before, b := AgainMeansRightAway(init, a);
        SettledHere(t, log, before, b, a);
        hide Through, Reached, Attempts, Reduces, Stutters, Firsts, FaithfulAct, Again;
        AgainChangesNothing(t, log, before, b, a);
        StaysReduced(t, log, init, Firsts(init), a);
      }
    }
  }

  lemma SettledHere(t: Tables, log: seq<C.Message>, before: seq<Act>, b: Act, a: Act)
    requires WellFormed(t) && Stutters(t, log, before + [b] + [a])
    ensures OnLog(log, before) && FaithfulAct(Through(t, log, before), log, b) && !Retried(b)
    ensures a.Try? && b.Try? && a.attempt.offset == b.attempt.offset ==> a.input.lookup == b.input.lookup
  {
    hide Creeps, FaithfulAct, Attempts, Reached;
    var acts := before + [b] + [a];
    FaithfulParts(t, log, before + [b], a);
    FaithfulParts(t, log, before, b);
    assert acts[|before|] == b && acts[|before| + 1] == a;
    assert b in acts && a in acts;
  }

  /** When at most one mark a session is lost, nothing of anybody else stands right before a message handled again, and
      the orders service does not change its mind about it, the tables are those of one clean pass: up to the
      committed position, or one message further. */
  lemma {:induction false} OneLostMarkIsHarmless(t: Tables, log: seq<C.Message>, plans: seq<C.Plan>, acts: seq<Act>)
    requires RunOf(t, log, plans, acts, 1) && Undisturbed(Clean(acts)) && SameLookups(Clean(acts))
    ensures IsOneCleanPass(t, log, acts, Firsts(Clean(acts)), C.Position(plans, |plans|))
    ensures |Attempts(Firsts(Clean(acts)))| <= C.Position(plans, |plans|) + 1
  {
    RunStandsAt(log, plans, |plans|, 1);
    SettlingDecides(t, log, acts);
    CleanIsSettled(acts);
    hide Creeps, Faithful, Through, Attempts, Others, Settling, Firsts, Undisturbed, SameLookups, Clean, InTurn,
      C.IsRun, LosesAtMost, Subsequence;
    FirstsDecide(t, log, Clean(acts));
  }

  lemma {:induction false} CleanIsSettled(acts: seq<Act>)
    ensures AllSettled(Clean(acts))
  {
    if acts != [] {
      CleanIsSettled(acts[..|acts| - 1]);
    }
  }
}
