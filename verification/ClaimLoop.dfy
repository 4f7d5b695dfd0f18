/** The Kafka claim loop over one partition, and the run of sessions around it (internal/transport/kafka). */
module ClaimLoop {
  import Text

  /** A message's value: unparsable, or the two text fields that decide what happens to it. */
  datatype Message = BadJson | Payload(orderId: string, status: string)

  datatype HandlerResult = Handled | PermanentFailure | TransientFailure

  /** What became of one message in one session. */
  datatype Fate = NotJson | BlankOrder | Done | Skipped | WillRetry

  datatype Attempt = Attempt(offset: nat, fate: Fate)

  function FateOf(m: Message, r: HandlerResult): (fate: Fate)
    ensures fate == NotJson <==> m.BadJson?
    ensures fate in {Done, Skipped, WillRetry} <==> m.Payload? && Text.TrimSpace(m.orderId) != ""
    ensures fate == Done ==> r.Handled?
    ensures fate == Skipped ==> r.PermanentFailure?
    ensures fate == WillRetry ==> r.TransientFailure?
  {
    if m.BadJson? then NotJson
    else if Text.TrimSpace(m.orderId) == "" then BlankOrder
    else match r
      case Handled => Done
      case PermanentFailure => Skipped
      case TransientFailure => WillRetry
  }

  // ---------- one session

  /** Where a session that starts at `from` and ends by `stop` leaves its mark: the first message to be retried. */
  ghost function MarkAfter(log: seq<Message>, answers: seq<HandlerResult>, from: nat, stop: nat): nat
    requires from <= stop <= |log| == |answers|
    decreases stop - from
  {
    if from == stop || FateOf(log[from], answers[from]) == WillRetry then from
    else MarkAfter(log, answers, from + 1, stop)
  }

  ghost function SessionTrace(log: seq<Message>, answers: seq<HandlerResult>, from: nat, stop: nat): seq<Attempt>
    requires from <= stop <= |log| == |answers|
    decreases stop - from
  {
    if from == stop then []
    else
      var fate := FateOf(log[from], answers[from]);
      [Attempt(from, fate)] + if fate == WillRetry then [] else SessionTrace(log, answers, from + 1, stop)
  }

  lemma SessionUnfolds(log: seq<Message>, answers: seq<HandlerResult>, from: nat, stop: nat)
    requires from <= stop <= |log| == |answers|
    ensures if from == stop then
              MarkAfter(log, answers, from, stop) == from && SessionTrace(log, answers, from, stop) == []
            else
              var fate := FateOf(log[from], answers[from]);
              if fate == WillRetry then
                MarkAfter(log, answers, from, stop) == from &&
                SessionTrace(log, answers, from, stop) == [Attempt(from, fate)]
              else
                MarkAfter(log, answers, from, stop) == MarkAfter(log, answers, from + 1, stop) &&
                SessionTrace(log, answers, from, stop) ==
                  [Attempt(from, fate)] + SessionTrace(log, answers, from + 1, stop)
  {
  }

  class Session {
    var marked: nat
    var trace: seq<Attempt>

    constructor (committed: nat)
      ensures marked == committed && trace == []
    {
      marked, trace := committed, [];
    }

    method MarkMessage(offset: nat)
      modifies this`marked
      ensures marked == if offset + 1 > old(marked) then offset + 1 else old(marked)
    {
      if offset + 1 > marked {
        marked := offset + 1;
      }
    }

    /** The session context may be done, or the channel closed, after any message: `stop` is where.
        Returns whether the claim ended with the handler's error. */
    method ConsumeClaim(log: seq<Message>, answers: seq<HandlerResult>, stop: nat) returns (failed: bool)
      requires marked <= stop <= |log| == |answers| && trace == []
      modifies this
      ensures marked == MarkAfter(log, answers, old(marked), stop)
      ensures trace == SessionTrace(log, answers, old(marked), stop)
      ensures failed <==> marked < stop
    {
      hide MarkAfter, SessionTrace;
      ghost var from := marked;
      var next := marked;
      SessionUnfolds(log, answers, stop, stop);
      while next < stop
        invariant from <= next == marked <= stop
        invariant MarkAfter(log, answers, next, stop) == MarkAfter(log, answers, from, stop)
        invariant trace + SessionTrace(log, answers, next, stop) == SessionTrace(log, answers, from, stop)
      {
        var fate := FateOf(log[next], answers[next]);
        ghost var before, rest := trace, SessionTrace(log, answers, next, stop);
        trace := trace + [Attempt(next, fate)];
        SessionUnfolds(log, answers, next, stop);
        if fate == WillRetry {
          return true;
        }
        assert trace + SessionTrace(log, answers, next + 1, stop) == before + rest;
        MarkMessage(next);
        next := next + 1;
      }
      return false;
    }
  }

  /** The mark is where the first message to be retried stands, if the session met one. */
  lemma {:induction false} MarkLaw(log: seq<Message>, answers: seq<HandlerResult>, from: nat, stop: nat)
    requires from <= stop <= |log| == |answers|
    ensures var m := MarkAfter(log, answers, from, stop);
            && from <= m <= stop
            && (forall i :: from <= i < m ==> FateOf(log[i], answers[i]) != WillRetry)
            && (m < stop ==> FateOf(log[m], answers[m]) == WillRetry)
    decreases stop - from
  {
    if from < stop && FateOf(log[from], answers[from]) != WillRetry {
      MarkLaw(log, answers, from + 1, stop);
    }
  }

  /** An attempt at each message from `from` on, with the fate its handling gives it. */
  ghost predicate OneByOne(log: seq<Message>, answers: seq<HandlerResult>, tr: seq<Attempt>, from: nat) {
    from + |tr| <= |log| == |answers| &&
    forall n :: 0 <= n < |tr| ==> tr[n] == Attempt(from + n, FateOf(log[from + n], answers[from + n]))
  }

  lemma OneMoreBefore(log: seq<Message>, answers: seq<HandlerResult>, rest: seq<Attempt>, from: nat)
    requires from < |log| == |answers| && OneByOne(log, answers, rest, from + 1)
    ensures OneByOne(log, answers, [Attempt(from, FateOf(log[from], answers[from]))] + rest, from)
  {
    hide FateOf;
  }

  lemma {:induction false} SessionIsOneByOne(log: seq<Message>, answers: seq<HandlerResult>, from: nat, stop: nat)
    requires from <= stop <= |log| == |answers|
    ensures var tr, m := SessionTrace(log, answers, from, stop), MarkAfter(log, answers, from, stop);
            from <= m <= stop && |tr| == m - from + (if m < stop then 1 else 0) && OneByOne(log, answers, tr, from)
    decreases stop - from
  {
    SessionUnfolds(log, answers, from, stop);
    if from < stop && FateOf(log[from], answers[from]) != WillRetry {
      hide SessionTrace, MarkAfter, FateOf, OneByOne;
      SessionIsOneByOne(log, answers, from + 1, stop);
      OneMoreBefore(log, answers, SessionTrace(log, answers, from + 1, stop), from);
    }
  }

  /** A session tries the messages from its start on, one by one, each with the fate its handling gives it,
      and nothing beyond the first that is to be retried. */
  lemma TraceLaw(log: seq<Message>, answers: seq<HandlerResult>, from: nat, stop: nat)
    requires from <= stop <= |log| == |answers|
    ensures var tr, m := SessionTrace(log, answers, from, stop), MarkAfter(log, answers, from, stop);
            && from <= m <= stop
            && |tr| == m - from + (if m < stop then 1 else 0)
            && forall n :: 0 <= n < |tr| ==> tr[n] == Attempt(from + n, FateOf(log[from + n], answers[from + n]))
  {
    hide SessionTrace, MarkAfter, FateOf;
    SessionIsOneByOne(log, answers, from, stop);
  }

  // ---------- a run of sessions

  /** One session as it happens to go: the handler's answers, where it ends, and how far of what it marked
      reaches the broker. The next session resumes from there. */
  datatype Plan = Plan(answers: seq<HandlerResult>, stop: nat, kept: nat)

  ghost predicate PlanOk(log: seq<Message>, from: nat, p: Plan) {
    |p.answers| == |log| && from <= p.stop <= |log| && from <= p.kept <= MarkAfter(log, p.answers, from, p.stop)
  }

  /** The committed position after the first `k` sessions. */
  function Position(plans: seq<Plan>, k: nat): nat
    requires k <= |plans|
  {
    if k == 0 then 0 else plans[k - 1].kept
  }

  ghost predicate IsRun(log: seq<Message>, plans: seq<Plan>) {
    forall k {:trigger Position(plans, k)} :: 0 <= k < |plans| ==> PlanOk(log, Position(plans, k), plans[k])
  }

  ghost function Trace(log: seq<Message>, plans: seq<Plan>, k: nat): seq<Attempt>
    requires IsRun(log, plans) && k <= |plans|
  {
    if k == 0 then []
    else
      var p := plans[k - 1];
      assert PlanOk(log, Position(plans, k - 1), p);
      Trace(log, plans, k - 1) + SessionTrace(log, p.answers, Position(plans, k - 1), p.stop)
  }

  /** The offset the broker ends up with: never more than was marked. */
  function Flushed(marked: nat, kept: nat): nat {
    if kept < marked then kept else marked
  }

  class Consumer {
    var committed: nat
    var trace: seq<Attempt>

    constructor ()
      ensures committed == 0 && trace == []
    {
      committed, trace := 0, [];
    }

    /** Session after session until the context is cancelled; errors of a session are logged and forgotten. */
    method Run(log: seq<Message>, plans: seq<Plan>)
      requires committed == 0 && trace == [] && IsRun(log, plans)
      modifies this
      ensures committed == Position(plans, |plans|) && trace == Trace(log, plans, |plans|)
    {
      var k := 0;
      while k < |plans|
        invariant k <= |plans| && committed == Position(plans, k) && trace == Trace(log, plans, k)
      {
        assert PlanOk(log, Position(plans, k), plans[k]);
        var session := new Session(committed);
        var failed := session.ConsumeClaim(log, plans[k].answers, plans[k].stop);
        trace := trace + session.trace;
        committed := Flushed(session.marked, plans[k].kept);
        k := k + 1;
      }
    }
  }

  // ---------- at least once, and in order

  /** The attempt settled the message: nothing remains to be done about it. */
  ghost predicate Settles(log: seq<Message>, a: Attempt, i: nat) {
    a.offset == i < |log| && a.fate != WillRetry &&
    (log[i].BadJson? <==> a.fate == NotJson) &&
    (log[i].Payload? && Text.TrimSpace(log[i].orderId) == "" <==> a.fate == BlankOrder)
  }

  ghost predicate SettledBy(log: seq<Message>, trace: seq<Attempt>, i: nat) {
    exists a :: a in trace && Settles(log, a, i)
  }

  /** Every message below the committed position has been handled without error, skipped as permanently failing,
      or was unparsable or without an order. */
  lemma {:induction false} AtLeastOnce(log: seq<Message>, plans: seq<Plan>, k: nat, i: nat)
    requires IsRun(log, plans) && k <= |plans| && i < Position(plans, k)
    ensures i < |log| && SettledBy(log, Trace(log, plans, k), i)
  {
    var p, from := plans[k - 1], Position(plans, k - 1);
    assert PlanOk(log, from, p);
    if i < from {
      AtLeastOnce(log, plans, k - 1, i);
      var a :| a in Trace(log, plans, k - 1) && Settles(log, a, i);
      assert a in Trace(log, plans, k);
    } else {
      MarkLaw(log, p.answers, from, p.stop);
      TraceLaw(log, p.answers, from, p.stop);
      var tr := SessionTrace(log, p.answers, from, p.stop);
      assert tr[i - from] in Trace(log, plans, k);
      assert Settles(log, tr[i - from], i);
    }
  }

  /** No message is tried before every earlier one has been settled. */
  lemma {:induction false} NothingOvertakes(log: seq<Message>, plans: seq<Plan>, k: nat, n: nat, i: nat)
    requires IsRun(log, plans) && k <= |plans| && n < |Trace(log, plans, k)|
    requires i < Trace(log, plans, k)[n].offset
    ensures SettledBy(log, Trace(log, plans, k)[..n], i)
  {
    var p, from := plans[k - 1], Position(plans, k - 1);
    assert PlanOk(log, from, p);
    var before, tr, all := Trace(log, plans, k - 1), SessionTrace(log, p.answers, from, p.stop), Trace(log, plans, k);
    if n < |before| {
      assert all[..n] == before[..n];
      NothingOvertakes(log, plans, k - 1, n, i);
    } else if i < from {
      AtLeastOnce(log, plans, k - 1, i);
      var a :| a in before && Settles(log, a, i);
      assert all[..n] == before + tr[..n - |before|];
      assert a in all[..n];
    } else {
      MarkLaw(log, p.answers, from, p.stop);
      TraceLaw(log, p.answers, from, p.stop);
      assert all[n] == tr[n - |before|];
      assert all[|before| + i - from] == tr[i - from];
      assert tr[i - from] in all[..n];
      assert Settles(log, tr[i - from], i);
    }
  }

  /** What the committed position passes between two sessions has been settled between them. */
  lemma {:induction false} PassedMeansSettled(log: seq<Message>, plans: seq<Plan>, k: nat, k': nat, m: nat)
    requires IsRun(log, plans) && k <= k' <= |plans| && Position(plans, k) <= m < Position(plans, k')
    ensures Trace(log, plans, k) <= Trace(log, plans, k')
    ensures m < |log| && SettledBy(log, Trace(log, plans, k')[|Trace(log, plans, k)|..], m)
    decreases k'
  {
    var p, from := plans[k' - 1], Position(plans, k' - 1);
    assert PlanOk(log, from, p);
    var start, before, all := |Trace(log, plans, k)|, Trace(log, plans, k' - 1), Trace(log, plans, k');
    var tr := SessionTrace(log, p.answers, from, p.stop);
    TraceGrows(log, plans, k, k' - 1);
    assert all == before + tr;
    hide *;
    if m < from {
      PassedMeansSettled(log, plans, k, k' - 1, m);
      StaysSettled(log, before, tr, start, m);
    } else {
      SettledInSession(log, p, from, m);
      SettledLater(log, before, tr, start, m - from, m);
    }
  }

  lemma StaysSettled(log: seq<Message>, before: seq<Attempt>, tr: seq<Attempt>, start: nat, m: nat)
    requires start <= |before| && SettledBy(log, before[start..], m)
    ensures SettledBy(log, (before + tr)[start..], m)
  {
    hide Settles;
    assert (before + tr)[start..] == before[start..] + tr;
    var a :| a in before[start..] && Settles(log, a, m);
    assert a in (before + tr)[start..];
  }

  lemma SettledLater(log: seq<Message>, before: seq<Attempt>, tr: seq<Attempt>, start: nat, n: nat, m: nat)
    requires start <= |before| && n < |tr| && Settles(log, tr[n], m)
    ensures SettledBy(log, (before + tr)[start..], m)
  {
    hide Settles;
    assert (before + tr)[start..] == before[start..] + tr;
    assert tr[n] in (before + tr)[start..];
  }

  /** What a session keeps, it has settled. */
  lemma SettledInSession(log: seq<Message>, p: Plan, from: nat, m: nat)
    requires PlanOk(log, from, p) && from <= m < p.kept
    ensures m < |log|
    ensures var tr := SessionTrace(log, p.answers, from, p.stop); m - from < |tr| && Settles(log, tr[m - from], m)
  {
    MarkLaw(log, p.answers, from, p.stop);
    TraceLaw(log, p.answers, from, p.stop);
  }

  lemma {:induction false} TraceGrows(log: seq<Message>, plans: seq<Plan>, k: nat, k': nat)
    requires IsRun(log, plans) && k <= k' <= |plans|
    ensures Trace(log, plans, k) <= Trace(log, plans, k')
    decreases k'
  {
    if k < k' {
      TraceGrows(log, plans, k, k' - 1);
      assert PlanOk(log, Position(plans, k' - 1), plans[k' - 1]);
    }
  }

  /** A message that fails transiently stays the first unmarked one: its session commits nothing beyond it, and a
      later session can start beyond it only after it has been settled since that failure - no matter whether
      an earlier session, whose marks were lost, had settled it before. */
  lemma {:induction false} FailureStaysFirst(log: seq<Message>, plans: seq<Plan>, k: nat, k': nat)
    requires IsRun(log, plans) && k < k' <= |plans|
    requires PlanOk(log, Position(plans, k), plans[k]) && FailsIn(log, plans, k)
    ensures var p := plans[k]; var m := MarkAfter(log, p.answers, Position(plans, k), p.stop);
            && m < |log| && FateOf(log[m], p.answers[m]) == WillRetry
            && (forall i :: Position(plans, k) <= i < m ==> FateOf(log[i], p.answers[i]) != WillRetry)
            && Trace(log, plans, k + 1) <= Trace(log, plans, k')
            && (Position(plans, k') <= m || SettledBy(log, Trace(log, plans, k')[|Trace(log, plans, k + 1)|..], m))
  {
    var p := plans[k];
    var m := MarkAfter(log, p.answers, Position(plans, k), p.stop);
    MarkLaw(log, p.answers, Position(plans, k), p.stop);
    TraceGrows(log, plans, k + 1, k');
    if m < Position(plans, k') {
      PassedMeansSettled(log, plans, k + 1, k', m);
    }
  }

  // ---------- progress

  /** Session `k` ends because a message failed transiently. */
  ghost predicate FailsIn(log: seq<Message>, plans: seq<Plan>, k: nat)
    requires k < |plans| && PlanOk(log, Position(plans, k), plans[k])
  {
    MarkAfter(log, plans[k].answers, Position(plans, k), plans[k].stop) < plans[k].stop
  }

  /** Session `k` is cut short: it ends before the end of the log, or loses some of its marks. */
  ghost predicate CutShort(log: seq<Message>, plans: seq<Plan>, k: nat)
    requires k < |plans| && PlanOk(log, Position(plans, k), plans[k])
  {
    !FailsIn(log, plans, k) && (plans[k].stop < |log| || plans[k].kept < plans[k].stop)
  }

  /** How many of the first `k` sessions failed at a message below `n`. */
  ghost function FailuresBelow(log: seq<Message>, plans: seq<Plan>, k: nat, n: nat): nat
    requires IsRun(log, plans) && k <= |plans|
  {
    if k == 0 then 0
    else
      assert PlanOk(log, Position(plans, k - 1), plans[k - 1]);
      FailuresBelow(log, plans, k - 1, n) +
      if FailsIn(log, plans, k - 1) &&
         MarkAfter(log, plans[k - 1].answers, Position(plans, k - 1), plans[k - 1].stop) < n then 1 else 0
  }

  ghost function FailuresAt(log: seq<Message>, plans: seq<Plan>, k: nat, i: nat): int
    requires IsRun(log, plans) && k <= |plans|
  {
    FailuresBelow(log, plans, k, i + 1) - FailuresBelow(log, plans, k, i)
  }

  ghost function Cuts(log: seq<Message>, plans: seq<Plan>, k: nat): nat
    requires IsRun(log, plans) && k <= |plans|
  {
    if k == 0 then 0
    else
      assert PlanOk(log, Position(plans, k - 1), plans[k - 1]);
      Cuts(log, plans, k - 1) + if CutShort(log, plans, k - 1) then 1 else 0
  }

  ghost function Sum(budget: seq<nat>, n: nat): nat
    requires n <= |budget|
  {
    if n == 0 then 0 else Sum(budget, n - 1) + budget[n - 1]
  }

  lemma {:induction false} FailuresWithinBudget(log: seq<Message>, plans: seq<Plan>, k: nat, budget: seq<nat>, n: nat)
    requires IsRun(log, plans) && k <= |plans| && n <= |budget| == |log|
    requires forall i :: 0 <= i < |log| ==> FailuresAt(log, plans, k, i) <= budget[i]
    ensures FailuresBelow(log, plans, k, n) <= Sum(budget, n)
  {
    if n == 0 {
      NoFailuresBelowZero(log, plans, k);
    } else {
      FailuresWithinBudget(log, plans, k, budget, n - 1);
      assert FailuresAt(log, plans, k, n - 1) <= budget[n - 1];
    }
  }

  lemma {:induction false} NoFailuresBelowZero(log: seq<Message>, plans: seq<Plan>, k: nat)
    requires IsRun(log, plans) && k <= |plans|
    ensures FailuresBelow(log, plans, k, 0) == 0
  {
    if k > 0 {
      NoFailuresBelowZero(log, plans, k - 1);
    }
  }

  /** Every session fails, is cut short, or leaves the whole log committed; and it stays committed. */
  lemma {:induction false} EverySessionCounts(log: seq<Message>, plans: seq<Plan>, k: nat)
    requires IsRun(log, plans) && k <= |plans|
    ensures Position(plans, k) <= |log|
    ensures Position(plans, k) == |log| || k <= FailuresBelow(log, plans, k, |log|) + Cuts(log, plans, k)
  {
    if k > 0 {
      EverySessionCounts(log, plans, k - 1);
      var p, from := plans[k - 1], Position(plans, k - 1);
      assert PlanOk(log, from, p);
      MarkLaw(log, p.answers, from, p.stop);
    }
  }

  /** Conditional progress: if message i fails transiently at most budget[i] times and at most `cuts` sessions are
      cut short, then after more sessions than that in all, the whole log is committed. */
  lemma {:induction false} ConditionalProgress(log: seq<Message>, plans: seq<Plan>, k: nat, budget: seq<nat>, cuts: nat)
    requires IsRun(log, plans) && k <= |plans| && |budget| == |log|
    requires forall i :: 0 <= i < |log| ==> FailuresAt(log, plans, k, i) <= budget[i]
    requires Cuts(log, plans, k) <= cuts && k > Sum(budget, |log|) + cuts
    ensures Position(plans, k) == |log|
  {
    FailuresWithinBudget(log, plans, k, budget, |log|);
    EverySessionCounts(log, plans, k);
  }
}
