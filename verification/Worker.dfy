/** One message handled: the worker's handler between the claim loop and the order processor, and what handling
    events over and over means for the tables (internal/app/kafka_orders.go, internal/service/orders). */
module Worker {
  import opened Basics
  import Text
  import opened DeliveryTables
  import opened Orders
  import C = ClaimLoop

  /** The event a message stands for; both fields arrive trimmed. */
  function EventOf(m: C.Message): Event
    requires m.Payload?
  {
    Event(Text.TrimSpace(m.orderId), Text.TrimSpace(m.status))
  }

  /** What the claim loop is told. The worker's handler wraps none of its errors as permanent. */
  function Report(r: Result<()>): C.HandlerResult {
    if r.Ok? then C.Handled else C.TransientFailure
  }

  /** One attempt at a message with the tables as they are, and its fate in the claim loop. */
  ghost function Process(t: Tables, m: C.Message, l: Lookup, a: Handling): (Tables, C.Fate)
    requires WellFormed(t)
  {
    if m.BadJson? || EventOf(m).orderId == "" then (t, C.FateOf(m, C.Handled))
    else
      var (u, r) := WorkerOutcome(t, EventOf(m), l, a);
      (u, C.FateOf(m, Report(r)))
  }

  /** A message that is to be retried has changed nothing yet, and no message is ever skipped. A failed lookup
      means a retry; an order that the orders service does not know is done with. */
  lemma {:induction false} RetriedMeansUnchanged(t: Tables, m: C.Message, l: Lookup, a: Handling)
    requires WellFormed(t)
    ensures WellFormed(Process(t, m, l, a).0)
    ensures Process(t, m, l, a).1 == C.WillRetry ==> Process(t, m, l, a).0 == t
    ensures Process(t, m, l, a).1 != C.Skipped
    ensures m.Payload? && Text.TrimSpace(m.orderId) != "" && l.Failed? ==> Process(t, m, l, a).1 == C.WillRetry
    ensures m.Payload? && Text.TrimSpace(m.orderId) != "" && l.Missing? ==> Process(t, m, l, a) == (t, C.Done)
  {
    if m.Payload? && EventOf(m).orderId != "" {
      match l
      case NoGateway => OutcomeWellFormed(t, EventOf(m), a);
      case Found(status) => OutcomeWellFormed(t, EventOf(m).(status := status), a);
      case _ =>
    }
  }

  /** Unparsable messages and those without an order touch nothing; and the two text fields count as trimmed. */
  lemma ProcessLaw(t: Tables, m: C.Message, l: Lookup, h: Handling)
    requires WellFormed(t)
    ensures m.BadJson? ==> Process(t, m, l, h) == (t, C.NotJson)
    ensures m.Payload? && Text.TrimSpace(m.orderId) == "" ==> Process(t, m, l, h) == (t, C.BlankOrder)
    ensures m.Payload? ==>
              var trimmed := C.Payload(Text.TrimSpace(m.orderId), Text.TrimSpace(m.status));
              Process(t, trimmed, l, h) == Process(t, m, l, h)
  {
    if m.Payload? {
      var lead, trail := Text.TrimSpaceLaw(m.orderId);
      lead, trail := Text.TrimSpaceLaw(m.status);
      hide Text.TrimSpace, WorkerOutcome;
    }
  }

  /** The orders service has the last word: with a status found there, the event is handled as if it carried that
      status, and its own makes no difference. */
  lemma FoundStatusDecides(t: Tables, order: string, own: string, found: string, h: Handling)
    requires WellFormed(t)
    ensures WorkerOutcome(t, Event(order, own), Found(found), h) == WorkerOutcome(t, Event(order, found), NoGateway, h)
  {
    hide Outcome;
  }

  /** A redelivered creation whose order already has its row blocks its partition exactly while
      some courier is available: it is to be retried then, and passes as a conflict otherwise. */
  lemma RedeliveredCreationBlocksIff(t: Tables, m: C.Message, l: Lookup, a: Handling)
    requires WellFormed(t) && a.fault == NoFault && m.Payload?
    requires EventOf(m).orderId != "" && EventOf(m).orderId in t.deliveries
    requires if l.Found? then ActionFor(l.status) == Some(OnCreated)
             else l.NoGateway? && ActionFor(EventOf(m).status) == Some(OnCreated)
    ensures Process(t, m, l, a).1 == C.WillRetry <==> SomeAvailable(t)
    ensures Process(t, m, l, a).0 == t
  {
    var lead, trail := Text.TrimSpaceLaw(m.orderId);
    RepeatedCreationFailsIff(t, if l.Found? then EventOf(m).(status := l.status) else EventOf(m), a);
  }

  // ---------- a list of events, each handled any number of times before the next

  /** The tables after each event in turn has been through its own run of attempts. */
  ghost function AfterAll(t: Tables, events: seq<Event>, attempts: seq<seq<Handling>>, n: nat): (u: Tables)
    requires WellFormed(t) && n <= |events| == |attempts|
    ensures WellFormed(u)
  {
    if n == 0 then t else After(AfterAll(t, events, attempts, n - 1), events[n - 1], attempts[n - 1])
  }

  /** The tables after each event has been handled once, without a fault. */
  ghost function AfterOnce(t: Tables, events: seq<Event>, picks: seq<Handling>, n: nat): (u: Tables)
    requires WellFormed(t) && n <= |events| && n <= |picks|
    ensures WellFormed(u)
  {
    if n == 0 then t
    else
      var before, a := AfterOnce(t, events, picks, n - 1), picks[n - 1].(fault := NoFault);
      OutcomeWellFormed(before, events[n - 1], a);
      Outcome(before, events[n - 1], a).0
  }

  lemma UnchangedOutcome(t: Tables, e: Event, attempts: seq<Handling>, a: Handling)
    requires WellFormed(t) && After(t, e, attempts) == t && a in attempts && a.fault == NoFault
    ensures Outcome(t, e, a).0 == t
  {
    hide Outcome;
    AtMostOneEffect(t, e, attempts);
  }

  lemma {:induction false} AfterOnceIsStable(
    t: Tables, events: seq<Event>, picks: seq<Handling>, more: seq<Handling>, n: nat)
    requires WellFormed(t) && n <= |events| && n <= |picks|
    ensures AfterOnce(t, events, picks, n) == AfterOnce(t, events, picks + more, n)
  {
    if n > 0 {
      AfterOnceIsStable(t, events, picks, more, n - 1);
    }
  }

  /** Some attempt met no fault. */
  ghost predicate SomeClean(attempts: seq<Handling>) {
    exists a :: a in attempts && a.fault == NoFault
  }

  /** Events handled one after another, each any number of times in a row and at least once without a fault, leave the
      tables as one clean pass would, with each event's instant and sequence number taken from one of its own
      attempts. That the claim loop keeps to such an order is shown in `WorkerRuns`. */
  lemma {:induction false} OneCleanPass(t: Tables, events: seq<Event>, attempts: seq<seq<Handling>>, n: nat)
      returns (picks: seq<Handling>)
    requires WellFormed(t) && n <= |events| == |attempts|
    requires forall i :: 0 <= i < n ==> SomeClean(attempts[i])
    ensures |picks| == n && forall i :: 0 <= i < n ==> picks[i] in attempts[i]
    ensures AfterAll(t, events, attempts, n) == AfterOnce(t, events, picks, n)
  {
    hide Outcome, Settled;
    if n == 0 {
      picks := [];
    } else {
      var init := OneCleanPass(t, events, attempts, n - 1);
      var before, e := AfterAll(t, events, attempts, n - 1), events[n - 1];
      AtMostOneEffect(before, e, attempts[n - 1]);
      var u := After(before, e, attempts[n - 1]);
      var clean :| clean in attempts[n - 1] && clean.fault == NoFault;
      var a := clean;
      if u != before {
        a :| a in attempts[n - 1] && u == Outcome(before, e, a.(fault := NoFault)).0;
      } else {
        UnchangedOutcome(before, e, attempts[n - 1], clean);
        assert clean.(fault := NoFault) == clean;
      }
      picks := init + [a];
      AfterOnceIsStable(t, events, init, [a], n - 1);
    }
  }
}
