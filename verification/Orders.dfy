/** What an order event does to the tables (internal/service/orders), and what handling it again does. */
module Orders {
  import opened Basics
  import opened Text
  import opened DeliveryTables
  import DeliveryLaws
  import opened DeliveryService

  datatype Event = Event(orderId: string, status: string)

  datatype Action = OnCreated | OnCanceled | OnCompleted

  const BY_STATUS: map<string, Action> :=
    map["created" := OnCreated, "canceled" := OnCanceled, "deleted" := OnCanceled, "completed" := OnCompleted]

  /** The handler for a status, looked up without regard to case and surrounding space. */
  function ActionFor(status: string): Option<Action> {
    var s := Lower(TrimSpace(status));
    if s in BY_STATUS then Some(BY_STATUS[s]) else None
  }

  /** Dispatch: only the four words count, in any letter case and with any white space around them. */
  lemma {:induction false} DispatchLaw(lead: string, word: string, trail: string)
    requires AllSpace(lead) && AllSpace(trail) && Trimmed(word)
    ensures var w, action := Lower(word), ActionFor(lead + word + trail);
            && (action == Some(OnCreated) <==> w == "created")
            && (action == Some(OnCanceled) <==> w == "canceled" || w == "deleted")
            && (action == Some(OnCompleted) <==> w == "completed")
            && (action == None <==> w !in {"created", "canceled", "deleted", "completed"})
  {
    hide TrimSpace, Lower, AllSpace, Trimmed;
    TrimSpaceAbsorbs(lead, word, trail);
    WordsDiffer();
  }

  lemma WordsDiffer()
    ensures "created" != "canceled" && "created" != "deleted" && "created" != "completed"
    ensures "canceled" != "deleted" && "canceled" != "completed" && "deleted" != "completed"
  {
    assert "canceled"[1] == 'a' && "created"[1] == 'r' && "completed"[1] == 'o' && "deleted"[0] == 'd';
  }

  /** One handling of an event: the sequence number, the instant and the fault it happens to meet. */
  datatype Handling = Handling(id: nat, now: int, fault: Fault)

  /** A conflict on creation and a missing order on cancellation count as handled. */
  ghost function Outcome(t: Tables, e: Event, a: Handling): (Tables, Result<()>)
    requires WellFormed(t)
  {
    match ActionFor(e.status)
    case None => (t, Ok(()))
    case Some(OnCreated) =>
      var (u, r) := AssignOutcome(t, e.orderId, a.id, a.now, a.fault);
      (u, if r.Ok? || r.error == Conflict then Ok(()) else Err(r.error))
    case Some(OnCanceled) =>
      var (u, r) := UnassignOutcome(t, e.orderId, a.fault);
      (u, if r.Ok? || r.error == NotFound then Ok(()) else Err(r.error))
    case Some(OnCompleted) => CompleteOutcome(t, e.orderId, a.fault)
  }

  class Processor {
    const delivery: Service
    const repo: DeliveryRepo

    constructor (delivery: Service)
      ensures this.delivery == delivery && repo == delivery.repo
    {
      this.delivery, this.repo := delivery, delivery.repo;
    }

    method Handle(e: Event, now: int, fault: Fault) returns (r: Result<()>)
      requires delivery.repo == repo && WellFormed(repo.Contents())
      modifies repo
      ensures (repo.Contents(), r) == Outcome(old(repo.Contents()), e, Handling(old(repo.nextId), now, fault))
    {
      var action := ActionFor(e.status);
      match action
      case None => return Ok(());
      case Some(OnCreated) => r := Created(e, now, fault);
      case Some(OnCanceled) => r := Canceled(e, fault);
      case Some(OnCompleted) => r := Completed(e, fault);
    }

    method Created(e: Event, now: int, fault: Fault) returns (r: Result<()>)
      requires delivery.repo == repo && WellFormed(repo.Contents()) && ActionFor(e.status) == Some(OnCreated)
      modifies repo
      ensures (repo.Contents(), r) == Outcome(old(repo.Contents()), e, Handling(old(repo.nextId), now, fault))
    {
      var a := delivery.Assign(e.orderId, now, fault);
      r := if a.Ok? || a.error == Conflict then Ok(()) else Err(a.error);
    }

    method Canceled(e: Event, fault: Fault) returns (r: Result<()>)
      requires delivery.repo == repo && WellFormed(repo.Contents()) && ActionFor(e.status) == Some(OnCanceled)
      modifies repo
      ensures forall a: Handling :: a.fault == fault ==> (repo.Contents(), r) == Outcome(old(repo.Contents()), e, a)
    {
      var u := delivery.Unassign(e.orderId, fault);
      r := if u.Ok? || u.error == NotFound then Ok(()) else Err(u.error);
    }

    method Completed(e: Event, fault: Fault) returns (r: Result<()>)
      requires WellFormed(repo.Contents())
      modifies repo
      ensures (repo.Contents(), r) == CompleteOutcome(old(repo.Contents()), e.orderId, fault)
    {
      var saved := repo.Begin(fault);
      if saved.Err? {
        return Err(saved.error);
      }
      r := CompletedInTx(e, fault);
      r := repo.Finish(saved.value, r, fault);
    }

    method CompletedInTx(e: Event, fault: Fault) returns (r: Result<()>)
      requires WellFormed(repo.Contents()) && fault != AtBegin
      modifies repo`couriers
      ensures r == if fault == AtCommit then Ok(()) else CompleteOutcome(old(repo.Contents()), e.orderId, fault).1
      ensures r.Ok? ==> repo.Contents() == CompleteOutcome(old(repo.Contents()), e.orderId, NoFault).0
    {
      var d := repo.GetByOrderID(e.orderId, fault);
      if d.Err? {
        return Err(d.error);
      }
      if d.value.None? {
        return Ok(());
      }
      r := repo.UpdateCourierStatus(d.value.value.courierId, Available, fault);
    }
  }

  // ---------- what each kind of event does

  /** Created: the pick is booked for the order and becomes busy. Nobody available counts as handled; a blank order,
      one that has a row or is too long, and a pick without a known transport are errors. */
  lemma CreatedEventBooks(t: Tables, e: Event, h: Handling)
    requires WellFormed(t) && ActionFor(e.status) == Some(OnCreated) && h.fault == NoFault
    ensures var (u, r) := Outcome(t, e, h);
            var order := TrimSpace(e.orderId);
            if order == "" then (u, r) == (t, Err(Invalid))
            else match Pick(t)
              case None => (u, r) == (t, Ok(()))
              case Some(c) =>
                var transport := t.couriers[c].transport;
                if transport.Unknown? then (u, r) == (t, Err(UnknownTransport))
                else if order in t.deliveries || |order| > 255 then (u, r) == (t, Err(InsertRejected))
                else
                  && r == Ok(())
                  && u.deliveries ==
                     t.deliveries[order := Delivery(h.id, c, order, h.now, Deadline(transport, h.now).value)]
                  && u.couriers == t.couriers[c := Courier(Busy, transport)]
  {
    hide TrimSpace, ActionFor;
  }

  /** Canceled: the order's row goes and its courier becomes available, whatever it was doing. An order without a row
      counts as handled; a blank one is an error. */
  lemma CanceledEventRemoves(t: Tables, e: Event, h: Handling)
    requires WellFormed(t) && ActionFor(e.status) == Some(OnCanceled) && h.fault == NoFault
    ensures var (u, r) := Outcome(t, e, h);
            var order := TrimSpace(e.orderId);
            if order == "" then (u, r) == (t, Err(Invalid))
            else if order !in t.deliveries then (u, r) == (t, Ok(()))
            else
              var c := t.deliveries[order].courierId;
              && r == Ok(()) && u.deliveries == t.deliveries - {order}
              && u.couriers == t.couriers[c := Courier(Available, t.couriers[c].transport)]
  {
    hide TrimSpace, ActionFor;
  }

  /** Completed: the courier named by the order's row becomes available, and nothing else changes. */
  lemma CompletedEventFrees(t: Tables, e: Event, h: Handling)
    requires WellFormed(t) && ActionFor(e.status) == Some(OnCompleted) && h.fault == NoFault
    ensures var (u, r) := Outcome(t, e, h);
            && r == Ok(()) && u.deliveries == t.deliveries
            && u.couriers == if e.orderId in t.deliveries
                             then var c := t.deliveries[e.orderId].courierId;
                                  t.couriers[c := Courier(Available, t.couriers[c].transport)]
                             else t.couriers
  {
    hide TrimSpace, ActionFor;
  }

  /** Any other event is let pass; and a database fault can only turn an outcome into an error that changes nothing. */
  lemma OtherEventsAndFaults(t: Tables, e: Event, h: Handling)
    requires WellFormed(t)
    ensures ActionFor(e.status) == None ==> Outcome(t, e, h) == (t, Ok(()))
    ensures var clean := Outcome(t, e, h.(fault := NoFault));
            Outcome(t, e, h) == clean || Outcome(t, e, h) == (t, Err(Database))
  {
    DeliveryLaws.FaultsRollBack(t, e.orderId, h.id, h.now, h.fault);
    hide TrimSpace, ActionFor, AssignOutcome, UnassignOutcome, CompleteOutcome;
  }

  // ---------- handling an event more than once

  /** No further attempt at the event changes the tables. */
  ghost predicate Settled(t: Tables, e: Event)
    requires WellFormed(t)
  {
    forall a: Handling :: Outcome(t, e, a).0 == t
  }

  lemma OutcomeWellFormed(t: Tables, e: Event, a: Handling)
    requires WellFormed(t)
    ensures WellFormed(Outcome(t, e, a).0)
    ensures Outcome(t, e, a).1.Err? ==> Outcome(t, e, a).0 == t
  {
  }

  /** Once an attempt has had its effect, the event is settled; that effect does not depend on earlier failures. */
  lemma {:induction false} EffectSettles(t: Tables, e: Event, a: Handling)
    requires WellFormed(t) && Outcome(t, e, a).0 != t
    ensures var u := Outcome(t, e, a).0;
            WellFormed(u) && Settled(u, e) && u == Outcome(t, e, a.(fault := NoFault)).0
  {
    OutcomeWellFormed(t, e, a);
    if ActionFor(e.status) == Some(OnCompleted) {
      CompletionSettles(t, e, a);
    } else if ActionFor(e.status) == Some(OnCreated) {
      CreationSettles(t, e, a);
    }
  }

  lemma CreationSettles(t: Tables, e: Event, a: Handling)
    requires WellFormed(t) && AssignOutcome(t, e.orderId, a.id, a.now, a.fault).1.Ok?
    ensures var u := AssignOutcome(t, e.orderId, a.id, a.now, a.fault).0;
            u == AssignOutcome(t, e.orderId, a.id, a.now, NoFault).0 &&
            forall b: Handling :: AssignOutcome(u, e.orderId, b.id, b.now, b.fault).0 == u
  {
  }

  lemma CompletionSettles(t: Tables, e: Event, a: Handling)
    requires WellFormed(t) && CompleteOutcome(t, e.orderId, a.fault).0 != t
    ensures var u := CompleteOutcome(t, e.orderId, a.fault).0;
            WellFormed(u) && u == CompleteOutcome(t, e.orderId, NoFault).0 &&
            forall fault :: CompleteOutcome(u, e.orderId, fault).0 == u
  {
    var u, c := CompleteOutcome(t, e.orderId, a.fault).0, t.deliveries[e.orderId].courierId;
    assert u.couriers[c := u.couriers[c].(status := Available)] == u.couriers;
  }

  /** Immediate redelivery is harmless: once an event has been handled without a database fault - whether that
      changed the tables, found nothing to do, or ended in an error - handling it again leaves them alone. */
  lemma {:induction false} RedeliveryIsHarmless(t: Tables, e: Event, a: Handling)
    requires WellFormed(t) && a.fault == NoFault
    ensures var u := Outcome(t, e, a).0; WellFormed(u) && Settled(u, e)
  {
    OutcomeWellFormed(t, e, a);
    if Outcome(t, e, a).0 != t {
      EffectSettles(t, e, a);
    }
  }

  /** The tables after a run of attempts at one event. */
  ghost function After(t: Tables, e: Event, attempts: seq<Handling>): (u: Tables)
    requires WellFormed(t)
    ensures WellFormed(u)
  {
    if attempts == [] then t
    else
      var before := After(t, e, attempts[..|attempts| - 1]);
      OutcomeWellFormed(before, e, attempts[|attempts| - 1]);
      Outcome(before, e, attempts[|attempts| - 1]).0
  }

  /** However often an event is handled, and wherever each attempt breaks off, the tables end up untouched or
      exactly as one clean handling leaves them; and the latter for certain if any attempt met no fault. */
  lemma {:induction false} AtMostOneEffect(t: Tables, e: Event, attempts: seq<Handling>)
    requires WellFormed(t)
    ensures var u := After(t, e, attempts);
            u == t || (Settled(u, e) && exists a :: a in attempts && u == Outcome(t, e, a.(fault := NoFault)).0)
    ensures (exists a :: a in attempts && a.fault == NoFault) ==> Settled(After(t, e, attempts), e)
  {
    if attempts != [] {
      var init, last := attempts[..|attempts| - 1], attempts[|attempts| - 1];
      AtMostOneEffect(t, e, init);
      var before := After(t, e, init);
      if last.fault == NoFault {
        RedeliveryIsHarmless(before, e, last);
      }
      if before == t {
        if Outcome(t, e, last).0 != t {
          EffectSettles(t, e, last);
          assert last in attempts;
        }
      } else {
        var a :| a in init && before == Outcome(t, e, a.(fault := NoFault)).0;
        assert a in attempts;
      }
    }
  }

  /** A "created" event for an order that already has its row is refused - with an error nobody treats as
      handled - exactly while some courier is available. */
  lemma RepeatedCreationFailsIff(t: Tables, e: Event, a: Handling)
    requires WellFormed(t) && a.fault == NoFault
    requires ActionFor(e.status) == Some(OnCreated)
    requires TrimSpace(e.orderId) in t.deliveries && TrimSpace(e.orderId) != ""
    ensures Outcome(t, e, a).1.Err? <==> SomeAvailable(t)
    ensures Outcome(t, e, a).0 == t
  {
  }

  // ---------- the event as the worker sees it

  /** What the orders service says about the event's order. */
  datatype Lookup = NoGateway | Failed | Missing | Found(status: string)

  /** The worker's handler: the orders service has the last word on the status. */
  ghost function WorkerOutcome(t: Tables, e: Event, l: Lookup, a: Handling): (Tables, Result<()>)
    requires WellFormed(t)
  {
    match l
    case NoGateway => Outcome(t, e, a)
    case Failed => (t, Err(Database))
    case Missing => (t, Ok(()))
    case Found(status) => Outcome(t, e.(status := status), a)
  }
}
