/** The store and the delivery service as they run: statements that change the tables one at a time,
    inside a transaction that is committed or rolled back
    (internal/repository/delivery.go, internal/service/delivery/usecase.go). */
module DeliveryService {
  import opened Basics
  import opened Text
  import opened DeliveryTables

  class DeliveryRepo {
    var couriers: map<int, Courier>
    var deliveries: map<string, Delivery>
    var nextId: nat   // the serial sequence; it is never rolled back

    ghost function Contents(): Tables
      reads this
    {
      Tables(couriers, deliveries)
    }

    constructor (couriers: map<int, Courier>)
      ensures Contents() == Tables(couriers, map[]) && WellFormed(Contents())
    {
      this.couriers, deliveries, nextId := couriers, map[], 1;
    }

    // ---------- transactions

    method Begin(fault: Fault) returns (saved: Result<Tables>)
      ensures saved == if fault == AtBegin then Err(Database) else Ok(Contents())
    {
      if fault == AtBegin {
        return Err(Database);
      }
      return Ok(Tables(couriers, deliveries));
    }

    /** Commits when the body succeeded; rolls back when it, or the commit, failed. */
    method Finish<T>(saved: Tables, body: Result<T>, fault: Fault) returns (r: Result<T>)
      modifies this
      ensures r == if body.Ok? && fault == AtCommit then Err(Database) else body
      ensures Contents() == if r.Ok? then old(Contents()) else saved
      ensures nextId == old(nextId)
    {
      r := if body.Ok? && fault == AtCommit then Err(Database) else body;
      if r.Err? {
        couriers, deliveries := saved.couriers, saved.deliveries;
      }
    }

    // ---------- statements

    method FindAvailableCourierForUpdate(fault: Fault) returns (r: Result<Option<int>>)
      ensures r == if fault == AtFind then Err(Database) else Ok(Pick(Contents()))
    {
      if fault == AtFind {
        return Err(Database);
      }
      var t := Tables(couriers, deliveries);
      if exists c :: c in couriers && IsAvailable(t, c) {
        PickExists(t);
        var c :| c in couriers && IsPick(t, c);
        return Ok(Some(c));
      }
      return Ok(None);
    }

    method UpdateCourierStatus(id: int, status: Status, fault: Fault) returns (r: Result<()>)
      modifies this`couriers
      ensures r == if fault == AtUpdate || id !in old(couriers) then Err(Database) else Ok(())
      ensures Contents() == if r.Ok? then WithStatus(old(Contents()), id, status) else old(Contents())
    {
      if fault == AtUpdate || id !in couriers {
        return Err(Database);
      }
      couriers := couriers[id := couriers[id].(status := status)];
      return Ok(());
    }

    /** The sequence number is drawn before the constraints are checked. */
    method InsertDelivery(courierId: int, orderId: string, assignedAt: int, deadline: int, fault: Fault)
      returns (r: Result<nat>)
      modifies this`deliveries, this`nextId
      ensures nextId == old(nextId) + 1
      ensures r == if fault == AtInsert then Err(Database)
                   else if orderId in old(deliveries) || |orderId| > MAX_ORDER_ID || courierId !in couriers
                   then Err(InsertRejected) else Ok(old(nextId))
      ensures deliveries == if r.Ok?
                            then old(deliveries)[
                              orderId := Delivery(old(nextId), courierId, orderId, assignedAt, deadline)]
                            else old(deliveries)
    {
      var id := nextId;
      nextId := nextId + 1;
      if fault == AtInsert {
        return Err(Database);
      }
      if orderId in deliveries || |orderId| > MAX_ORDER_ID || courierId !in couriers {
        return Err(InsertRejected);
      }
      deliveries := deliveries[orderId := Delivery(id, courierId, orderId, assignedAt, deadline)];
      return Ok(id);
    }

    method GetByOrderID(orderId: string, fault: Fault) returns (r: Result<Option<Delivery>>)
      ensures r == if fault == AtGet then Err(Database)
                   else Ok(if orderId in deliveries then Some(deliveries[orderId]) else None)
    {
      if fault == AtGet {
        return Err(Database);
      }
      return Ok(if orderId in deliveries then Some(deliveries[orderId]) else None);
    }

    method DeleteByOrderID(orderId: string, fault: Fault) returns (r: Result<()>)
      modifies this`deliveries
      ensures r == if fault == AtDelete || orderId !in old(deliveries) then Err(Database) else Ok(())
      ensures deliveries == if r.Ok? then old(deliveries) - {orderId} else old(deliveries)
    {
      if fault == AtDelete || orderId !in deliveries {
        return Err(Database);
      }
      deliveries := deliveries - {orderId};
      return Ok(());
    }

    method ReleaseCouriers(now: int, fault: Fault) returns (r: Result<nat>)
      modifies this`couriers
      ensures (Contents(), r) == ReleaseOutcome(old(Contents()), now, fault)
    {
      if fault == AtUpdate {
        return Err(Database);
      }
      hide HasExpired, Freed, MadeAvailable;
      ghost var t := Contents();
      var todo, count := couriers.Keys, 0;
      NothingReleased(t, now);
      while exists c :: c in todo
        invariant todo <= t.couriers.Keys && deliveries == t.deliveries
        invariant (couriers, count) == ReleasedBut(t, now, todo)
        decreases todo
      {
        var c :| c in todo;
        OneMoreReleased(t, now, todo, c);
        todo := todo - {c};
        if couriers[c].status == Busy && HasExpired(deliveries, c, now) {
          couriers, count := couriers[c := couriers[c].(status := Available)], count + 1;
        }
      }
      AllReleased(t, now, todo);
      return Ok(count);
    }
  }

  /** The couriers and the count when a release has dealt with all but those in `todo`. */
  ghost function ReleasedBut(t: Tables, now: int, todo: set<int>): (map<int, Courier>, nat) {
    var done := Freed(t, now) - todo;
    (MadeAvailable(t.couriers, done), |done|)
  }

  lemma NothingReleased(t: Tables, now: int)
    ensures ReleasedBut(t, now, t.couriers.Keys) == (t.couriers, 0)
  {
    assert Freed(t, now) - t.couriers.Keys == {};
    assert MadeAvailable(t.couriers, {}) == t.couriers;
  }

  lemma OneMoreReleased(t: Tables, now: int, todo: set<int>, c: int)
    requires c in todo && todo <= t.couriers.Keys
    ensures var (couriers, count) := ReleasedBut(t, now, todo);
            c in couriers &&
            ReleasedBut(t, now, todo - {c}) ==
              if couriers[c].status == Busy && HasExpired(t.deliveries, c, now)
              then (couriers[c := couriers[c].(status := Available)], count + 1) else (couriers, count)
  {
    var freed, couriers := Freed(t, now), ReleasedBut(t, now, todo).0;
    if c in freed {
      assert freed - (todo - {c}) == freed - todo + {c};
      assert couriers[c := couriers[c].(status := Available)] == ReleasedBut(t, now, todo - {c}).0;
    } else {
      assert freed - (todo - {c}) == freed - todo;
    }
  }

  lemma AllReleased(t: Tables, now: int, todo: set<int>)
    requires !exists c :: c in todo
    ensures ReleasedBut(t, now, todo) == (Released(t, now).couriers, |Freed(t, now)|)
  {
    assert Freed(t, now) - todo == Freed(t, now);
  }

  method ValidateOrderID(raw: string) returns (r: Result<string>)
    ensures r == if TrimSpace(raw) == "" then Err(Invalid) else Ok(TrimSpace(raw))
    ensures r.Ok? ==> Trimmed(r.value) && TrimSpace(r.value) == r.value
  {
    var order := TrimSpace(raw);
    ghost var lead, trail := TrimSpaceLaw(raw);
    if order == "" {
      return Err(Invalid);
    }
    return Ok(order);
  }

  class Service {
    const repo: DeliveryRepo

    constructor (repo: DeliveryRepo)
      ensures this.repo == repo
    {
      this.repo := repo;
    }

    method Assign(raw: string, now: int, fault: Fault) returns (r: Result<Assignment>)
      requires WellFormed(repo.Contents())
      modifies repo
      ensures (repo.Contents(), r) == AssignOutcome(old(repo.Contents()), raw, old(repo.nextId), now, fault)
      ensures repo.nextId == old(repo.nextId) + 1 || (r.Err? && repo.nextId == old(repo.nextId))
      ensures r.Err? ==> repo.Contents() == old(repo.Contents())
    {
      var order := ValidateOrderID(raw);
      if order.Err? {
        return Err(order.error);
      }
      var saved := repo.Begin(fault);
      if saved.Err? {
        return Err(saved.error);
      }
      r := AssignInTx(order.value, now, fault);
      r := repo.Finish(saved.value, r, fault);
    }

    /** The body of the transaction; when it fails it may leave its changes for the rollback. */
    method AssignInTx(order: string, now: int, fault: Fault) returns (r: Result<Assignment>)
      requires WellFormed(repo.Contents()) && TrimSpace(order) == order != "" && fault != AtBegin
      modifies repo
      ensures r == if fault == AtCommit
                   then AssignOutcome(old(repo.Contents()), order, old(repo.nextId), now, NoFault).1
                   else AssignOutcome(old(repo.Contents()), order, old(repo.nextId), now, fault).1
      ensures r.Ok? ==> repo.Contents() == AssignOutcome(old(repo.Contents()), order, old(repo.nextId), now, NoFault).0
      ensures repo.nextId == old(repo.nextId) + 1 || (r.Err? && repo.nextId == old(repo.nextId))
    {
      var found := repo.FindAvailableCourierForUpdate(fault);
      if found.Err? {
        return Err(found.error);
      }
      if found.value.None? {
        return Err(Conflict);
      }
      var c := found.value.value;
      var transport := repo.couriers[c].transport;
      var deadline := Deadline(transport, now);
      if deadline.Err? {
        return Err(deadline.error);
      }
      var inserted := repo.InsertDelivery(c, order, now, deadline.value, fault);
      if inserted.Err? {
        return Err(inserted.error);
      }
      var updated := repo.UpdateCourierStatus(c, Busy, fault);
      if updated.Err? {
        return Err(updated.error);
      }
      return Ok(Assignment(c, order, transport, deadline.value));
    }

    method Unassign(raw: string, fault: Fault) returns (r: Result<Unassignment>)
      requires WellFormed(repo.Contents())
      modifies repo
      ensures (repo.Contents(), r) == UnassignOutcome(old(repo.Contents()), raw, fault)
      ensures repo.nextId == old(repo.nextId)
      ensures r.Err? ==> repo.Contents() == old(repo.Contents())
    {
      var order := ValidateOrderID(raw);
      if order.Err? {
        return Err(order.error);
      }
      var saved := repo.Begin(fault);
      if saved.Err? {
        return Err(saved.error);
      }
      r := UnassignInTx(order.value, fault);
      r := repo.Finish(saved.value, r, fault);
    }

    method UnassignInTx(order: string, fault: Fault) returns (r: Result<Unassignment>)
      requires WellFormed(repo.Contents()) && TrimSpace(order) == order != "" && fault != AtBegin
      modifies repo
      ensures r == if fault == AtCommit then UnassignOutcome(old(repo.Contents()), order, NoFault).1
                   else UnassignOutcome(old(repo.Contents()), order, fault).1
      ensures r.Ok? ==> repo.Contents() == UnassignOutcome(old(repo.Contents()), order, NoFault).0
      ensures repo.nextId == old(repo.nextId)
    {
      var d := repo.GetByOrderID(order, fault);
      if d.Err? {
        return Err(d.error);
      }
      if d.value.None? {
        return Err(NotFound);
      }
      var deleted := repo.DeleteByOrderID(order, fault);
      if deleted.Err? {
        return Err(deleted.error);
      }
      var updated := repo.UpdateCourierStatus(d.value.value.courierId, Available, fault);
      if updated.Err? {
        return Err(updated.error);
      }
      return Ok(Unassignment(d.value.value.courierId, order));
    }

    method ReleaseExpired(now: int, fault: Fault) returns (r: Result<()>)
      modifies repo
      ensures repo.Contents() == ReleaseOutcome(old(repo.Contents()), now, fault).0
      ensures r.Ok? <==> ReleaseOutcome(old(repo.Contents()), now, fault).1.Ok?
      ensures repo.nextId == old(repo.nextId)
    {
      var n := repo.ReleaseCouriers(now, fault);
      r := if n.Ok? then Ok(()) else Err(n.error);
    }
  }
}
