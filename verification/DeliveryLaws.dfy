/** Laws of single delivery transactions: what one books, frees and undoes, and what repeating one changes. */
module DeliveryLaws {
  import Basics
  import Text
  import opened DeliveryTables

  // ---------- when a transaction succeeds, and with which error it fails

  /** How long each kind of courier has: 1800, 900 or 300 seconds of a thousand million nanoseconds. */
  lemma DeadlinesInSeconds(transport: Transport, now: int)
    ensures Deadline(OnFoot, now) == Ok(now + 1800 * 1_000_000_000)
    ensures Deadline(Scooter, now) == Ok(now + 900 * 1_000_000_000)
    ensures Deadline(Car, now) == Ok(now + 300 * 1_000_000_000)
    ensures transport !in {OnFoot, Scooter, Car} ==> Deadline(transport, now) == Err(UnknownTransport)
  {
  }

  /** The pick's transport is one with a deadline. */
  ghost predicate PickDelivers(t: Tables) {
    exists c :: IsPick(t, c) && t.couriers[c].transport in {OnFoot, Scooter, Car}
  }

  /** Assign succeeds exactly for an order that is not blank, is new and fits its column of 255 characters, while the
      pick has a known transport; otherwise each reason has its own error, and no table changes. */
  lemma AssignSucceedsIff(t: Tables, raw: string, id: nat, now: int)
    ensures var (u, r) := AssignOutcome(t, raw, id, now, NoFault);
            var order := Text.TrimSpace(raw);
            var insertable := order !in t.deliveries && |order| <= 255;
            && (r.Ok? <==> order != "" && PickDelivers(t) && insertable)
            && (r == Err(Invalid) <==> order == "")
            && (r == Err(Conflict) <==> order != "" && !SomeAvailable(t))
            && (r == Err(UnknownTransport) <==> order != "" && SomeAvailable(t) && !PickDelivers(t))
            && (r == Err(InsertRejected) <==> order != "" && PickDelivers(t) && !insertable)
            && (r.Err? ==> u == t)
  {
    hide Text.TrimSpace;
    if SomeAvailable(t) {
      PickExists(t);
      assert IsPick(t, Pick(t).value);
    }
  }

  /** Unassign succeeds exactly for an order that has a row, whatever its courier is doing. */
  lemma UnassignSucceedsIff(t: Tables, raw: string)
    requires WellFormed(t)
    ensures var (u, r) := UnassignOutcome(t, raw, NoFault);
            var order := Text.TrimSpace(raw);
            && (r.Ok? <==> order != "" && order in t.deliveries)
            && (order == "" ==> (u, r) == (t, Err(Invalid)))
            && (order != "" && order !in t.deliveries ==> (u, r) == (t, Err(NotFound)))
  {
  }

  /** Completion always succeeds: with a row its courier becomes available, whatever it was; the rows stay. */
  lemma CompletionFrees(t: Tables, order: string)
    requires WellFormed(t)
    ensures var (u, r) := CompleteOutcome(t, order, NoFault);
            && r == Ok(()) && u.deliveries == t.deliveries && u.couriers.Keys == t.couriers.Keys
            && forall c :: c in t.couriers ==>
                 u.couriers[c] == if order in t.deliveries && t.deliveries[order].courierId == c
                                  then Courier(Available, t.couriers[c].transport) else t.couriers[c]
  {
  }

  /** The statements of each transaction, by the faults that can stop them. */
  function Statements(kind: Kind): set<Fault> {
    match kind
    case OfAssign => {AtBegin, AtFind, AtInsert, AtUpdate, AtCommit}
    case OfUnassign => {AtBegin, AtGet, AtDelete, AtUpdate, AtCommit}
    case OfCompletion => {AtBegin, AtGet, AtUpdate, AtCommit}
    case OfRelease => {AtUpdate}
  }

  datatype Kind = OfAssign | OfUnassign | OfCompletion | OfRelease

  /** What a database fault makes of an outcome: nothing, or an error that leaves the tables alone. */
  ghost predicate Withstands<T>(t: Tables, clean: (Tables, Result<T>), faulty: (Tables, Result<T>), hit: bool) {
    (faulty == clean || faulty == (t, Err(Database))) && (!hit ==> faulty == clean)
  }

  /** A fault at a statement of the transaction turns success into an error that leaves the tables alone, and any
      other fault makes no difference. */
  lemma FaultsRollBack(t: Tables, raw: string, id: nat, now: int, fault: Fault)
    requires WellFormed(t)
    ensures Withstands(t, AssignOutcome(t, raw, id, now, NoFault), AssignOutcome(t, raw, id, now, fault),
                       fault in Statements(OfAssign))
    ensures Withstands(t, UnassignOutcome(t, raw, NoFault), UnassignOutcome(t, raw, fault),
                       fault in Statements(OfUnassign))
    ensures Withstands(t, CompleteOutcome(t, raw, NoFault), CompleteOutcome(t, raw, fault),
                       fault in Statements(OfCompletion))
    ensures Withstands(t, ReleaseOutcome(t, now, NoFault), ReleaseOutcome(t, now, fault),
                       fault in Statements(OfRelease))
    ensures AssignOutcome(t, raw, id, now, fault).1.Ok? ==> fault !in Statements(OfAssign)
    ensures UnassignOutcome(t, raw, fault).1.Ok? ==> fault !in Statements(OfUnassign)
    ensures ReleaseOutcome(t, now, fault).1.Ok? ==> fault !in Statements(OfRelease)
    ensures CompleteOutcome(t, raw, fault).1.Ok? && raw in t.deliveries ==> fault !in Statements(OfCompletion)
  {
    hide Text.TrimSpace, Booked, Unbooked, WithStatus, Released, Freed, Pick, Deadline;
  }

  // ---------- single transactions

  /** What a successful Assign books: the first courier in line, a fresh order, a deadline 5 to 30 minutes out. */
  lemma AssignBooks(t: Tables, raw: string, id: nat, now: int, fault: Fault)
    requires WellFormed(t) && AssignOutcome(t, raw, id, now, fault).1.Ok?
    ensures var (u, r) := AssignOutcome(t, raw, id, now, fault);
            var c, order := r.value.courierId, r.value.orderId;
            && IsPick(t, c) && order == Text.TrimSpace(raw) != "" && order !in t.deliveries
            && u.deliveries.Keys == t.deliveries.Keys + {order}
            && (forall o :: o in t.deliveries ==> u.deliveries[o] == t.deliveries[o])
            && r.value.transport == t.couriers[c].transport
            && u.deliveries[order] == Delivery(id, c, order, now, r.value.deadline)
            && now + 5 * Basics.MINUTE <= r.value.deadline <= now + 30 * Basics.MINUTE
            && u.couriers == t.couriers[c := t.couriers[c].(status := Busy)]
  {
  }

  /** What a successful Unassign undoes: the order's row goes, and the courier it named is available. */
  lemma UnassignFrees(t: Tables, raw: string, fault: Fault)
    requires WellFormed(t) && UnassignOutcome(t, raw, fault).1.Ok?
    ensures var (u, r) := UnassignOutcome(t, raw, fault);
            var c, order := r.value.courierId, r.value.orderId;
            && order == Text.TrimSpace(raw) && order in t.deliveries && t.deliveries[order].courierId == c
            && t.deliveries.Keys == u.deliveries.Keys + {order} && order !in u.deliveries
            && (forall o :: o in u.deliveries ==> u.deliveries[o] == t.deliveries[o])
            && u.couriers == t.couriers[c := t.couriers[c].(status := Available)]
  {
  }

  /** Assign then Unassign: it succeeds, names the same courier, and both tables are back to what they were. */
  lemma AssignThenUnassign(t: Tables, raw: string, id: nat, now: int, fault: Fault)
    requires WellFormed(t) && AssignOutcome(t, raw, id, now, fault).1.Ok?
    ensures var (u, r) := AssignOutcome(t, raw, id, now, fault);
            WellFormed(u) &&
            UnassignOutcome(u, raw, NoFault) == (t, Ok(Unassignment(r.value.courierId, r.value.orderId)))
  {
    var (u, r) := AssignOutcome(t, raw, id, now, fault);
    var c := r.value.courierId;
    assert u.deliveries - {r.value.orderId} == t.deliveries;
    assert u.couriers[c := u.couriers[c].(status := Available)] == t.couriers;
  }

  /** Assign then complete: every courier is as before the Assign, and the order's row is all that remains of it. */
  lemma AssignThenComplete(t: Tables, raw: string, id: nat, now: int, fault: Fault)
    requires WellFormed(t) && AssignOutcome(t, raw, id, now, fault).1.Ok?
    ensures var (u, r) := AssignOutcome(t, raw, id, now, fault);
            var order := r.value.orderId;
            WellFormed(u) && order in u.deliveries &&
            CompleteOutcome(u, order, NoFault) ==
              (t.(deliveries := t.deliveries[order := u.deliveries[order]]), Ok(()))
  {
    var (u, r) := AssignOutcome(t, raw, id, now, fault);
    var c := r.value.courierId;
    assert u.couriers[c := u.couriers[c].(status := Available)] == t.couriers;
  }

  // ---------- releasing expired couriers

  /** The row of courier `c` whose deadline comes first. */
  ghost predicate IsEarliest(t: Tables, c: int, o: string) {
    o in Rows(t, c) && forall p :: p in Rows(t, c) ==> t.deliveries[o].deadline <= t.deliveries[p].deadline
  }

  lemma {:induction false} EarliestOf(t: Tables, c: int, rows: set<string>) returns (o: string)
    requires rows <= Rows(t, c) && exists o :: o in rows
    ensures o in rows && forall p :: p in rows ==> t.deliveries[o].deadline <= t.deliveries[p].deadline
    decreases |rows|
  {
    var x :| x in rows;
    o := x;
    var rest := rows - {x};
    if exists p :: p in rest {
      var p := EarliestOf(t, c, rest);
      if t.deliveries[p].deadline < t.deliveries[x].deadline {
        o := p;
      }
    }
    assert forall p :: p in rows ==> p == x || p in rest;
  }

  /** A release frees exactly the busy couriers whose earliest remaining deadline has passed; nobody else
      changes - not the paused, not the busy without an expired row - and no row does. */
  lemma ReleaseLaw(t: Tables, now: int, c: int)
    requires c in t.couriers
    ensures var u := Released(t, now);
            && u.deliveries == t.deliveries && u.couriers.Keys == t.couriers.Keys
            && (c in Freed(t, now) <==>
                t.couriers[c].status == Busy && exists o :: IsEarliest(t, c, o) && t.deliveries[o].deadline < now)
            && u.couriers[c] == if c in Freed(t, now) then t.couriers[c].(status := Available) else t.couriers[c]
  {
    if HasExpired(t.deliveries, c, now) {
      var p :| p in t.deliveries && t.deliveries[p].courierId == c && t.deliveries[p].deadline < now;
      assert p in Rows(t, c);
      var o := EarliestOf(t, c, Rows(t, c));
      assert IsEarliest(t, c, o);
    }
  }

  /** The count a release returns is the number of couriers it changed. */
  lemma ReleaseCountsChanges(t: Tables, now: int)
    ensures ReleaseOutcome(t, now, NoFault) ==
            (Released(t, now), Ok(|set c | c in t.couriers && Released(t, now).couriers[c] != t.couriers[c]|))
  {
    assert Freed(t, now) == set c | c in t.couriers && Released(t, now).couriers[c] != t.couriers[c];
  }

  lemma ExpiryPersists(deliveries: map<string, Delivery>, c: int, t1: int, t2: int)
    requires t1 <= t2 && HasExpired(deliveries, c, t1)
    ensures HasExpired(deliveries, c, t2)
  {
    var o :| o in deliveries && deliveries[o].courierId == c && deliveries[o].deadline < t1;
    assert o in deliveries && deliveries[o].courierId == c && deliveries[o].deadline < t2;
  }

  lemma FreedLater(t: Tables, t1: int, t2: int, c: int)
    requires t1 <= t2
    ensures c in Freed(Released(t, t1), t2) <==> c in Freed(t, t2) && c !in Freed(t, t1)
    ensures c in Freed(t, t1) ==> c in Freed(t, t2)
  {
    if HasExpired(t.deliveries, c, t1) {
      ExpiryPersists(t.deliveries, c, t1, t2);
    }
  }

  lemma DisjointSum(a: set<int>, b: set<int>, whole: set<int>)
    requires a !! b && a + b == whole
    ensures |a| + |b| == |whole|
  {
  }

  /** Releasing earlier as well makes no difference: same tables, and the counts add up. */
  lemma ReleaseTwice(t: Tables, t1: int, t2: int)
    requires t1 <= t2
    ensures Released(Released(t, t1), t2) == Released(t, t2)
    ensures |Freed(t, t1)| + |Freed(Released(t, t1), t2)| == |Freed(t, t2)|
  {
    hide Freed, HasExpired;
    var first, second, whole := Freed(t, t1), Freed(Released(t, t1), t2), Freed(t, t2);
    forall c {
      FreedLater(t, t1, t2, c);
    }
    DisjointSum(first, second, whole);
    forall c | c in t.couriers ensures Released(Released(t, t1), t2).couriers[c] == Released(t, t2).couriers[c] {
      FreedLater(t, t1, t2, c);
    }
    assert Released(Released(t, t1), t2).couriers == Released(t, t2).couriers;
  }

  /** A busy courier is freed before the deadline of the delivery it is on exactly when
      an older, expired row of the courier is still in the table. */
  lemma FreedEarlyIff(t: Tables, now: int, c: int, current: string)
    requires c in t.couriers && t.couriers[c].status == Busy
    requires current in Rows(t, c) && t.deliveries[current].deadline >= now
    ensures c in Freed(t, now) <==> exists o :: o in Rows(t, c) && o != current && t.deliveries[o].deadline < now
  {
    if HasExpired(t.deliveries, c, now) {
      var p :| p in t.deliveries && t.deliveries[p].courierId == c && t.deliveries[p].deadline < now;
      assert p in Rows(t, c) && p != current;
    }
  }

  /** It does happen: complete a delivery, take another after the first one's deadline, and the next release
      frees the courier at once. */
  lemma FreedEarlyHappens()
    ensures var c := Courier(Available, Car);
            var t0 := Tables(map[1 := c], map[]);
            var t1 := AssignOutcome(t0, "a", 1, 0, NoFault).0;
            WellFormed(t1) &&
            var t2 := CompleteOutcome(t1, "a", NoFault).0;
            var now := 6 * Basics.MINUTE;
            var t3 := AssignOutcome(t2, "b", 2, now, NoFault).0;
            && t3.couriers == map[1 := Courier(Busy, Car)]
            && "b" in t3.deliveries && t3.deliveries["b"].deadline == now + 5 * Basics.MINUTE
            && ReleaseOutcome(t3, now, NoFault).0.couriers == map[1 := c]
  {
    hide Text.TrimSpace;
    var c := Courier(Available, Car);
    var t0 := Tables(map[1 := c], map[]);
    assert IsPick(t0, 1);
    Text.OneLetterIsTrimmed('a');
    Text.OneLetterIsTrimmed('b');
    var t1 := AssignOutcome(t0, "a", 1, 0, NoFault).0;
    assert t1.couriers == map[1 := Courier(Busy, Car)];
    var t2 := CompleteOutcome(t1, "a", NoFault).0;
    assert t2.couriers == map[1 := c];
    assert IsPick(t2, 1);
    var t3 := AssignOutcome(t2, "b", 2, 6 * Basics.MINUTE, NoFault).0;
    assert "a" in t3.deliveries && t3.deliveries["a"].deadline == 5 * Basics.MINUTE;
    assert 1 in Freed(t3, 6 * Basics.MINUTE);
  }
}
