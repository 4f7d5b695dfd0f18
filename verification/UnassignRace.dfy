/** Unassign reads the order's row and then deletes by order, without holding the row in between
    (internal/service/delivery/usecase.go:129-144). What happens when the row is a different one by then. */
module UnassignRace {
  import Text
  import opened DeliveryTables
  import opened DeliveryRuns

  /** The second half of Unassign: delete whatever row the order has now, and free the courier read before. */
  ghost function Finished(t: Tables, order: string, readCourier: int): Tables
    requires order in t.deliveries && readCourier in t.couriers
  {
    WithStatus(t.(deliveries := t.deliveries - {order}), readCourier, Available)
  }

  /** Every busy courier stays backed by its row exactly when the row's courier is the one that was read,
      or that courier was not busy on this row. */
  lemma StaysBackedIff(t: Tables, backing: map<int, Booking>, order: string, readCourier: int)
    requires WellFormed(t) && BusyBacked(t, backing) && order in t.deliveries && readCourier in t.couriers
    ensures var d := t.deliveries[order];
            BusyBacked(Finished(t, order, readCourier), backing) <==>
            (d.courierId == readCourier || t.couriers[d.courierId].status != Busy || backing[d.courierId].row != d)
  {
    var d, u := t.deliveries[order], Finished(t, order, readCourier);
    if d.courierId != readCourier && t.couriers[d.courierId].status == Busy && backing[d.courierId].row == d {
      assert !Backed(u, backing, d.courierId);
    } else {
      forall c | c in u.couriers && u.couriers[c].status == Busy ensures Backed(u, backing, c) {
        assert Backed(t, backing, c);
      }
    }
  }

  /** It does happen: while one Unassign of "o" sits between its read and its delete, another one completes and
      the order is assigned again, to the other courier. The first then frees a courier who is on another order,
      and leaves the order's courier busy without a row. */
  lemma RaceHappens()
    ensures var idle := Courier(Available, Car);
            var t0 := Tables(map[1 := idle, 2 := idle], map[]);
            var t1 := AssignOutcome(t0, "o", 1, 0, NoFault).0;
            WellFormed(t1) && "o" in t1.deliveries &&
            var readCourier := t1.deliveries["o"].courierId;
            var t2 := UnassignOutcome(t1, "o", NoFault).0;
            var t3 := AssignOutcome(t2, "p", 2, 0, NoFault).0;
            var t4 := AssignOutcome(t3, "o", 3, 0, NoFault).0;
            && "o" in t4.deliveries && readCourier in t4.couriers
            && var t5 := Finished(t4, "o", readCourier);
            && t5.couriers == map[1 := idle, 2 := Courier(Busy, Car)]
            && t5.deliveries.Keys == {"p"} && t5.deliveries["p"].courierId == 1
  {
    hide Text.TrimSpace;
    Text.OneLetterIsTrimmed('o');
    Text.OneLetterIsTrimmed('p');
    var idle, busy := Courier(Available, Car), Courier(Busy, Car);
    var t0 := Tables(map[1 := idle, 2 := idle], map[]);
    assert Rows(t0, 1) == Rows(t0, 2) == {};
    assert IsPick(t0, 1);
    var t1 := AssignOutcome(t0, "o", 1, 0, NoFault).0;
    assert t1.couriers == map[1 := busy, 2 := idle];
    var t2 := UnassignOutcome(t1, "o", NoFault).0;
    assert t2 == t0;
    var t3 := AssignOutcome(t2, "p", 2, 0, NoFault).0;
    assert t3.couriers == map[1 := busy, 2 := idle];
    assert IsPick(t3, 2);
    var t4 := AssignOutcome(t3, "o", 3, 0, NoFault).0;
    assert t4.couriers == map[1 := busy, 2 := busy];
    assert t4.deliveries.Keys == {"o", "p"};
    var t5 := Finished(t4, "o", 1);
    assert t5.deliveries.Keys == {"p"};
  }

  /** With nothing in between, the two halves are one Unassign. */
  lemma UndisturbedIsUnassign(t: Tables, order: string)
    requires WellFormed(t) && order in t.deliveries && Text.TrimSpace(order) == order != ""
    ensures UnassignOutcome(t, order, NoFault).0 == Finished(t, order, t.deliveries[order].courierId)
  {
  }
}
