/** What every run of whole transactions keeps, whatever their order and whichever of them fail. */
module DeliveryRuns {
  import opened Basics
  import Text
  import opened DeliveryTables
  import DeliveryLaws

  datatype Op =
    | Assign(raw: string, id: nat, now: int, fault: Fault)
    | Unassign(raw: string, fault: Fault)
    | Complete(order: string, fault: Fault)
    | Release(now: int, fault: Fault)
    | Hire(c: int, courier: Courier)      // a new courier
    | Edit(c: int, status: Option<Status>, transport: Option<Transport>)   // columns written by hand

  /** A column that is not given keeps its value. */
  function Edited(courier: Courier, status: Option<Status>, transport: Option<Transport>): Courier {
    Courier(if status.Some? then status.value else courier.status,
            if transport.Some? then transport.value else courier.transport)
  }

  /** The tables after one transaction, and whether it succeeded. */
  ghost function Apply(t: Tables, op: Op): (r: (Tables, bool))
    requires WellFormed(t)
    ensures WellFormed(r.0)
    ensures !r.1 ==> r.0 == t
  {
    match op
    case Assign(raw, id, now, fault) =>
      var (u, r) := AssignOutcome(t, raw, id, now, fault); (u, r.Ok?)
    case Unassign(raw, fault) =>
      var (u, r) := UnassignOutcome(t, raw, fault); (u, r.Ok?)
    case Complete(order, fault) =>
      var (u, r) := CompleteOutcome(t, order, fault); (u, r.Ok?)
    case Release(now, fault) =>
      var (u, r) := ReleaseOutcome(t, now, fault); (u, r.Ok?)
    case Hire(c, courier) =>
      if c in t.couriers then (t, false) else (t.(couriers := t.couriers[c := courier]), true)
    case Edit(c, status, transport) =>
      if c in t.couriers then (t.(couriers := t.couriers[c := Edited(t.couriers[c], status, transport)]), true)
      else (t, false)
  }

  /** Hiring adds a courier with a new id; an edit writes the columns it is given, of a courier there is. */
  lemma CourierWrites(t: Tables, op: Op)
    requires WellFormed(t) && (op.Hire? || op.Edit?)
    ensures var (u, ok) := Apply(t, op);
            && u.deliveries == t.deliveries && (ok <==> (op.Edit? <==> op.c in t.couriers))
            && u.couriers.Keys == t.couriers.Keys + (if ok then {op.c} else {})
            && (forall c :: c in t.couriers && c != op.c ==> u.couriers[c] == t.couriers[c])
            && (ok && op.Hire? ==> u.couriers[op.c] == op.courier)
            && (ok && op.Edit? ==>
                  var was, is_ := t.couriers[op.c], u.couriers[op.c];
                  && (op.status.Some? ==> is_.status == op.status.value)
                  && (op.status.None? ==> is_.status == was.status)
                  && (op.transport.Some? ==> is_.transport == op.transport.value)
                  && (op.transport.None? ==> is_.transport == was.transport))
  {
  }

  /** Of the transactions of a run, an Assign, an Unassign and a completion succeed when their laws say so, and a
      completed order's courier is available. */
  lemma RunSteps(t: Tables, op: Op)
    requires WellFormed(t)
    ensures var (u, ok) := Apply(t, op);
            && (op.Unassign? && op.fault == NoFault ==>
                  (ok <==> Text.TrimSpace(op.raw) != "" && Text.TrimSpace(op.raw) in t.deliveries))
            && (op.Complete? && op.fault == NoFault ==>
                  ok && (op.order in t.deliveries ==> IsAvailable(u, t.deliveries[op.order].courierId)))
            && (op.Release? && op.fault == NoFault ==>
                  ok && forall c :: c in u.couriers && u.couriers[c].status == Busy ==>
                          !HasExpired(t.deliveries, c, op.now))
            && (op.Assign? && op.fault == NoFault ==>
                  (ok <==> Text.TrimSpace(op.raw) != "" && Text.TrimSpace(op.raw) !in t.deliveries &&
                           |Text.TrimSpace(op.raw)| <= 255 && DeliveryLaws.PickDelivers(t)))
  {
    hide Text.TrimSpace;
    if op.Assign? {
      DeliveryLaws.AssignSucceedsIff(t, op.raw, op.id, op.now);
    } else if op.Complete? {
      DeliveryLaws.CompletionFrees(t, op.order);
    }
  }

  /** The tables after the first `k` transactions. */
  ghost function At(t: Tables, ops: seq<Op>, k: nat): (u: Tables)
    requires WellFormed(t) && k <= |ops|
    ensures WellFormed(u)
  {
    if k == 0 then t else Apply(At(t, ops, k - 1), ops[k - 1]).0
  }

  ghost predicate Succeeds(t: Tables, ops: seq<Op>, k: nat)
    requires WellFormed(t) && k < |ops|
  {
    Apply(At(t, ops, k), ops[k]).1
  }

  // ---------- conservation

  ghost function Assigns(t: Tables, ops: seq<Op>, k: nat): nat
    requires WellFormed(t) && k <= |ops|
  {
    if k == 0 then 0
    else Assigns(t, ops, k - 1) + if ops[k - 1].Assign? && Succeeds(t, ops, k - 1) then 1 else 0
  }

  ghost function Unassigns(t: Tables, ops: seq<Op>, k: nat): nat
    requires WellFormed(t) && k <= |ops|
  {
    if k == 0 then 0
    else Unassigns(t, ops, k - 1) + if ops[k - 1].Unassign? && Succeeds(t, ops, k - 1) then 1 else 0
  }

  /** The row counts of the couriers in `cs`, added up. */
  ghost function RowTotal(t: Tables, cs: set<int>): nat {
    if exists c :: c in cs then var c :| c in cs; |Rows(t, c)| + RowTotal(t, cs - {c}) else 0
  }

  ghost function RowsOf(t: Tables, cs: set<int>): set<string> {
    set o | o in t.deliveries && t.deliveries[o].courierId in cs
  }

  lemma SplitRows(t: Tables, cs: set<int>, c: int)
    requires c in cs
    ensures |RowsOf(t, cs)| == |Rows(t, c)| + |RowsOf(t, cs - {c})|
  {
    var mine, others := Rows(t, c), RowsOf(t, cs - {c});
    assert RowsOf(t, cs) == mine + others && mine !! others;
  }

  lemma {:induction false} RowTotalCountsRows(t: Tables, cs: set<int>)
    ensures RowTotal(t, cs) == |RowsOf(t, cs)|
    decreases cs
  {
    if exists c :: c in cs {
      var c :| c in cs && RowTotal(t, cs) == |Rows(t, c)| + RowTotal(t, cs - {c});
      RowTotalCountsRows(t, cs - {c});
      SplitRows(t, cs, c);
    } else {
      assert RowsOf(t, cs) == {};
    }
  }

  lemma RowAdded(m: map<string, Delivery>, n: map<string, Delivery>, order: string)
    requires order !in m && n.Keys == m.Keys + {order}
    ensures |n| == |m| + 1
  {
    assert |n| == |n.Keys| && |m| == |m.Keys|;
  }

  lemma OthersKeepRows(t: Tables, op: Op)
    requires WellFormed(t) && !(Apply(t, op).1 && (op.Assign? || op.Unassign?))
    ensures Apply(t, op).0.deliveries == t.deliveries
  {
  }

  lemma RowsAfter(t: Tables, op: Op)
    requires WellFormed(t)
    ensures var (u, ok) := Apply(t, op);
            |u.deliveries| ==
              |t.deliveries| + (if op.Assign? && ok then 1 else 0) - (if op.Unassign? && ok then 1 else 0)
  {
    var (u, ok) := Apply(t, op);
    if op.Assign? && ok {
      DeliveryLaws.AssignBooks(t, op.raw, op.id, op.now, op.fault);
      RowAdded(t.deliveries, u.deliveries, Text.TrimSpace(op.raw));
    } else if op.Unassign? && ok {
      DeliveryLaws.UnassignFrees(t, op.raw, op.fault);
      RowAdded(u.deliveries, t.deliveries, Text.TrimSpace(op.raw));
    } else {
      OthersKeepRows(t, op);
    }
  }

  lemma {:induction false} RowsAreAssignsMinusUnassigns(t: Tables, ops: seq<Op>, k: nat)
    requires WellFormed(t) && t.deliveries == map[] && k <= |ops|
    ensures |At(t, ops, k).deliveries| == Assigns(t, ops, k) - Unassigns(t, ops, k)
  {
    hide Apply;
    if k > 0 {
      RowsAreAssignsMinusUnassigns(t, ops, k - 1);
      RowsAfter(At(t, ops, k - 1), ops[k - 1]);
    }
  }

  /** Conservation: from an empty delivery table, the couriers' row counts always add up to the successful
      Assigns less the successful Unassigns, and every row names an existing courier. */
  lemma Conservation(t: Tables, ops: seq<Op>, k: nat)
    requires WellFormed(t) && t.deliveries == map[] && k <= |ops|
    ensures var u := At(t, ops, k);
            RowTotal(u, u.couriers.Keys) == Assigns(t, ops, k) - Unassigns(t, ops, k) &&
            forall o :: o in u.deliveries ==> u.deliveries[o].courierId in u.couriers
  {
    var u := At(t, ops, k);
    RowsAreAssignsMinusUnassigns(t, ops, k);
    RowTotalCountsRows(u, u.couriers.Keys);
    assert u.deliveries.Keys == RowsOf(u, u.couriers.Keys);
    assert |u.deliveries| == |u.deliveries.Keys|;
  }

  // ---------- busy couriers

  /** The row of a successful Assign and the transport the courier had then. */
  datatype Booking = Booking(row: Delivery, transport: Transport)

  /** The booking that last made each courier busy. */
  ghost function Backing(t: Tables, ops: seq<Op>, k: nat): map<int, Booking>
    requires WellFormed(t) && k <= |ops|
  {
    if k == 0 then map[]
    else
      var b, op := Backing(t, ops, k - 1), ops[k - 1];
      if op.Assign? && Succeeds(t, ops, k - 1) then
        var before, row := At(t, ops, k - 1), At(t, ops, k).deliveries[Text.TrimSpace(op.raw)];
        b[row.courierId := Booking(row, before.couriers[row.courierId].transport)]
      else b
  }

  /** How long a courier may take: half an hour on foot, half of that by scooter, a third of that by car. */
  function TimeAllowed(transport: Transport): (d: int)
    ensures d <= 30 * MINUTE
  {
    if transport == OnFoot then 30 * MINUTE
    else if transport == Scooter then 15 * MINUTE
    else if transport == Car then 5 * MINUTE
    else 0
  }

  /** Courier `c` still has the row that made it busy, with the deadline its transport called for then. */
  ghost predicate Backed(t: Tables, backing: map<int, Booking>, c: int) {
    c in backing && c in t.couriers &&
    var d := backing[c].row;
    d.courierId == c && d.orderId in t.deliveries && t.deliveries[d.orderId] == d &&
    d.deadline == d.assignedAt + TimeAllowed(backing[c].transport)
  }

  ghost predicate BusyBacked(t: Tables, backing: map<int, Booking>) {
    forall c :: c in t.couriers && t.couriers[c].status == Busy ==> Backed(t, backing, c)
  }

  /** Nobody writes a courier's status by hand; its transport may be. */
  ghost predicate NoManualStatus(ops: seq<Op>) {
    forall op :: op in ops ==> (op.Edit? ==> op.status.None?) && (op.Hire? ==> op.courier.status != Busy)
  }

  ghost predicate NoManualTransport(ops: seq<Op>, c: int) {
    forall op :: op in ops && op.Edit? && op.c == c ==> op.transport.None?
  }

  lemma {:induction false} StepKeepsBacked(t: Tables, ops: seq<Op>, k: nat)
    requires WellFormed(t) && NoManualStatus(ops) && k < |ops|
    requires BusyBacked(At(t, ops, k), Backing(t, ops, k))
    ensures BusyBacked(At(t, ops, k + 1), Backing(t, ops, k + 1))
  {
    var u, v, op := At(t, ops, k), At(t, ops, k + 1), ops[k];
    var b, b' := Backing(t, ops, k), Backing(t, ops, k + 1);
    assert op in ops;
    forall c | c in v.couriers && v.couriers[c].status == Busy ensures Backed(v, b', c) {
      if op.Assign? && Succeeds(t, ops, k) && c == v.deliveries[Text.TrimSpace(op.raw)].courierId {
        DeliveryLaws.AssignBooks(u, op.raw, op.id, op.now, op.fault);
      } else {
        assert c in u.couriers && u.couriers[c].status == Busy;
        assert Backed(u, b, c);
      }
    }
  }

  lemma {:induction false} BusyStaysBacked(t: Tables, ops: seq<Op>, k: nat)
    requires WellFormed(t) && t.deliveries == map[] && NoManualStatus(ops) && k <= |ops|
    requires forall c :: c in t.couriers ==> t.couriers[c].status != Busy
    ensures BusyBacked(At(t, ops, k), Backing(t, ops, k))
  {
    hide Apply;
    if k > 0 {
      BusyStaysBacked(t, ops, k - 1);
      StepKeepsBacked(t, ops, k - 1);
    }
  }

  lemma TransportAfter(t: Tables, op: Op, c: int)
    requires WellFormed(t) && c in t.couriers && (op.Edit? && op.c == c ==> op.transport.None?)
    ensures var u := Apply(t, op).0; c in u.couriers && u.couriers[c].transport == t.couriers[c].transport
  {
    if op.Assign? && Apply(t, op).1 {
      DeliveryLaws.AssignBooks(t, op.raw, op.id, op.now, op.fault);
    }
  }

  lemma {:induction false} BookedTransportKept(t: Tables, ops: seq<Op>, k: nat, c: int)
    requires WellFormed(t) && k <= |ops| && NoManualTransport(ops, c) && c in Backing(t, ops, k)
    ensures c in At(t, ops, k).couriers && Backing(t, ops, k)[c].transport == At(t, ops, k).couriers[c].transport
  {
    var u, op := At(t, ops, k - 1), ops[k - 1];
    assert op in ops;
    if op.Assign? && Succeeds(t, ops, k - 1) {
      DeliveryLaws.AssignBooks(u, op.raw, op.id, op.now, op.fault);
    }
    if c in Backing(t, ops, k - 1) {
      BookedTransportKept(t, ops, k - 1, c);
    }
    TransportAfter(u, op, c);
  }

  /** At every moment of every run in which statuses are not written by hand, each busy courier still has the very
      row that made it busy, with the deadline its transport called for then; and right after a release at `now`,
      that row is not late: it was assigned within that transport's 30, 15 or 5 minutes, so never more than half
      an hour ago. Unless the courier's transport was written by hand, it is the one it has now. */
  lemma {:induction false} BusyBackedAndBounded(t: Tables, ops: seq<Op>, k: nat, c: int)
    requires WellFormed(t) && t.deliveries == map[] && NoManualStatus(ops) && k <= |ops|
    requires forall c :: c in t.couriers ==> t.couriers[c].status != Busy
    requires var u := At(t, ops, k); c in u.couriers && u.couriers[c].status == Busy
    ensures Backed(At(t, ops, k), Backing(t, ops, k), c)
    ensures NoManualTransport(ops, c) ==>
              Backing(t, ops, k)[c].transport == At(t, ops, k).couriers[c].transport
    ensures k > 0 && ops[k - 1].Release? && Succeeds(t, ops, k - 1) ==>
              var b, now := Backing(t, ops, k)[c], ops[k - 1].now;
              now <= b.row.deadline && now - 30 * MINUTE <= now - TimeAllowed(b.transport) <= b.row.assignedAt
  {
    BusyStaysBacked(t, ops, k);
    if NoManualTransport(ops, c) {
      BookedTransportKept(t, ops, k, c);
    }
    if k > 0 && ops[k - 1].Release? && Succeeds(t, ops, k - 1) {
      var before, d := At(t, ops, k - 1), Backing(t, ops, k)[c].row;
      assert !HasExpired(before.deliveries, c, ops[k - 1].now);
      assert d.orderId in before.deliveries && before.deliveries[d.orderId].courierId == c;
    }
  }

  // ---------- load balance

  ghost function Load(t: Tables, c: int): nat {
    |Rows(t, c)|
  }

  /** Ties go to the smaller id, which can thereby be one row ahead. */
  function Lead(a: int, b: int): nat {
    if a < b then 1 else 0
  }

  lemma SetOfRows(t: Tables, u: Tables, c: int, order: string)
    requires order !in t.deliveries && order in u.deliveries
    requires u.deliveries == t.deliveries[order := u.deliveries[order]]
    ensures Load(u, c) == Load(t, c) + if u.deliveries[order].courierId == c then 1 else 0
  {
    if u.deliveries[order].courierId == c {
      assert Rows(u, c) == Rows(t, c) + {order};
    } else {
      assert Rows(u, c) == Rows(t, c);
    }
  }

  /** Without Unassign, one transaction adds one row to the courier it assigns and nothing else. */
  lemma LoadAfter(t: Tables, op: Op, c: int)
    requires WellFormed(t) && !op.Unassign?
    ensures var (u, ok) := Apply(t, op);
            Load(u, c) == Load(t, c) + if op.Assign? && ok && Pick(t) == Some(c) then 1 else 0
  {
    var (u, ok) := Apply(t, op);
    if op.Assign? && ok {
      DeliveryLaws.AssignBooks(t, op.raw, op.id, op.now, op.fault);
      SetOfRows(t, u, c, Text.TrimSpace(op.raw));
    } else {
      assert Rows(u, c) == Rows(t, c);
    }
  }

  /** Whenever `a` is picked, `b` could have been. */
  ghost predicate OfferedTogether(t: Tables, ops: seq<Op>, a: int, b: int)
    requires WellFormed(t)
  {
    forall k :: 0 <= k < |ops| && ops[k].Assign? && Succeeds(t, ops, k) && Pick(At(t, ops, k)) == Some(a) ==>
      IsAvailable(At(t, ops, k), b)
  }

  /** Load balance: over any run without Unassign, if `b` is available whenever `a` is picked, then `a` never gets
      more than `slack` rows ahead of `b`, for any slack that covers the tie-break and held at the start. */
  lemma {:induction false} LoadBalance(t: Tables, ops: seq<Op>, a: int, b: int, slack: nat, k: nat)
    requires WellFormed(t) && k <= |ops| && Lead(a, b) <= slack
    requires forall op :: op in ops ==> !op.Unassign?
    requires OfferedTogether(t, ops, a, b)
    requires Load(t, a) <= Load(t, b) + slack
    ensures Load(At(t, ops, k), a) <= Load(At(t, ops, k), b) + slack
  {
    hide Apply;
    if k > 0 {
      LoadBalance(t, ops, a, b, slack, k - 1);
      var u, op := At(t, ops, k - 1), ops[k - 1];
      assert op in ops;
      LoadAfter(u, op, a);
      LoadAfter(u, op, b);
      if op.Assign? && Succeeds(t, ops, k - 1) && Pick(u) == Some(a) {
        assert IsPick(u, a) && IsAvailable(u, b);
        assert Precedes(u, a, b);
      }
    }
  }

  /** When all couriers are available at every Assign, loads that start within one of each other stay so. */
  lemma LoadsStayWithinOne(t: Tables, ops: seq<Op>, cs: set<int>, k: nat, a: int, b: int)
    requires WellFormed(t) && k <= |ops| && a in cs && b in cs
    requires forall op :: op in ops ==> !op.Unassign?
    requires forall i, c :: 0 <= i < |ops| && ops[i].Assign? && c in cs ==> IsAvailable(At(t, ops, i), c)
    requires forall c, d :: c in cs && d in cs ==> Load(t, c) <= Load(t, d) + 1
    ensures Load(At(t, ops, k), a) <= Load(At(t, ops, k), b) + 1
  {
    LoadBalance(t, ops, a, b, 1, k);
  }
}
