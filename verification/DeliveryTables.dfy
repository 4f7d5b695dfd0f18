/** The courier and delivery tables, and what one transaction of each kind does to them
    (internal/repository/delivery.go, internal/service/delivery, db/migrations). */
module DeliveryTables {
  import opened Basics
  import Text

  const MAX_ORDER_ID: nat := 255

  datatype Result<+T> = Ok(value: T) | Err(error: Error)
  datatype Error =
    | Invalid
    | Conflict
    | NotFound
    | UnknownTransport
    | InsertRejected     // the unique index or the column's length
    | Database           // the connection or the server failed

  datatype Status = Available | Busy | Paused
  datatype Transport = OnFoot | Scooter | Car | Unknown(name: string)
  datatype Courier = Courier(status: Status, transport: Transport)
  datatype Delivery = Delivery(id: nat, courierId: int, orderId: string, assignedAt: int, deadline: int)
  datatype Assignment = Assignment(courierId: int, orderId: string, transport: Transport, deadline: int)
  datatype Unassignment = Unassignment(courierId: int, orderId: string)

  /** Both tables. Keying deliveries by order is the unique index on order_id. */
  datatype Tables = Tables(couriers: map<int, Courier>, deliveries: map<string, Delivery>)

  /** The statement of a transaction at which the database fails, if any. */
  datatype Fault = NoFault | AtBegin | AtFind | AtGet | AtInsert | AtDelete | AtUpdate | AtCommit

  /** Every row names an existing courier (the foreign key) and sits under its own order. */
  ghost predicate WellFormed(t: Tables) {
    forall o :: o in t.deliveries ==>
      t.deliveries[o].orderId == o && t.deliveries[o].courierId in t.couriers
  }

  function Rows(t: Tables, c: int): set<string> {
    set o | o in t.deliveries && t.deliveries[o].courierId == c
  }

  predicate IsAvailable(t: Tables, c: int) {
    c in t.couriers && t.couriers[c].status == Available
  }

  /** The order in which couriers are offered: fewest rows first, then smallest id. */
  predicate Precedes(t: Tables, a: int, b: int) {
    |Rows(t, a)| < |Rows(t, b)| || (|Rows(t, a)| == |Rows(t, b)| && a <= b)
  }

  predicate IsPick(t: Tables, c: int) {
    IsAvailable(t, c) && forall d :: d in t.couriers && IsAvailable(t, d) ==> Precedes(t, c, d)
  }

  ghost predicate SomeAvailable(t: Tables) {
    exists c :: IsAvailable(t, c)
  }

  lemma {:induction false} FirstOf(t: Tables, cs: set<int>) returns (c: int)
    requires exists c :: c in cs
    ensures c in cs && forall d :: d in cs ==> Precedes(t, c, d)
    decreases |cs|
  {
    var x :| x in cs;
    c := x;
    var rest := cs - {x};
    if exists c :: c in rest {
      var d := FirstOf(t, rest);
      if Precedes(t, d, x) {
        c := d;
      }
    }
    assert forall d :: d in cs ==> d == x || d in rest;
  }

  lemma PickExists(t: Tables)
    requires SomeAvailable(t)
    ensures exists c :: IsPick(t, c)
  {
    var cs := set c | c in t.couriers && IsAvailable(t, c);
    var c :| IsAvailable(t, c);
    assert c in cs;
    var d := FirstOf(t, cs);
    assert IsPick(t, d);
  }

  /** The courier an Assign takes when nothing else is going on; it is the only one that qualifies. */
  ghost function Pick(t: Tables): (r: Option<int>)
    ensures r.None? <==> !SomeAvailable(t)
    ensures forall c :: IsPick(t, c) <==> r == Some(c)
  {
    if SomeAvailable(t) then
      PickExists(t);
      var c :| IsPick(t, c);
      Some(c)
    else None
  }

  function Deadline(transport: Transport, now: int): (r: Result<int>)
    ensures r.Ok? <==> !transport.Unknown?
    ensures r.Ok? ==> now + 5 * MINUTE <= r.value <= now + 30 * MINUTE
  {
    match transport
    case OnFoot => Ok(now + 30 * MINUTE)
    case Scooter => Ok(now + 15 * MINUTE)
    case Car => Ok(now + 5 * MINUTE)
    case Unknown(_) => Err(UnknownTransport)
  }

  function WithStatus(t: Tables, c: int, status: Status): Tables
    requires c in t.couriers
  {
    t.(couriers := t.couriers[c := t.couriers[c].(status := status)])
  }

  /** A row for courier `c`, who becomes busy. */
  function Booked(t: Tables, d: Delivery): Tables
    requires d.courierId in t.couriers
  {
    WithStatus(t.(deliveries := t.deliveries[d.orderId := d]), d.courierId, Busy)
  }

  /** The row gone, and its courier available. */
  function Unbooked(t: Tables, order: string): Tables
    requires order in t.deliveries && t.deliveries[order].courierId in t.couriers
  {
    WithStatus(t.(deliveries := t.deliveries - {order}), t.deliveries[order].courierId, Available)
  }

  // ---------- one transaction of each kind

  /** Assign: `id` is the sequence number the row would get. */
  ghost function AssignOutcome(t: Tables, raw: string, id: nat, now: int, fault: Fault): (Tables, Result<Assignment>) {
    var order := Text.TrimSpace(raw);
    if order == "" then (t, Err(Invalid))
    else if fault == AtBegin || fault == AtFind then (t, Err(Database))
    else match Pick(t)
      case None => (t, Err(Conflict))
      case Some(c) =>
        var transport := t.couriers[c].transport;
        match Deadline(transport, now)
        case Err(e) => (t, Err(e))
        case Ok(deadline) =>
          if fault == AtInsert then (t, Err(Database))
          else if order in t.deliveries || |order| > MAX_ORDER_ID then (t, Err(InsertRejected))
          else if fault == AtUpdate || fault == AtCommit then (t, Err(Database))
          else (Booked(t, Delivery(id, c, order, now, deadline)), Ok(Assignment(c, order, transport, deadline)))
  }

  ghost function UnassignOutcome(t: Tables, raw: string, fault: Fault): (Tables, Result<Unassignment>)
    requires WellFormed(t)
  {
    var order := Text.TrimSpace(raw);
    if order == "" then (t, Err(Invalid))
    else if fault == AtBegin || fault == AtGet then (t, Err(Database))
    else if order !in t.deliveries then (t, Err(NotFound))
    else if fault == AtDelete || fault == AtUpdate || fault == AtCommit then (t, Err(Database))
    else (Unbooked(t, order), Ok(Unassignment(t.deliveries[order].courierId, order)))
  }

  /** Completion frees the courier and keeps the row; the order id is used as it came. */
  ghost function CompleteOutcome(t: Tables, order: string, fault: Fault): (Tables, Result<()>)
    requires WellFormed(t)
  {
    if fault == AtBegin || fault == AtGet then (t, Err(Database))
    else if order !in t.deliveries then (t, if fault == AtCommit then Err(Database) else Ok(()))
    else if fault == AtUpdate || fault == AtCommit then (t, Err(Database))
    else (WithStatus(t, t.deliveries[order].courierId, Available), Ok(()))
  }

  predicate HasExpired(deliveries: map<string, Delivery>, c: int, now: int) {
    exists o :: o in deliveries && deliveries[o].courierId == c && deliveries[o].deadline < now
  }

  function Freed(t: Tables, now: int): set<int> {
    set c | c in t.couriers && t.couriers[c].status == Busy && HasExpired(t.deliveries, c, now)
  }

  function MadeAvailable(couriers: map<int, Courier>, cs: set<int>): map<int, Courier> {
    map c | c in couriers :: if c in cs then couriers[c].(status := Available) else couriers[c]
  }

  function Released(t: Tables, now: int): Tables {
    t.(couriers := MadeAvailable(t.couriers, Freed(t, now)))
  }

  ghost function ReleaseOutcome(t: Tables, now: int, fault: Fault): (Tables, Result<nat>) {
    if fault == AtUpdate then (t, Err(Database))
    else (Released(t, now), Ok(|Freed(t, now)|))
  }
}
