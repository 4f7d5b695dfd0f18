/** Assign transactions interleaved statement by statement, under the row lock that the courier query takes.
    A row lock is held to the end of the transaction; the query ranks couriers on its snapshot and, once it has
    a row's lock, checks the row's latest committed status again. Other writers are single steps that respect locks. */
module AssignInterleaving {
  import Text
  import opened DeliveryTables

  /** How far an Assign transaction has come. */
  datatype Phase =
    | Resting
    | Ranked(order: string, queue: seq<int>)            // the snapshot's couriers still to be tried
    | Locked(order: string, courier: int)
    | Inserted(order: string, courier: int, row: Delivery)  // a row no one else sees yet
    | Marked(order: string, courier: int, row: Delivery)    // and a status no one else sees yet

  datatype Entry = Committed(order: string, courier: int) | Freed(courier: int) | Removed(order: string)

  /** Committed tables, transactions under way, and the history of commits. */
  datatype State = State(tables: Tables, txns: seq<Phase>, log: seq<Entry>)

  datatype Step =
    | Rank(t: nat, raw: string, queue: seq<int>)
    | TryHead(t: nat)
    | Insert(t: nat, id: nat, now: int)
    | Mark(t: nat)
    | Commit(t: nat)
    | Abort(t: nat)                          // a conflict, an error, a timeout or a crash
    | Unassign(order: string)
    | SetStatus(c: int, status: Status)      // completion, release and manual writes, one courier at a time
    | Hire(c: int, courier: Courier)

  ghost predicate Holds(p: Phase, c: int) {
    (p.Locked? || p.Inserted? || p.Marked?) && p.courier == c
  }

  ghost predicate Pending(p: Phase, order: string) {
    (p.Inserted? || p.Marked?) && p.order == order
  }

  ghost predicate Unlocked(s: State, c: int) {
    forall p :: p in s.txns ==> !Holds(p, c)
  }

  /** No other transaction has an uncommitted row for the order: the unique index would make this one wait. */
  ghost predicate IndexFree(s: State, order: string) {
    forall p :: p in s.txns ==> !Pending(p, order)
  }

  /** The available couriers of the snapshot, in the order the query offers them. */
  ghost predicate IsRanking(t: Tables, queue: seq<int>) {
    && (forall c :: c in queue <==> IsAvailable(t, c))
    && (forall i, j :: 0 <= i < j < |queue| ==> queue[i] != queue[j] && Precedes(t, queue[i], queue[j]))
  }

  ghost function RowFor(s: State, t: nat, id: nat, now: int): Delivery
    requires t < |s.txns| && s.txns[t].Locked? && s.txns[t].courier in s.tables.couriers
    requires Deadline(s.tables.couriers[s.txns[t].courier].transport, now).Ok?
  {
    var p := s.txns[t];
    Delivery(id, p.courier, p.order, now, Deadline(s.tables.couriers[p.courier].transport, now).value)
  }

  ghost predicate Enabled(s: State, step: Step) {
    match step
    case Rank(t, raw, queue) =>
      t < |s.txns| && s.txns[t].Resting? && Text.TrimSpace(raw) != "" && IsRanking(s.tables, queue)
    case TryHead(t) =>
      t < |s.txns| && s.txns[t].Ranked? && s.txns[t].queue != [] && Unlocked(s, s.txns[t].queue[0])
    case Insert(t, id, now) =>
      t < |s.txns| && s.txns[t].Locked? && IndexFree(s, s.txns[t].order) &&
      s.txns[t].order !in s.tables.deliveries && |s.txns[t].order| <= MAX_ORDER_ID &&
      s.txns[t].courier in s.tables.couriers &&
      Deadline(s.tables.couriers[s.txns[t].courier].transport, now).Ok?
    case Mark(t) => t < |s.txns| && s.txns[t].Inserted?
    case Commit(t) => t < |s.txns| && s.txns[t].Marked? && s.txns[t].row.courierId in s.tables.couriers
    case Abort(t) => t < |s.txns| && !s.txns[t].Resting?
    case Unassign(order) =>
      order in s.tables.deliveries && s.tables.deliveries[order].courierId in s.tables.couriers &&
      Unlocked(s, s.tables.deliveries[order].courierId)
    case SetStatus(c, _) => c in s.tables.couriers && Unlocked(s, c)
    case Hire(c, _) => c !in s.tables.couriers
  }

  ghost function Moved(s: State, t: nat, p: Phase): State
    requires t < |s.txns|
  {
    s.(txns := s.txns[t := p])
  }

  ghost function Next(s: State, step: Step): State
    requires Enabled(s, step)
  {
    match step
    case Rank(t, raw, queue) => Moved(s, t, Ranked(Text.TrimSpace(raw), queue))
    case TryHead(t) =>
      var p := s.txns[t];
      if IsAvailable(s.tables, p.queue[0]) then Moved(s, t, Locked(p.order, p.queue[0]))
      else Moved(s, t, Ranked(p.order, p.queue[1..]))
    case Insert(t, id, now) => Moved(s, t, Inserted(s.txns[t].order, s.txns[t].courier, RowFor(s, t, id, now)))
    case Mark(t) => Moved(s, t, Marked(s.txns[t].order, s.txns[t].courier, s.txns[t].row))
    case Commit(t) =>
      var p := s.txns[t];
      State(Booked(s.tables, p.row), s.txns[t := Resting], s.log + [Committed(p.order, p.courier)])
    case Abort(t) => Moved(s, t, Resting)
    case Unassign(order) =>
      State(Unbooked(s.tables, order), s.txns,
            s.log + [Removed(order), Freed(s.tables.deliveries[order].courierId)])
    case SetStatus(c, status) =>
      State(WithStatus(s.tables, c, status), s.txns, if status == Available then s.log + [Freed(c)] else s.log)
    case Hire(c, courier) => s.(tables := s.tables.(couriers := s.tables.couriers[c := courier]))
  }

  ghost predicate Init(s: State) {
    WellFormed(s.tables) && s.log == [] && forall p :: p in s.txns ==> p == Resting
  }

  ghost predicate Execution(ss: seq<State>, steps: seq<Step>) {
    |ss| == |steps| + 1 && Init(ss[0]) &&
    forall i :: 0 <= i < |steps| ==> Enabled(ss[i], steps[i]) && ss[i + 1] == Next(ss[i], steps[i])
  }

  // ---------- locks

  /** What holds of each transaction and of each pair: a locked courier is available and locked once;
      an uncommitted row is for an order that has no row, and no two are for the same order. */
  ghost predicate PhaseOk(t: Tables, p: Phase) {
    && (p.Locked? || p.Inserted? || p.Marked? ==> IsAvailable(t, p.courier))
    && (p.Inserted? || p.Marked? ==>
          p.row.courierId == p.courier && p.row.orderId == p.order && p.order !in t.deliveries)
  }

  ghost predicate Apart(p: Phase, q: Phase) {
    && (forall c :: Holds(p, c) ==> !Holds(q, c))
    && (forall o :: Pending(p, o) ==> !Pending(q, o))
  }

  ghost predicate LocksOk(s: State) {
    && WellFormed(s.tables)
    && (forall p :: p in s.txns ==> PhaseOk(s.tables, p))
    && (forall i, j :: 0 <= i < j < |s.txns| ==> Apart(s.txns[i], s.txns[j]))
  }

  lemma TxnStepKeepsLocks(s: State, step: Step)
    requires LocksOk(s) && Enabled(s, step) && Next(s, step).tables == s.tables
    ensures LocksOk(Next(s, step))
  {
    if step.Rank? || step.TryHead? || step.Insert? || step.Mark? || step.Abort? {
      var s' := Next(s, step);
      assert s.txns[step.t] in s.txns;
      forall p | p in s'.txns ensures PhaseOk(s'.tables, p) {
        assert p == s'.txns[step.t] || p in s.txns;
      }
      forall i, j | 0 <= i < j < |s'.txns| ensures Apart(s'.txns[i], s'.txns[j]) {
        assert s.txns[i] in s.txns && s.txns[j] in s.txns;
        assert Apart(s.txns[i], s.txns[j]);
      }
    }
  }

  /** A commit takes its own courier and order away, and nobody else was relying on either. */
  lemma CommitKeepsLocks(s: State, t: nat)
    requires LocksOk(s) && Enabled(s, Commit(t))
    ensures LocksOk(Next(s, Commit(t)))
  {
    var s' := Next(s, Commit(t));
    var me := s.txns[t];
    assert me in s.txns;
    forall p | p in s'.txns ensures PhaseOk(s'.tables, p) {
      var i :| 0 <= i < |s'.txns| && s'.txns[i] == p;
      if i != t {
        assert p in s.txns && p == s.txns[i];
        assert Apart(s.txns[if i < t then i else t], s.txns[if i < t then t else i]);
        assert Holds(me, me.courier) && Pending(me, me.order);
        assert !Holds(p, me.courier) && !Pending(p, me.order);
      }
    }
  }

  lemma OtherStepKeepsLocks(s: State, step: Step)
    requires LocksOk(s) && Enabled(s, step) && (step.Unassign? || step.SetStatus? || step.Hire?)
    ensures LocksOk(Next(s, step))
  {
    var s' := Next(s, step);
    forall p | p in s'.txns ensures PhaseOk(s'.tables, p) {
      assert PhaseOk(s.tables, p);
    }
  }

  lemma StepKeepsLocks(s: State, step: Step)
    requires LocksOk(s) && Enabled(s, step)
    ensures LocksOk(Next(s, step))
  {
    if step.Commit? {
      CommitKeepsLocks(s, step.t);
    } else if step.Unassign? || step.SetStatus? || step.Hire? {
      OtherStepKeepsLocks(s, step);
    } else {
      TxnStepKeepsLocks(s, step);
    }
  }

  // ---------- history

  ghost predicate FreedBetween(log: seq<Entry>, c: int, i: nat, j: nat) {
    exists k :: i < k < j && k < |log| && log[k] == Freed(c)
  }

  ghost predicate RemovedBetween(log: seq<Entry>, order: string, i: nat, j: nat) {
    exists k :: i < k < j && k < |log| && log[k] == Removed(order)
  }

  /** A courier once taken is unavailable until freed; an order once assigned has its row until removed. */
  ghost predicate EntryExplained(s: State, i: nat)
    requires i < |s.log| && s.log[i].Committed?
  {
    var c, order := s.log[i].courier, s.log[i].order;
    && c in s.tables.couriers
    && (FreedBetween(s.log, c, i, |s.log|) || !IsAvailable(s.tables, c))
    && (RemovedBetween(s.log, order, i, |s.log|) || order in s.tables.deliveries)
  }

  ghost predicate HistoryExplains(s: State) {
    forall i :: 0 <= i < |s.log| && s.log[i].Committed? ==> EntryExplained(s, i)
  }

  ghost predicate NoDoubleBooking(log: seq<Entry>) {
    forall i, j :: 0 <= i < j < |log| && log[i].Committed? && log[j].Committed? ==>
      && (log[i].courier == log[j].courier ==> FreedBetween(log, log[i].courier, i, j))
      && (log[i].order == log[j].order ==> RemovedBetween(log, log[i].order, i, j))
  }

  lemma BetweenPersists(log: seq<Entry>, more: seq<Entry>, i: nat, j: nat, j': nat)
    requires j <= j'
    ensures forall c :: FreedBetween(log, c, i, j) ==> FreedBetween(log + more, c, i, j')
    ensures forall o :: RemovedBetween(log, o, i, j) ==> RemovedBetween(log + more, o, i, j')
  {
    forall c | FreedBetween(log, c, i, j) ensures FreedBetween(log + more, c, i, j') {
      var k :| i < k < j && k < |log| && log[k] == Freed(c);
      assert (log + more)[k] == Freed(c);
    }
    forall o | RemovedBetween(log, o, i, j) ensures RemovedBetween(log + more, o, i, j') {
      var k :| i < k < j && k < |log| && log[k] == Removed(o);
      assert (log + more)[k] == Removed(o);
    }
  }

  /** What one step appends to the history. */
  ghost function News(s: State, step: Step): seq<Entry>
    requires Enabled(s, step)
  {
    match step
    case Commit(t) => [Committed(s.txns[t].order, s.txns[t].courier)]
    case Unassign(order) => [Removed(order), Freed(s.tables.deliveries[order].courierId)]
    case SetStatus(c, status) => if status == Available then [Freed(c)] else []
    case _ => []
  }

  lemma OldEntryStaysExplained(s: State, step: Step, i: nat)
    requires LocksOk(s) && Enabled(s, step) && i < |s.log| && s.log[i].Committed? && EntryExplained(s, i)
    ensures var s' := Next(s, step);
            s'.log == s.log + News(s, step) && s'.log[i] == s.log[i] && EntryExplained(s', i)
  {
    var s', news := Next(s, step), News(s, step);
    var c, order, n := s.log[i].courier, s.log[i].order, |s.log|;
    assert s'.log == s.log + news;
    BetweenPersists(s.log, news, i, n, |s'.log|);
    if step.Unassign? {
      assert s'.log[n] == Removed(step.order);
      assert s'.log[n + 1] == Freed(s.tables.deliveries[step.order].courierId);
    }
    if step.SetStatus? && step.status == Available {
      assert s'.log[n] == Freed(step.c);
    }
  }

  lemma StepKeepsHistory(s: State, step: Step)
    requires LocksOk(s) && Enabled(s, step) && HistoryExplains(s) && NoDoubleBooking(s.log)
    ensures HistoryExplains(Next(s, step)) && NoDoubleBooking(Next(s, step).log)
  {
    var s', news, n := Next(s, step), News(s, step), |s.log|;
    assert s'.log == s.log + news;
    forall i | 0 <= i < |s'.log| && s'.log[i].Committed? ensures EntryExplained(s', i) {
      if i < n {
        OldEntryStaysExplained(s, step, i);
      } else {
        assert s.txns[step.t] in s.txns;
      }
    }
    forall i, j | 0 <= i < j < |s'.log| && s'.log[i].Committed? && s'.log[j].Committed?
      ensures s'.log[i].courier == s'.log[j].courier ==> FreedBetween(s'.log, s'.log[i].courier, i, j)
      ensures s'.log[i].order == s'.log[j].order ==> RemovedBetween(s'.log, s'.log[i].order, i, j)
    {
      BetweenPersists(s.log, news, i, j, j);
      if j >= n {
        assert s.txns[step.t] in s.txns;
        assert EntryExplained(s, i);
        BetweenPersists(s.log, news, i, n, j);
      }
    }
  }

  lemma {:induction false} Invariant(ss: seq<State>, steps: seq<Step>, i: nat)
    requires Execution(ss, steps) && i < |ss|
    ensures LocksOk(ss[i]) && HistoryExplains(ss[i]) && NoDoubleBooking(ss[i].log)
  {
    if i == 0 {
      forall j | 0 <= j < |ss[0].txns| ensures ss[0].txns[j] == Resting {
        assert ss[0].txns[j] in ss[0].txns;
      }
    } else {
      Invariant(ss, steps, i - 1);
      StepKeepsLocks(ss[i - 1], steps[i - 1]);
      StepKeepsHistory(ss[i - 1], steps[i - 1]);
    }
  }

  /** Until its commit a transaction writes nothing that others see; and the history tells of each commit, of each
      courier made available and of each row removed, when it happens and only then. */
  lemma HistoryIsTrue(s: State, step: Step)
    requires Enabled(s, step)
    ensures var s' := Next(s, step);
            var t, t', news := s.tables, s'.tables, s'.log[|s.log|..];
            && s.log <= s'.log
            && (step.Rank? || step.TryHead? || step.Insert? || step.Mark? || step.Abort? ==> t' == t && news == [])
            && (step.Hire? ==> t'.deliveries == t.deliveries && news == [])
            && (forall o, c :: Committed(o, c) in news <==>
                  step.Commit? && s.txns[step.t].order == o && s.txns[step.t].courier == c)
            && (forall c :: Freed(c) in news ==> IsAvailable(t', c) && (step.Unassign? || step.SetStatus?))
            && (forall o :: Removed(o) in news <==> o in t.deliveries && o !in t'.deliveries)
            && (forall c :: IsAvailable(t', c) && !IsAvailable(t, c) ==> Freed(c) in news || step.Hire?)
  {
    assert Next(s, step).log == s.log + News(s, step);
  }

  // ---------- theorems over every interleaving

  /** No double booking: two committed Assigns pick the same courier only if a committed step freed it in between,
      and two committed Assigns have the same order only if its row was removed in between. */
  lemma NoDoubleBookingEver(ss: seq<State>, steps: seq<Step>, n: nat, i: nat, j: nat)
    requires Execution(ss, steps) && n < |ss|
    requires i < j < |ss[n].log| && ss[n].log[i].Committed? && ss[n].log[j].Committed?
    ensures ss[n].log[i].courier == ss[n].log[j].courier ==>
              exists k :: i < k < j && ss[n].log[k] == Freed(ss[n].log[i].courier)
    ensures ss[n].log[i].order == ss[n].log[j].order ==>
              exists k :: i < k < j && ss[n].log[k] == Removed(ss[n].log[i].order)
  {
    Invariant(ss, steps, n);
    var log := ss[n].log;
    if log[i].courier == log[j].courier {
      assert FreedBetween(log, log[i].courier, i, j);
    }
    if log[i].order == log[j].order {
      assert RemovedBetween(log, log[i].order, i, j);
    }
  }

  /** The courier of a held row stays available, and no other transaction holds that row. */
  lemma LocksAreExclusive(ss: seq<State>, steps: seq<Step>, n: nat, i: nat, c: int)
    requires Execution(ss, steps) && n < |ss| && i < |ss[n].txns| && Holds(ss[n].txns[i], c)
    ensures IsAvailable(ss[n].tables, c)
    ensures forall j :: 0 <= j < |ss[n].txns| && j != i ==> !Holds(ss[n].txns[j], c)
  {
    Invariant(ss, steps, n);
    var txns := ss[n].txns;
    assert txns[i] in txns;
    forall j | 0 <= j < |txns| && j != i ensures !Holds(txns[j], c) {
      assert Apart(txns[if i < j then i else j], txns[if i < j then j else i]);
    }
  }

  /** Every commit is, on the committed tables of that moment, one whole booking of an available courier for an
      order without a row. Whether that courier is the one the query would offer then is the matter of
      `AssignOrder`. */
  lemma CommitsAreBookings(ss: seq<State>, steps: seq<Step>, i: nat)
    requires Execution(ss, steps) && i < |steps| && steps[i].Commit?
    ensures var before, after, p := ss[i].tables, ss[i + 1].tables, ss[i].txns[steps[i].t];
            && WellFormed(before) && WellFormed(after)
            && IsAvailable(before, p.courier) && p.order !in before.deliveries
            && p.row.courierId == p.courier && p.row.orderId == p.order
            && after == Booked(before, p.row)
  {
    Invariant(ss, steps, i);
    Invariant(ss, steps, i + 1);
    assert ss[i].txns[steps[i].t] in ss[i].txns;
  }

  /** The commit at `i` made courier `c` busy, nothing freed it since, and the row it booked is still there. */
  ghost predicate MadeBusyAt(s: State, c: int, i: nat) {
    i < |s.log| && s.log[i].Committed? && s.log[i].courier == c && !FreedBetween(s.log, c, i, |s.log|) &&
    s.log[i].order in s.tables.deliveries && s.tables.deliveries[s.log[i].order].courierId == c
  }

  ghost predicate BusyHaveRows(s: State) {
    forall c :: c in s.tables.couriers && s.tables.couriers[c].status == Busy ==> exists i: nat :: MadeBusyAt(s, c, i)
  }

  /** Nobody is made busy by hand. */
  ghost predicate NotByHand(step: Step) {
    (step.SetStatus? ==> step.status != Busy) && (step.Hire? ==> step.courier.status != Busy)
  }

  lemma NotFreedByNews(log: seq<Entry>, news: seq<Entry>, c: int, i: nat)
    requires Freed(c) !in news
    ensures FreedBetween(log + news, c, i, |log + news|) ==> FreedBetween(log, c, i, |log|)
  {
    if FreedBetween(log + news, c, i, |log + news|) {
      var k :| i < k < |log + news| && (log + news)[k] == Freed(c);
      assert forall e :: e in news ==> e != Freed(c);
      assert log[k] == Freed(c);
    }
  }

  lemma StepKeepsRows(s: State, step: Step)
    requires LocksOk(s) && Enabled(s, step) && NotByHand(step) && BusyHaveRows(s)
    ensures BusyHaveRows(Next(s, step))
  {
    var s', news, n := Next(s, step), News(s, step), |s.log|;
    assert s'.log == s.log + news;
    forall c | c in s'.tables.couriers && s'.tables.couriers[c].status == Busy
      ensures exists i: nat :: MadeBusyAt(s', c, i)
    {
      assert step.Commit? ==> s.txns[step.t] in s.txns;
      if step.Commit? && s.txns[step.t].courier == c {
        assert MadeBusyAt(s', c, n);
      } else {
        assert c in s.tables.couriers && s.tables.couriers[c].status == Busy;
        var i: nat :| MadeBusyAt(s, c, i);
        NotFreedByNews(s.log, news, c, i);
        assert MadeBusyAt(s', c, i);
      }
    }
  }

  /** In every interleaving without manual busy marks, a busy courier has the row of the commit that made it busy,
      and has not been freed since. */
  lemma {:induction false} BusyCouriersHaveTheirRow(ss: seq<State>, steps: seq<Step>, n: nat)
    requires Execution(ss, steps) && n < |ss| && forall step :: step in steps ==> NotByHand(step)
    requires forall c :: c in ss[0].tables.couriers ==> ss[0].tables.couriers[c].status != Busy
    ensures BusyHaveRows(ss[n])
  {
    if n > 0 {
      BusyCouriersHaveTheirRow(ss, steps, n - 1);
      Invariant(ss, steps, n - 1);
      assert steps[n - 1] in steps;
      StepKeepsRows(ss[n - 1], steps[n - 1]);
    }
  }

  /** Transaction `t` can run all its statements with nothing in between. */
  ghost predicate RunsAlone(s: State, t: nat, raw: string, queue: seq<int>, id: nat, now: int) {
    Enabled(s, Rank(t, raw, queue)) &&
    var s1 := Next(s, Rank(t, raw, queue));
    Enabled(s1, TryHead(t)) &&
    var s2 := Next(s1, TryHead(t));
    Enabled(s2, Insert(t, id, now)) &&
    var s3 := Next(s2, Insert(t, id, now));
    Enabled(s3, Mark(t)) &&
    Enabled(Next(s3, Mark(t)), Commit(t))
  }

  /** Left alone, a transaction commits exactly what the one-step Assign does. */
  lemma {:induction false} AloneIsAssign(s: State, t: nat, raw: string, queue: seq<int>, id: nat, now: int)
    requires RunsAlone(s, t, raw, queue, id, now)
    ensures var s1 := Next(s, Rank(t, raw, queue));
            var s2 := Next(s1, TryHead(t));
            var s3 := Next(s2, Insert(t, id, now));
            var s5 := Next(Next(s3, Mark(t)), Commit(t));
            var (u, r) := AssignOutcome(s.tables, raw, id, now, NoFault);
            r.Ok? && s5.tables == u && s5.log == s.log + [Committed(r.value.orderId, r.value.courierId)]
  {
    assert queue[0] in queue;
    forall d | d in s.tables.couriers && IsAvailable(s.tables, d) ensures Precedes(s.tables, queue[0], d) {
      assert d in queue;
      var i :| 0 <= i < |queue| && queue[i] == d;
    }
    assert IsPick(s.tables, queue[0]);
  }

  /** Nobody holds a lock. */
  ghost predicate NoLocks(s: State) {
    forall p :: p in s.txns ==> p.Resting? || p.Ranked?
  }

  /** Without locks in its way, a transaction can run through exactly when the one-step Assign succeeds. */
  lemma {:induction false} RunsAloneIffAssigns(s: State, t: nat, raw: string, queue: seq<int>, id: nat, now: int)
    requires WellFormed(s.tables) && NoLocks(s) && t < |s.txns| && s.txns[t].Resting? && IsRanking(s.tables, queue)
    ensures RunsAlone(s, t, raw, queue, id, now) <==> AssignOutcome(s.tables, raw, id, now, NoFault).1.Ok?
  {
    if RunsAlone(s, t, raw, queue, id, now) {
      AloneIsAssign(s, t, raw, queue, id, now);
    } else if AssignOutcome(s.tables, raw, id, now, NoFault).1.Ok? {
      HeadIsPick(s.tables, queue);
      CanRunAlone(s, t, raw, queue, id, now);
      assert false;
    }
  }

  lemma HeadIsPick(t: Tables, queue: seq<int>)
    requires IsRanking(t, queue) && SomeAvailable(t)
    ensures queue != [] && IsPick(t, queue[0])
  {
    var c :| IsAvailable(t, c);
    assert c in queue;
    assert queue[0] in queue;
    forall d | d in t.couriers && IsAvailable(t, d) ensures Precedes(t, queue[0], d) {
      assert d in queue;
      var i :| 0 <= i < |queue| && queue[i] == d;
    }
  }

  lemma CanRunAlone(s: State, t: nat, raw: string, queue: seq<int>, id: nat, now: int)
    requires WellFormed(s.tables) && NoLocks(s) && t < |s.txns| && s.txns[t].Resting? && IsRanking(s.tables, queue)
    requires queue != [] && IsPick(s.tables, queue[0]) && AssignOutcome(s.tables, raw, id, now, NoFault).1.Ok?
    ensures RunsAlone(s, t, raw, queue, id, now)
  {
    var s1 := Next(s, Rank(t, raw, queue));
    assert forall p :: p in s1.txns ==> p == s1.txns[t] || p in s.txns;
    var s2 := Next(s1, TryHead(t));
    assert forall p :: p in s2.txns ==> p == s2.txns[t] || p in s.txns;
  }

  /** The other writers wait for the lock of the courier they write, and for nothing else; an Unassign then is the
      one-step Unassign. */
  lemma OtherWritersLaw(s: State, order: string, c: int, status: Status)
    requires WellFormed(s.tables)
    ensures Enabled(s, Unassign(order)) <==>
            order in s.tables.deliveries && Unlocked(s, s.tables.deliveries[order].courierId)
    ensures Enabled(s, Unassign(order)) && Text.TrimSpace(order) == order != "" ==>
              Next(s, Unassign(order)).tables == UnassignOutcome(s.tables, order, NoFault).0
    ensures Enabled(s, SetStatus(c, status)) <==> c in s.tables.couriers && Unlocked(s, c)
    ensures Enabled(s, SetStatus(c, status)) ==>
              var u := Next(s, SetStatus(c, status)).tables;
              u.deliveries == s.tables.deliveries &&
              u.couriers == s.tables.couriers[c := Courier(status, s.tables.couriers[c].transport)]
  {
  }
}
