/** Which courier an interleaved Assign ends up with: the one the query would offer at its commit, or a staler one. */
module AssignOrder {
  import Text
  import opened Basics
  import opened DeliveryTables
  import opened AssignInterleaving

  // ---------- a commit against the one-step Assign

  /** What a transaction has found out stays true of it: its order is trimmed, and its row is the one an Assign
      would write for its courier. */
  ghost predicate RowOk(t: Tables, p: Phase) {
    && (!p.Resting? ==> p.order == Text.TrimSpace(p.order) != "")
    && (p.Inserted? || p.Marked? ==>
          && p.courier in t.couriers && |p.order| <= MAX_ORDER_ID
          && Deadline(t.couriers[p.courier].transport, p.row.assignedAt).Ok?
          && p.row == Delivery(p.row.id, p.courier, p.order, p.row.assignedAt,
                               Deadline(t.couriers[p.courier].transport, p.row.assignedAt).value))
  }

  ghost predicate RowsOk(s: State) {
    forall p :: p in s.txns ==> RowOk(s.tables, p)
  }

  lemma TransportsStay(s: State, step: Step, c: int)
    requires Enabled(s, step) && c in s.tables.couriers
    ensures var t := Next(s, step).tables;
            c in t.couriers && t.couriers[c].transport == s.tables.couriers[c].transport
  {
  }

  lemma RowStays(s: State, step: Step, p: Phase)
    requires Enabled(s, step) && RowOk(s.tables, p)
    ensures RowOk(Next(s, step).tables, p)
  {
    if p.Inserted? || p.Marked? {
      TransportsStay(s, step, p.courier);
    }
  }

  /** Transaction `t` of the phases after a step is as before, or its row is still the right one. */
  lemma MovedRowOk(s: State, step: Step)
    requires Enabled(s, step) && RowsOk(s) && !step.Unassign? && !step.SetStatus? && !step.Hire?
    ensures RowOk(Next(s, step).tables, Next(s, step).txns[step.t])
  {
    assert s.txns[step.t] in s.txns;
    if step.Rank? {
      var lead, trail := Text.TrimSpaceLaw(step.raw);
    }
  }

  lemma StepKeepsRowsOk(s: State, step: Step)
    requires Enabled(s, step) && RowsOk(s)
    ensures RowsOk(Next(s, step))
  {
    var s' := Next(s, step);
    if !step.Unassign? && !step.SetStatus? && !step.Hire? {
      MovedRowOk(s, step);
      assert s'.txns == s.txns[step.t := s'.txns[step.t]];
    }
    hide RowOk, Next, Enabled;
    forall p | p in s'.txns ensures RowOk(s'.tables, p) {
      if p in s.txns {
        RowStays(s, step, p);
      }
    }
  }

  lemma {:induction false} RowsStayOk(ss: seq<State>, steps: seq<Step>, i: nat)
    requires Execution(ss, steps) && i < |ss|
    ensures RowsOk(ss[i])
  {
    if i > 0 {
      RowsStayOk(ss, steps, i - 1);
      StepKeepsRowsOk(ss[i - 1], steps[i - 1]);
    }
  }

  /** A commit is the one-step Assign on the tables of its moment exactly when, of the couriers available then,
      none comes before the one it has locked. */
  lemma CommitIsAssignIff(ss: seq<State>, steps: seq<Step>, i: nat, raw: string)
    requires Execution(ss, steps) && i < |steps| && steps[i].Commit?
    requires Text.TrimSpace(raw) == ss[i].txns[steps[i].t].order
    ensures var t, p := ss[i].tables, ss[i].txns[steps[i].t];
            ss[i + 1].tables == AssignOutcome(t, raw, p.row.id, p.row.assignedAt, NoFault).0 <==>
            forall d :: IsAvailable(t, d) ==> Precedes(t, p.courier, d)
  {
    var s, p := ss[i], ss[i].txns[steps[i].t];
    Invariant(ss, steps, i);
    RowsStayOk(ss, steps, i);
    assert p in s.txns;
    assert PhaseOk(s.tables, p) && RowOk(s.tables, p);
    BookingIsAssignIff(s.tables, p, raw);
  }

  lemma BookingIsAssignIff(t: Tables, p: Phase, raw: string)
    requires WellFormed(t) && p.Marked? && PhaseOk(t, p) && RowOk(t, p) && Text.TrimSpace(raw) == p.order
    ensures Booked(t, p.row) == AssignOutcome(t, raw, p.row.id, p.row.assignedAt, NoFault).0 <==>
            forall d :: IsAvailable(t, d) ==> Precedes(t, p.courier, d)
  {
    var u, c := AssignOutcome(t, raw, p.row.id, p.row.assignedAt, NoFault).0, p.courier;
    assert SomeAvailable(t);
    hide Precedes;
    assert IsPick(t, c) <==> Pick(t) == Some(c);
    if u == Booked(t, p.row) {
      assert p.order in u.deliveries && u.deliveries[p.order] == p.row;
    }
  }

  // ---------- with nobody but Assigns about

  /** Between `m` and `n` every step is one of an Assign, and transaction `t` neither starts nor ends. */
  ghost predicate OnlyAssigns(steps: seq<Step>, m: nat, n: nat, t: nat) {
    n <= |steps| &&
    forall i :: m < i < n ==>
      var step := steps[i];
      && !step.Unassign? && !step.SetStatus? && !step.Hire?
      && (step.t == t ==> step.TryHead? || step.Insert? || step.Mark?)
  }

  /** Everybody available now was available on the snapshot `t0`, with the same rows. */
  ghost predicate Shrunk(t0: Tables, t: Tables) {
    forall d :: IsAvailable(t, d) ==> IsAvailable(t0, d) && Rows(t, d) == Rows(t0, d)
  }

  /** The queue still holds everybody available, in the snapshot's order. */
  ghost predicate QueueOk(t0: Tables, t: Tables, queue: seq<int>) {
    && (forall d :: IsAvailable(t, d) ==> d in queue)
    && (forall i, j :: 0 <= i < j < |queue| ==> Precedes(t0, queue[i], queue[j]))
  }

  ghost predicate Foremost(t: Tables, c: int) {
    forall d :: IsAvailable(t, d) ==> Precedes(t, c, d)
  }

  /** How far transaction `t` has come since its snapshot. */
  ghost predicate OnTrack(t0: Tables, s: State, t: nat, order: string) {
    t < |s.txns| && Shrunk(t0, s.tables) &&
    match s.txns[t]
    case Resting => false
    case Ranked(o, queue) => o == order && QueueOk(t0, s.tables, queue)
    case Locked(o, c) => o == order && Foremost(s.tables, c)
    case Inserted(o, c, _) => o == order && Foremost(s.tables, c)
    case Marked(o, c, _) => o == order && Foremost(s.tables, c)
  }

  lemma RankingIsOnTrack(s: State, t: nat, raw: string, queue: seq<int>)
    requires Enabled(s, Rank(t, raw, queue))
    ensures OnTrack(s.tables, Next(s, Rank(t, raw, queue)), t, Text.TrimSpace(raw))
  {
  }

  /** The first of the queue, if still available, comes before everybody available. */
  lemma HeadIsForemost(t0: Tables, t: Tables, queue: seq<int>)
    requires queue != [] && QueueOk(t0, t, queue) && Shrunk(t0, t) && IsAvailable(t, queue[0])
    ensures Foremost(t, queue[0])
  {
    forall d | IsAvailable(t, d) ensures Precedes(t, queue[0], d) {
      assert d in queue;
      var i :| 0 <= i < |queue| && queue[i] == d;
    }
  }

  lemma TailIsOk(t0: Tables, t: Tables, queue: seq<int>)
    requires queue != [] && QueueOk(t0, t, queue) && !IsAvailable(t, queue[0])
    ensures QueueOk(t0, t, queue[1..])
  {
    forall d | IsAvailable(t, d) ensures d in queue[1..] {
      assert d in queue;
      var i :| 0 <= i < |queue| && queue[i] == d;
      assert queue[1..][i - 1] == d;
    }
  }

  /** A commit takes its courier out of the running and gives nobody else a row. */
  lemma CommitShrinks(t: Tables, row: Delivery)
    requires row.courierId in t.couriers && row.orderId !in t.deliveries
    ensures Shrunk(t, Booked(t, row)) && !IsAvailable(Booked(t, row), row.courierId)
  {
    var u := Booked(t, row);
    forall d | IsAvailable(u, d) ensures IsAvailable(t, d) && Rows(u, d) == Rows(t, d) {
      assert d != row.courierId;
      assert Rows(u, d) == Rows(t, d);
    }
  }

  lemma ShrinkingKeepsTrack(t0: Tables, t: Tables, u: Tables)
    requires Shrunk(t0, t) && Shrunk(t, u)
    ensures Shrunk(t0, u)
    ensures forall queue :: QueueOk(t0, t, queue) ==> QueueOk(t0, u, queue)
    ensures forall c :: IsAvailable(u, c) && Foremost(t, c) ==> Foremost(u, c)
  {
    forall c | IsAvailable(u, c) && Foremost(t, c) ensures Foremost(u, c) {
      forall d | IsAvailable(u, d) ensures Precedes(u, c, d) {
        assert Precedes(t, c, d);
      }
    }
  }

  lemma OwnStepKeepsTrack(t0: Tables, s: State, step: Step, t: nat, order: string)
    requires LocksOk(s) && Enabled(s, step) && OnTrack(t0, s, t, order)
    requires (step.TryHead? || step.Insert? || step.Mark?) && step.t == t
    ensures OnTrack(t0, Next(s, step), t, order)
  {
    if step.TryHead? {
      var queue := s.txns[t].queue;
      if IsAvailable(s.tables, queue[0]) {
        HeadIsForemost(t0, s.tables, queue);
      } else {
        TailIsOk(t0, s.tables, queue);
      }
    }
  }

  lemma OthersKeepTrack(t0: Tables, s: State, step: Step, t: nat, order: string)
    requires LocksOk(s) && Enabled(s, step) && OnTrack(t0, s, t, order)
    requires !step.Unassign? && !step.SetStatus? && !step.Hire? && step.t != t
    ensures OnTrack(t0, Next(s, step), t, order)
  {
    if step.Commit? {
      var me, p, u := s.txns[t], s.txns[step.t], Next(s, step).tables;
      assert me in s.txns && p in s.txns;
      CommitShrinks(s.tables, p.row);
      hide Shrunk, QueueOk, Foremost;
      ShrinkingKeepsTrack(t0, s.tables, u);
      if !me.Ranked? {
        assert Apart(s.txns[if t < step.t then t else step.t], s.txns[if t < step.t then step.t else t]);
        assert Holds(me, me.courier) && Holds(p, p.courier);
        assert me.courier != p.courier && IsAvailable(u, me.courier);
      }
    }
  }

  lemma {:induction false} StaysOnTrack(ss: seq<State>, steps: seq<Step>, m: nat, n: nat, t: nat)
    requires Execution(ss, steps) && m < n && OnlyAssigns(steps, m, n, t)
    requires steps[m].Rank? && steps[m].t == t
    ensures OnTrack(ss[m].tables, ss[n], t, Text.TrimSpace(steps[m].raw))
    decreases n
  {
    if n == m + 1 {
      RankingIsOnTrack(ss[m], t, steps[m].raw, steps[m].queue);
    } else {
      StaysOnTrack(ss, steps, m, n - 1, t);
      Invariant(ss, steps, n - 1);
      var s, step, order := ss[n - 1], steps[n - 1], Text.TrimSpace(steps[m].raw);
      assert Enabled(s, step) && ss[n] == Next(s, step);
      assert !step.Unassign? && !step.SetStatus? && !step.Hire?;
      assert step.t == t ==> step.TryHead? || step.Insert? || step.Mark?;
      hide *;
      if step.t == t {
        OwnStepKeepsTrack(ss[m].tables, s, step, t, order);
      } else {
        OthersKeepTrack(ss[m].tables, s, step, t, order);
      }
    }
  }

  /** As long as only Assigns are about between its ranking and its commit, an Assign comes to what the one-step
      Assign does on the tables of its commit, least (row count, id) first: among themselves, Assigns are serial. */
  lemma {:induction false} AmongAssignsCommitIsAssign(ss: seq<State>, steps: seq<Step>, m: nat, n: nat)
    requires Execution(ss, steps) && m < n < |steps| && steps[m].Rank? && steps[n] == Commit(steps[m].t)
    requires OnlyAssigns(steps, m, n, steps[m].t)
    ensures var t, p := ss[n].tables, ss[n].txns[steps[m].t];
            && Pick(t) == Some(p.courier)
            && ss[n + 1].tables == AssignOutcome(t, steps[m].raw, p.row.id, p.row.assignedAt, NoFault).0
  {
    var t, p := ss[n].tables, ss[n].txns[steps[m].t];
    StaysOnTrack(ss, steps, m, n, steps[m].t);
    Invariant(ss, steps, n);
    assert p in ss[n].txns;
    assert Foremost(t, p.courier) && IsAvailable(t, p.courier);
    assert IsPick(t, p.courier);
    hide OnTrack, IsPick;
    CommitIsAssignIff(ss, steps, n, steps[m].raw);
  }

  // ---------- with a completion in between

  ghost predicate Reaches(ss: seq<State>, steps: seq<Step>, s: State) {
    Execution(ss, steps) && ss[|steps|] == s
  }

  lemma OneMoreStep(ss: seq<State>, steps: seq<Step>, s: State, step: Step) returns (ss': seq<State>, steps': seq<Step>)
    requires Reaches(ss, steps, s) && Enabled(s, step)
    ensures Reaches(ss', steps', Next(s, step)) && ss <= ss' && steps' == steps + [step] && ss'[|steps|] == s
  {
    hide Enabled, Init;
    ss', steps' := ss + [Next(s, step)], steps + [step];
    forall i | 0 <= i < |steps'| ensures Enabled(ss'[i], steps'[i]) && ss'[i + 1] == Next(ss'[i], steps'[i]) {
      assert ss'[i] == ss[i];
      assert i < |steps| ==> steps'[i] == steps[i] && ss'[i + 1] == ss[i + 1];
    }
  }

  /** With no lock held, a ranked transaction whose first choice is still available can go on to its commit. */
  ghost predicate CanFinish(s: State, t: nat, now: int) {
    t < |s.txns| && s.txns[t].Ranked? && s.txns[t].queue != [] &&
    (forall p :: p in s.txns ==> p.Resting? || p.Ranked?) &&
    var c, order := s.txns[t].queue[0], s.txns[t].order;
    IsAvailable(s.tables, c) && order !in s.tables.deliveries && |order| <= MAX_ORDER_ID &&
    Deadline(s.tables.couriers[c].transport, now).Ok?
  }

  lemma Finishes(ss: seq<State>, steps: seq<Step>, s: State, t: nat, id: nat, now: int)
      returns (ss': seq<State>, steps': seq<Step>, marked: State)
    requires Reaches(ss, steps, s) && CanFinish(s, t, now)
    ensures Enabled(marked, Commit(t)) && Reaches(ss', steps', Next(marked, Commit(t)))
    ensures |steps'| == |steps| + 4 && steps <= steps' && steps'[|steps| + 3] == Commit(t) && ss'[|steps| + 3] == marked
    ensures var c, order := s.txns[t].queue[0], s.txns[t].order;
            var row := Delivery(id, c, order, now, Deadline(s.tables.couriers[c].transport, now).value);
            marked == s.(txns := s.txns[t := Marked(order, c, row)])
  {
    hide Reaches;
    var c, order := s.txns[t].queue[0], s.txns[t].order;
    var row := Delivery(id, c, order, now, Deadline(s.tables.couriers[c].transport, now).value);
    ss', steps' := OneMoreStep(ss, steps, s, TryHead(t));
    var locked := s.(txns := s.txns[t := Locked(order, c)]);
    assert locked == Next(s, TryHead(t));
    assert forall p :: p in locked.txns ==> p == Locked(order, c) || p in s.txns;
    ss', steps' := OneMoreStep(ss', steps', locked, Insert(t, id, now));
    var inserted := s.(txns := s.txns[t := Inserted(order, c, row)]);
    assert inserted == Next(locked, Insert(t, id, now)) by {
      assert locked.txns[t := Inserted(order, c, row)] == inserted.txns;
    }
    ss', steps' := OneMoreStep(ss', steps', inserted, Mark(t));
    marked := s.(txns := s.txns[t := Marked(order, c, row)]);
    assert marked == Next(inserted, Mark(t)) by {
      assert inserted.txns[t := Marked(order, c, row)] == marked.txns;
    }
    ss', steps' := OneMoreStep(ss', steps', marked, Commit(t));
  }

  const IDLE_COURIER := Courier(Available, Car)
  const TWO_IDLE := Tables(map[1 := IDLE_COURIER, 2 := IDLE_COURIER], map[])

  /** Courier 1 has delivered "a" and is available again. */
  const DELIVERED := Tables(map[1 := IDLE_COURIER, 2 := IDLE_COURIER], map["a" := Delivery(1, 1, "a", 0, 5 * MINUTE)])

  const BOTH_RANKED := State(TWO_IDLE, [Ranked("a", [1, 2]), Ranked("b", [1, 2])], [])
  const ONE_TO_GO := State(DELIVERED, [Resting, Ranked("b", [1, 2])], [Committed("a", 1), Freed(1)])

  lemma BothRank() returns (ss: seq<State>, steps: seq<Step>)
    ensures Reaches(ss, steps, BOTH_RANKED) && |steps| == 2
    ensures steps[1] == Rank(1, "b", [1, 2])
  {
    Text.OneLetterIsTrimmed('a');
    Text.OneLetterIsTrimmed('b');
    hide Text.TrimSpace;
    var start := State(TWO_IDLE, [Resting, Resting], []);
    ss, steps := [start], [];
    assert Reaches(ss, steps, start);
    hide Reaches;
    assert Rows(TWO_IDLE, 1) == Rows(TWO_IDLE, 2) == {};
    assert IsRanking(TWO_IDLE, [1, 2]) by {
      assert [1, 2][0] == 1 && [1, 2][1] == 2;
    }
    ss, steps := OneMoreStep(ss, steps, start, Rank(0, "a", [1, 2]));
    var first := start.(txns := [Ranked("a", [1, 2]), Resting]);
    assert first == Next(start, Rank(0, "a", [1, 2]));
    ss, steps := OneMoreStep(ss, steps, first, Rank(1, "b", [1, 2]));
    assert BOTH_RANKED == Next(first, Rank(1, "b", [1, 2]));
  }

  lemma FirstDelivers(ss: seq<State>, steps: seq<Step>) returns (ss': seq<State>, steps': seq<Step>)
    requires Reaches(ss, steps, BOTH_RANKED)
    ensures Reaches(ss', steps', ONE_TO_GO)
    ensures |steps'| == |steps| + 5 && steps <= steps' && steps'[|steps| + 4] == SetStatus(1, Available)
  {
    hide Reaches;
    var marked: State;
    ss', steps', marked := Finishes(ss, steps, BOTH_RANKED, 0, 1, 0);
    var booked := Next(marked, Commit(0));
    assert booked.tables.couriers == map[1 := IDLE_COURIER.(status := Busy), 2 := IDLE_COURIER];
    assert booked.tables.deliveries == DELIVERED.deliveries;
    assert booked.txns == ONE_TO_GO.txns && booked.log == [Committed("a", 1)];
    ss', steps' := OneMoreStep(ss', steps', booked, SetStatus(1, Available));
    assert Next(booked, SetStatus(1, Available)).tables.couriers == DELIVERED.couriers;
    assert Next(booked, SetStatus(1, Available)).log == ONE_TO_GO.log;
  }

  /** A completion in between is enough: the second Assign still goes by the ranking it took before the first one's
      commit, finds courier 1 available again, and takes it, although courier 2 has no row and would be the pick. */
  lemma StalePickHappens() returns (ss: seq<State>, steps: seq<Step>)
    ensures Execution(ss, steps) && |steps| == 11 && steps[10] == Commit(1)
    ensures steps[1] == Rank(1, "b", [1, 2]) && steps[6] == SetStatus(1, Available)
    ensures ss[10].txns[1].Marked? && ss[10].txns[1].courier == 1 && Pick(ss[10].tables) == Some(2)
    ensures var rows := ss[11].tables.deliveries;
            "a" in rows && "b" in rows && rows["a"].courierId == rows["b"].courierId == 1
  {
    ss, steps := BothRank();
    ss, steps := FirstDelivers(ss, steps);
    SecondIsStale();
    hide CanFinish;
    var marked: State;
    ss, steps, marked := Finishes(ss, steps, ONE_TO_GO, 1, 2, 0);
  }

  lemma SecondIsStale()
    ensures CanFinish(ONE_TO_GO, 1, 0) && Pick(DELIVERED) == Some(2)
  {
    assert Rows(DELIVERED, 1) == {"a"} && Rows(DELIVERED, 2) == {};
    assert IsPick(DELIVERED, 2);
  }

  /** No serial order gives both orders to one courier: whichever Assign comes first takes courier 1, and the other
      takes courier 2, whether courier 1 is made available again before both, between them or after. */
  lemma NoSerialOrderGivesOneBoth(x: char, y: char, a: nat, b: nat, now: int)
    requires x != y && !Text.IsSpace(x) && !Text.IsSpace(y)
    ensures WithStatus(TWO_IDLE, 1, Available) == TWO_IDLE
    ensures var t := AssignOutcome(TWO_IDLE, [x], a, now, NoFault).0;
            && [x] in t.deliveries && t.deliveries[[x]].courierId == 1 && 1 in t.couriers
            && forall between :: between in [t, WithStatus(t, 1, Available)] ==>
                 var u := AssignOutcome(between, [y], b, now, NoFault).0;
                 && [x] in u.deliveries && u.deliveries[[x]].courierId == 1 && 1 in u.couriers
                 && [y] in u.deliveries && u.deliveries[[y]].courierId == 2
                 && WithStatus(u, 1, Available).deliveries == u.deliveries
  {
    Text.OneLetterIsTrimmed(x);
    Text.OneLetterIsTrimmed(y);
    hide Text.TrimSpace;
    assert TWO_IDLE.couriers[1 := IDLE_COURIER] == TWO_IDLE.couriers;
    assert Rows(TWO_IDLE, 1) == Rows(TWO_IDLE, 2) == {};
    assert IsPick(TWO_IDLE, 1);
    var t := AssignOutcome(TWO_IDLE, [x], a, now, NoFault).0;
    assert t.deliveries.Keys == {[x]} && [x][0] != [y][0];
    forall between | between in [t, WithStatus(t, 1, Available)] ensures IsPick(between, 2) {
      assert Rows(between, 1) == {[x]} && Rows(between, 2) == {};
    }
  }
}
