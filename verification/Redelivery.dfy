/** Runs in which redelivery matters: a creation that blocks its partition the second time, and lost marks that end
    in other tables than any clean pass. */
module Redelivery {
  import opened Basics
  import opened Text
  import opened DeliveryTables
  import opened Orders
  import opened Worker
  import opened WorkerRuns
  import C = ClaimLoop

  const IDLE := Tables(map[1 := Courier(Available, Car)], map[])

  /** The only courier is on its way with order `o`. */
  function OnTheWay(o: char, id: nat, now: int): Tables {
    Tables(map[1 := Courier(Busy, Car)], map[[o] := Delivery(id, 1, [o], now, now + 5 * MINUTE)])
  }

  function Create(o: char): C.Message {
    C.Payload([o], "created")
  }

  function Cancel(o: char): C.Message {
    C.Payload([o], "canceled")
  }

  lemma PlainWord(word: string)
    requires word in BY_STATUS && Trimmed(word) && forall i :: 0 <= i < |word| ==> word[i] > 'Z'
    ensures TrimSpace(word) == word && ActionFor(word) == Some(BY_STATUS[word])
  {
    hide TrimSpace, Trimmed, BY_STATUS;
    LowerKeeps(word);
    TrimmedStays(word);
    hide Lower;
  }

  lemma Actions()
    ensures TrimSpace("created") == "created" && ActionFor("created") == Some(OnCreated)
    ensures TrimSpace("canceled") == "canceled" && ActionFor("canceled") == Some(OnCanceled)
  {
    hide TrimSpace, ActionFor;
    WordsDiffer();
    PlainWord("created");
    PlainWord("canceled");
  }

  lemma ProcessIsOutcome(t: Tables, m: C.Message, h: Handling)
    requires WellFormed(t) && m.Payload? && EventOf(m).orderId != ""
    ensures var (u, r) := Outcome(t, EventOf(m), h);
            Process(t, m, NoGateway, h) == (u, if r.Ok? then C.Done else C.WillRetry)
  {
    hide Outcome, TrimSpace;
  }

  lemma OutcomeByAction(t: Tables, e: Event, h: Handling)
    requires WellFormed(t)
    ensures ActionFor(e.status) == Some(OnCreated) ==>
              var (u, r) := AssignOutcome(t, e.orderId, h.id, h.now, h.fault);
              Outcome(t, e, h) == (u, if r.Ok? || r.error == Conflict then Ok(()) else Err(r.error))
    ensures ActionFor(e.status) == Some(OnCanceled) ==>
              var (u, r) := UnassignOutcome(t, e.orderId, h.fault);
              Outcome(t, e, h) == (u, if r.Ok? || r.error == NotFound then Ok(()) else Err(r.error))
  {
    hide ActionFor, AssignOutcome, UnassignOutcome, CompleteOutcome;
  }

  lemma CreationAssigns(t: Tables, o: char, a: Handling)
    requires WellFormed(t) && !IsSpace(o)
    ensures var (u, r) := AssignOutcome(t, [o], a.id, a.now, a.fault);
            Process(t, Create(o), NoGateway, a) ==
              (u, if r.Ok? || r.error == Conflict then C.Done else C.WillRetry)
  {
    Actions();
    OneLetterIsTrimmed(o);
    hide Outcome, Process, TrimSpace, ActionFor, AssignOutcome, UnassignOutcome;
    ProcessIsOutcome(t, Create(o), a);
    OutcomeByAction(t, EventOf(Create(o)), a);
  }

  lemma CancellationUnassigns(t: Tables, o: char, a: Handling)
    requires WellFormed(t) && !IsSpace(o)
    ensures var (u, r) := UnassignOutcome(t, [o], a.fault);
            Process(t, Cancel(o), NoGateway, a) ==
              (u, if r.Ok? || r.error == NotFound then C.Done else C.WillRetry)
  {
    Actions();
    OneLetterIsTrimmed(o);
    hide Outcome, Process, TrimSpace, ActionFor, AssignOutcome, UnassignOutcome;
    ProcessIsOutcome(t, Cancel(o), a);
    OutcomeByAction(t, EventOf(Cancel(o)), a);
  }

  lemma CreationTakesTheCourier(o: char, a: Handling)
    requires !IsSpace(o) && a.fault == NoFault
    ensures Process(IDLE, Create(o), NoGateway, a) == (OnTheWay(o, a.id, a.now), C.Done)
  {
    hide Process;
    CreationAssigns(IDLE, o, a);
    OneLetterIsTrimmed(o);
    hide TrimSpace;
    assert IsPick(IDLE, 1);
    assert AssignOutcome(IDLE, [o], a.id, a.now, NoFault).0 == OnTheWay(o, a.id, a.now);
  }

  lemma CreationIsRefused(o: char, id: nat, now: int, p: char, a: Handling)
    requires !IsSpace(p) && a.fault == NoFault
    ensures var t := OnTheWay(o, id, now);
            WellFormed(t) && Process(t, Create(p), NoGateway, a) == (t, C.Done)
  {
    hide Process;
    CreationAssigns(OnTheWay(o, id, now), p, a);
    OneLetterIsTrimmed(p);
    hide TrimSpace;
  }

  lemma CancellationReturnsTheCourier(o: char, id: nat, now: int, a: Handling)
    requires !IsSpace(o) && a.fault == NoFault
    ensures var t := OnTheWay(o, id, now);
            WellFormed(t) && Process(t, Cancel(o), NoGateway, a) == (IDLE, C.Done)
  {
    hide Process;
    var t := OnTheWay(o, id, now);
    CancellationUnassigns(t, o, a);
    OneLetterIsTrimmed(o);
    hide TrimSpace;
    assert t.deliveries - {[o]} == map[];
    assert UnassignOutcome(t, [o], NoFault).0 == IDLE;
  }

  lemma CancellationFindsNothing(o: char, id: nat, now: int, p: char, a: Handling)
    requires !IsSpace(p) && p != o && a.fault == NoFault
    ensures var t := OnTheWay(o, id, now);
            WellFormed(t) && Process(t, Cancel(p), NoGateway, a) == (t, C.Done)
  {
    hide Process;
    CancellationUnassigns(OnTheWay(o, id, now), p, a);
    OneLetterIsTrimmed(p);
    hide TrimSpace;
    assert [p][0] != [o][0];
  }

  // ---------- one message, delivered again

  /** Two idle couriers: the creation of "a" takes one of them and is done with; delivered again, it is to be retried
      whenever it is tried, since the other courier is still available. */
  lemma RedeliveredCreationBlocks(a: Handling, b: Handling)
    requires a.fault == b.fault == NoFault
    ensures var idle := Courier(Available, Car);
            var (t, fate) := Process(Tables(map[1 := idle, 2 := idle], map[]), Create('a'), NoGateway, a);
            && fate == C.Done && WellFormed(t) && "a" in t.deliveries
            && Process(t, Create('a'), NoGateway, b) == (t, C.WillRetry)
  {
    hide Process;
    var idle := Courier(Available, Car);
    var two := Tables(map[1 := idle, 2 := idle], map[]);
    CreationAssigns(two, 'a', a);
    OneLetterIsTrimmed('a');
    hide TrimSpace;
    assert Rows(two, 1) == Rows(two, 2) == {};
    assert IsPick(two, 1);
    var t := AssignOutcome(two, "a", a.id, a.now, NoFault).0;
    assert IsAvailable(t, 2) && "a" in t.deliveries;
    CreationAssigns(t, 'a', b);
  }

  // ---------- a log, delivered again in part

  const LOG: seq<C.Message> := [Create('a'), Create('b'), Cancel('a')]

  /** The first session handles everything, but only its first mark is kept; the second handles the rest again. */
  const PLANS: seq<C.Plan> :=
    var handled := [C.Handled, C.Handled, C.Handled];
    [C.Plan(handled, 3, 1), C.Plan(handled, 3, 3)]

  const TRACE: seq<C.Attempt> :=
    [C.Attempt(0, C.Done), C.Attempt(1, C.Done), C.Attempt(2, C.Done), C.Attempt(1, C.Done), C.Attempt(2, C.Done)]

  /** Message `offset` handled without a fault, with no orders service to ask. */
  function CleanTry(offset: nat, h: Handling): Act {
    Try(C.Attempt(offset, C.Done), Input(NoGateway, h))
  }

  function Once(h: Handling): seq<Act> {
    [CleanTry(0, h), CleanTry(1, h), CleanTry(2, h)]
  }

  function Acts(h: Handling): seq<Act> {
    Once(h) + [CleanTry(1, h)] + [CleanTry(2, h)]
  }

  lemma SessionHandlesAll(from: nat)
    requires from <= 3
    ensures var handled := [C.Handled, C.Handled, C.Handled];
            && C.MarkAfter(LOG, handled, from, 3) == 3
            && C.SessionTrace(LOG, handled, from, 3) == TRACE[from..3]
  {
    var handled := [C.Handled, C.Handled, C.Handled];
    OneLetterIsTrimmed('a');
    OneLetterIsTrimmed('b');
    hide TrimSpace;
    C.MarkLaw(LOG, handled, from, 3);
    C.TraceLaw(LOG, handled, from, 3);
  }

  lemma RunLosesTwoMarks()
    ensures C.IsRun(LOG, PLANS) && LosesAtMost(LOG, PLANS, 2) && C.Trace(LOG, PLANS, 2) == TRACE
  {
    SessionHandlesAll(0);
    SessionHandlesAll(1);
    assert C.Position(PLANS, 0) == 0 && C.Position(PLANS, 1) == 1;
    hide C.MarkAfter, C.SessionTrace;
    assert C.Trace(LOG, PLANS, 1) == TRACE[0..3];
  }

  lemma {:induction false} AlreadyClean(acts: seq<Act>)
    requires forall a :: a in acts ==> !Retried(a) && FaultFree(a) == a
    ensures Clean(acts) == acts
  {
    if acts != [] {
      var n := |acts| - 1;
      assert acts[n] in acts;
      AlreadyClean(acts[..n]);
      assert acts == acts[..n] + [acts[n]];
    }
  }

  lemma {:induction false} OwnUndisturbed(acts: seq<Act>)
    requires forall a :: a in acts ==> a.Try?
    ensures Undisturbed(acts)
  {
    hide Again;
    if acts != [] {
      OwnUndisturbed(acts[..|acts| - 1]);
    }
  }

  lemma {:induction false} OwnAttempts(acts: seq<Act>)
    requires forall a :: a in acts ==> a.Try?
    ensures Others(acts) == []
    ensures |Attempts(acts)| == |acts| && forall i :: 0 <= i < |acts| ==> Attempts(acts)[i] == acts[i].attempt
  {
    if acts != [] {
      assert acts[|acts| - 1] in acts;
      OwnAttempts(acts[..|acts| - 1]);
    }
  }

  lemma ActsAreOwn(h: Handling)
    requires h.fault == NoFault
    ensures Attempts(Acts(h)) == TRACE && Others(Acts(h)) == []
    ensures Clean(Acts(h)) == Acts(h) && Undisturbed(Acts(h)) && SameLookups(Acts(h))
  {
    AlreadyClean(Acts(h));
    OwnUndisturbed(Acts(h));
    OwnAttempts(Acts(h));
    hide Attempts, Others, Undisturbed, Clean;
    assert Attempts(Acts(h)) == TRACE;
  }

  /** A pass in which nobody else takes part is made of its attempts. */
  lemma {:induction false} NobodyElse(acts: seq<Act>)
    requires Others(acts) == []
    ensures |Attempts(acts)| == |acts|
    ensures forall i :: 0 <= i < |acts| ==> acts[i].Try? && acts[i].attempt == Attempts(acts)[i]
  {
    if acts != [] {
      NobodyElse(acts[..|acts| - 1]);
    }
  }

  ghost predicate Leads(acts: seq<Act>, t: Tables) {
    OnLog(LOG, acts) && Faithful(IDLE, LOG, acts) && Through(IDLE, LOG, acts) == t
  }

  lemma OneMore(acts: seq<Act>, t: Tables, offset: nat, h: Handling, u: Tables)
    requires Leads(acts, t) && WellFormed(t)
    requires offset < |LOG| && Process(t, LOG[offset], NoGateway, h) == (u, C.Done)
    ensures Leads(acts + [CleanTry(offset, h)], u)
  {
    hide Process, Through, Faithful, LOG;
    ThroughOneMore(IDLE, LOG, acts, CleanTry(offset, h));
  }

  lemma NothingLeads()
    ensures Leads([], IDLE) && WellFormed(IDLE)
  {
  }

  lemma CourierTaken(h: Handling)
    requires h.fault == NoFault
    ensures Leads([CleanTry(0, h)] + [CleanTry(1, h)], OnTheWay('a', h.id, h.now))
  {
    NothingLeads();
    hide Process, Leads;
    CreationTakesTheCourier('a', h);
    OneMore([], IDLE, 0, h, OnTheWay('a', h.id, h.now));
    assert [] + [CleanTry(0, h)] == [CleanTry(0, h)];
    CreationIsRefused('a', h.id, h.now, 'b', h);
    OneMore([CleanTry(0, h)], OnTheWay('a', h.id, h.now), 1, h, OnTheWay('a', h.id, h.now));
  }

  /** Created "a", created "b", canceled "a": handled once each, they leave the tables as they were. */
  lemma OncePerMessage(h: Handling)
    requires h.fault == NoFault
    ensures Leads(Once(h), IDLE)
  {
    assert LOG[2] == Cancel('a') && |LOG| == 3;
    assert [CleanTry(0, h)] + [CleanTry(1, h)] + [CleanTry(2, h)] == Once(h);
    hide *;
    CourierTaken(h);
    CancellationReturnsTheCourier('a', h.id, h.now, h);
    OneMore([CleanTry(0, h)] + [CleanTry(1, h)], OnTheWay('a', h.id, h.now), 2, h, IDLE);
  }

  /** The same, and then the last two once more. */
  lemma PairAgain(h: Handling)
    requires h.fault == NoFault
    ensures Leads(Acts(h), OnTheWay('b', h.id, h.now))
  {
    OncePerMessage(h);
    hide Process, Leads, Once;
    CreationTakesTheCourier('b', h);
    OneMore(Once(h), IDLE, 1, h, OnTheWay('b', h.id, h.now));
    CancellationFindsNothing('b', h.id, h.now, 'a', h);
    OneMore(Once(h) + [CleanTry(1, h)], OnTheWay('b', h.id, h.now), 2, h, OnTheWay('b', h.id, h.now));
  }

  lemma ActIsItsHandling(h: Handling, a: Act)
    requires a in Acts(h)
    ensures a.Try? && a == CleanTry(a.attempt.offset, h)
  {
  }

  lemma ThreeHandlings(h: Handling, pass: seq<Act>)
    requires |pass| == |LOG| && forall i :: 0 <= i < |pass| ==> pass[i] == CleanTry(i, h)
    ensures pass == Once(h)
  {
    assert |pass| == 3;
  }

  /** There is only one clean pass over the whole log. */
  lemma OnlyOnePass(h: Handling, pass: seq<Act>)
    requires h.fault == NoFault && OnLog(LOG, Acts(h)) && IsOneCleanPass(IDLE, LOG, Acts(h), pass, |LOG|)
    ensures pass == Once(h)
  {
    ActsAreOwn(h);
    PassParts(Acts(h), pass, |LOG|);
    NobodyElse(pass);
    hide *;
    forall i | 0 <= i < |pass| ensures pass[i] == CleanTry(i, h) {
      SubsequenceWithin(pass, Acts(h), pass[i]);
      ActIsItsHandling(h, pass[i]);
      OffsetIsPlace(pass, i);
    }
    ThreeHandlings(h, pass);
  }

  lemma OffsetIsPlace(pass: seq<Act>, i: nat)
    requires Others(pass) == [] && InTurn(Attempts(pass)) && i < |pass|
    ensures pass[i].Try? && pass[i].attempt.offset == i
  {
    NobodyElse(pass);
    hide Attempts, Others;
  }

  lemma PassParts(acts: seq<Act>, pass: seq<Act>, position: nat)
    requires OnLog(LOG, acts) && IsOneCleanPass(IDLE, LOG, acts, pass, position)
    ensures Subsequence(pass, Clean(acts)) && Others(pass) == Others(acts)
    ensures InTurn(Attempts(pass)) && position <= |Attempts(pass)| <= |LOG|
    ensures OnLog(LOG, pass) && Through(IDLE, LOG, pass) == Through(IDLE, LOG, acts)
  {
    hide Subsequence, Clean, Others, InTurn, Attempts, Through, OnLog, LOG, IDLE;
  }

  lemma ActsAreRun(h: Handling)
    requires Leads(Acts(h), OnTheWay('b', h.id, h.now)) && Attempts(Acts(h)) == TRACE
    ensures RunOf(IDLE, LOG, PLANS, Acts(h), 2) && C.Position(PLANS, |PLANS|) == |LOG|
  {
    RunLosesTwoMarks();
    hide Through, Attempts, Faithful, C.IsRun, LosesAtMost, C.Trace, Acts, TRACE;
  }

  lemma EndsElsewhere(h: Handling, pass: seq<Act>)
    requires h.fault == NoFault && Leads(Acts(h), OnTheWay('b', h.id, h.now)) && Leads(Once(h), IDLE)
    ensures !IsOneCleanPass(IDLE, LOG, Acts(h), pass, |LOG|)
  {
    assert OnTheWay('b', h.id, h.now).couriers[1] != IDLE.couriers[1];
    hide Attempts, Others, Clean, Acts, Once, Faithful, Through, LOG, OnTheWay, IDLE;
    if IsOneCleanPass(IDLE, LOG, Acts(h), pass, |LOG|) {
      OnlyOnePass(h, pass);
    }
  }

  /** Two marks that get lost cost more than repeated work: this run of fault-free handlings, with nobody else about,
      ends with order "b" on its way, whereas the only clean pass over the log leaves no row at all. */
  lemma LostMarksHappen(h: Handling)
    requires h.fault == NoFault
    ensures RunOf(IDLE, LOG, PLANS, Acts(h), 2) && C.Position(PLANS, |PLANS|) == |LOG|
    ensures Undisturbed(Clean(Acts(h))) && SameLookups(Clean(Acts(h))) && Others(Acts(h)) == []
    ensures Leads(Acts(h), OnTheWay('b', h.id, h.now)) && Leads(Once(h), IDLE)
    ensures forall pass :: !IsOneCleanPass(IDLE, LOG, Acts(h), pass, |LOG|)
  {
    ActsAreOwn(h);
    PairAgain(h);
    OncePerMessage(h);
    hide *;
    ActsAreRun(h);
    forall pass ensures !IsOneCleanPass(IDLE, LOG, Acts(h), pass, |LOG|) {
      EndsElsewhere(h, pass);
    }
  }

  // ---------- how many marks a session may lose

  /** In every run that loses at most `d` marks a session, in which nothing of anybody else stands right before a
      message handled again and the orders service does not change its mind about one, the tables are those of one
      clean pass. */
  ghost predicate CleanPassWithLosses(d: nat) {
    forall t, log, plans, acts ::
      RunOf(t, log, plans, acts, d) && Undisturbed(Clean(acts)) && SameLookups(Clean(acts)) ==>
        exists pass :: IsOneCleanPass(t, log, acts, pass, C.Position(plans, |plans|))
  }

  lemma LosingLessIsLosing(log: seq<C.Message>, plans: seq<C.Plan>, d: nat, e: nat)
    requires C.IsRun(log, plans) && LosesAtMost(log, plans, d) && d <= e
    ensures LosesAtMost(log, plans, e)
  {
  }

  /** One mark a session may get lost, and no more. */
  lemma CleanPassIffAtMostOneLost(d: nat)
    ensures CleanPassWithLosses(d) <==> d <= 1
  {
    if d <= 1 {
      forall t, log, plans, acts
        | RunOf(t, log, plans, acts, d) && Undisturbed(Clean(acts)) && SameLookups(Clean(acts))
        ensures exists pass :: IsOneCleanPass(t, log, acts, pass, C.Position(plans, |plans|))
      {
        LosingLessIsLosing(log, plans, d, 1);
        OneLostMarkIsHarmless(t, log, plans, acts);
      }
    } else {
      var h := Handling(1, 0, NoFault);
      LostMarksHappen(h);
      LosingLessIsLosing(LOG, PLANS, 2, d);
      assert RunOf(IDLE, LOG, PLANS, Acts(h), d);
    }
  }
}
