/** A run in which others come in between: then a single lost mark is enough to end in tables that no clean pass
    leads to. */
module DisturbedRedelivery {
  import Text
  import opened DeliveryTables
  import DeliveryRuns
  import opened Orders
  import opened Worker
  import opened WorkerRuns
  import opened Redelivery
  import C = ClaimLoop

  /** Each of two sessions handles the first message, and the first one's mark is lost. */
  const SHORT_PLANS: seq<C.Plan> :=
    var handled := [C.Handled, C.Handled, C.Handled];
    [C.Plan(handled, 1, 0), C.Plan(handled, 1, 1)]

  function AssignB(h: Handling): Act {
    Other(DeliveryRuns.Assign("b", h.id, h.now, NoFault))
  }

  const UNASSIGN_A: Act := Other(DeliveryRuns.Unassign("a", NoFault))

  /** Created "a"; somebody else asks in vain for a courier for "b", and takes "a" off its courier;
      created "a" again. */
  function Disturbed(h: Handling): seq<Act> {
    [CleanTry(0, h)] + [AssignB(h)] + [UNASSIGN_A] + [CleanTry(0, h)]
  }

  lemma OneOther(acts: seq<Act>, t: Tables, a: Act, u: Tables)
    requires Leads(acts, t) && WellFormed(t) && a.Other? && DeliveryRuns.Apply(t, a.op).0 == u
    ensures Leads(acts + [a], u)
  {
    hide Through, Faithful, LOG, DeliveryRuns.Apply;
    ThroughOneMore(IDLE, LOG, acts, a);
  }

  lemma AssignBOutcome(h: Handling)
    requires h.fault == NoFault
    ensures DeliveryRuns.Apply(IDLE, AssignB(h).op).0 == OnTheWay('b', h.id, h.now)
    ensures var t := OnTheWay('a', h.id, h.now); WellFormed(t) && DeliveryRuns.Apply(t, AssignB(h).op).0 == t
  {
    CreationTakesTheCourier('b', h);
    CreationAssigns(IDLE, 'b', h);
    CreationIsRefused('a', h.id, h.now, 'b', h);
    CreationAssigns(OnTheWay('a', h.id, h.now), 'b', h);
    hide Process, AssignOutcome, OnTheWay, IDLE;
  }

  lemma UnassignAOutcome(h: Handling)
    requires h.fault == NoFault
    ensures var t := OnTheWay('a', h.id, h.now); WellFormed(t) && DeliveryRuns.Apply(t, UNASSIGN_A.op).0 == IDLE
    ensures var t := OnTheWay('b', h.id, h.now); WellFormed(t) && DeliveryRuns.Apply(t, UNASSIGN_A.op).0 == t
  {
    CancellationReturnsTheCourier('a', h.id, h.now, h);
    CancellationUnassigns(OnTheWay('a', h.id, h.now), 'a', h);
    CancellationFindsNothing('b', h.id, h.now, 'a', h);
    CancellationUnassigns(OnTheWay('b', h.id, h.now), 'a', h);
    hide Process, UnassignOutcome, OnTheWay, IDLE;
  }

  lemma CreateA(acts: seq<Act>, h: Handling)
    requires h.fault == NoFault && Leads(acts, IDLE)
    ensures Leads(acts + [CleanTry(0, h)], OnTheWay('a', h.id, h.now))
  {
    assert LOG[0] == Create('a') && |LOG| == 3;
    CreationTakesTheCourier('a', h);
    assert WellFormed(IDLE);
    hide *;
    OneMore(acts, IDLE, 0, h, OnTheWay('a', h.id, h.now));
  }

  lemma CreateAInVain(acts: seq<Act>, h: Handling)
    requires h.fault == NoFault && Leads(acts, OnTheWay('b', h.id, h.now))
    ensures Leads(acts + [CleanTry(0, h)], OnTheWay('b', h.id, h.now))
  {
    assert LOG[0] == Create('a') && |LOG| == 3;
    CreationIsRefused('b', h.id, h.now, 'a', h);
    hide *;
    OneMore(acts, OnTheWay('b', h.id, h.now), 0, h, OnTheWay('b', h.id, h.now));
  }

  lemma DisturbedLeads(h: Handling)
    requires h.fault == NoFault
    ensures Leads(Disturbed(h), OnTheWay('a', h.id, h.now))
    ensures Leads([CleanTry(0, h)] + [AssignB(h)] + [UNASSIGN_A], IDLE)
  {
    NothingLeads();
    AssignBOutcome(h);
    UnassignAOutcome(h);
    hide Leads, OnTheWay, IDLE, UNASSIGN_A, CleanTry, DeliveryRuns.Apply, WellFormed;
    var a := OnTheWay('a', h.id, h.now);
    CreateA([], h);
    assert [] + [CleanTry(0, h)] == [CleanTry(0, h)];
    OneOther([CleanTry(0, h)], a, AssignB(h), a);
    OneOther([CleanTry(0, h)] + [AssignB(h)], a, UNASSIGN_A, IDLE);
    CreateA([CleanTry(0, h)] + [AssignB(h)] + [UNASSIGN_A], h);
  }

  lemma BGoesFirst(h: Handling)
    requires h.fault == NoFault
    ensures Leads([AssignB(h)] + [CleanTry(0, h)] + [UNASSIGN_A], OnTheWay('b', h.id, h.now))
    ensures Leads([AssignB(h)] + [UNASSIGN_A] + [CleanTry(0, h)], OnTheWay('b', h.id, h.now))
  {
    NothingLeads();
    AssignBOutcome(h);
    UnassignAOutcome(h);
    hide Leads, OnTheWay, IDLE, UNASSIGN_A, CleanTry, DeliveryRuns.Apply, WellFormed;
    var b := OnTheWay('b', h.id, h.now);
    OneOther([], IDLE, AssignB(h), b);
    assert [] + [AssignB(h)] == [AssignB(h)];
    CreateAInVain([AssignB(h)], h);
    OneOther([AssignB(h)] + [CleanTry(0, h)], b, UNASSIGN_A, b);
    OneOther([AssignB(h)], b, UNASSIGN_A, b);
    CreateAInVain([AssignB(h)] + [UNASSIGN_A], h);
  }

  /** Three places for one attempt among two acts of others. */
  lemma ThreePlaces(pass: seq<Act>, a: Act, x: Act, y: Act)
    requires a.Try? && x.Other? && y.Other? && Others(pass) == [x.op] + [y.op] && |Attempts(pass)| == 1
    requires forall b :: b in pass && b.Try? ==> b == a
    ensures pass == [a] + [x] + [y] || pass == [x] + [a] + [y] || pass == [x] + [y] + [a]
  {
    OthersAndAttempts(pass);
    var p, q, r := pass[0], pass[1], pass[2];
    assert p in pass && q in pass && r in pass;
    assert pass == [] + [p] + [q] + [r];
    OthersOneMore([], p);
    OthersOneMore([] + [p], q);
    OthersOneMore([] + [p] + [q], r);
    hide Attempts, Others;
    var others := Others(pass);
    assert others[0] == x.op && others[1] == y.op;
    if p.Try? {
      assert others == [q.op] + [r.op] && q == x && r == y;
    } else if q.Try? {
      assert others == [p.op] + [r.op] && p == x && r == y;
    } else {
      assert others[0] == p.op && others[1] == q.op && p == x && q == y;
    }
  }

  lemma OthersOneMore(acts: seq<Act>, a: Act)
    ensures Others([]) == [] && Attempts([]) == []
    ensures Others(acts + [a]) == if a.Other? then Others(acts) + [a.op] else Others(acts)
    ensures Attempts(acts + [a]) == if a.Try? then Attempts(acts) + [a.attempt] else Attempts(acts)
  {
    assert (acts + [a])[..|acts|] == acts;
  }

  lemma {:induction false} OthersAndAttempts(acts: seq<Act>)
    ensures |Attempts(acts)| + |Others(acts)| == |acts|
  {
    if acts != [] {
      OthersAndAttempts(acts[..|acts| - 1]);
    }
  }

  lemma {:induction false} AttemptIsAct(acts: seq<Act>, i: nat) returns (a: Act)
    requires i < |Attempts(acts)|
    ensures a in acts && a.Try? && a.attempt == Attempts(acts)[i]
  {
    var n := |acts| - 1;
    if i < |Attempts(acts[..n])| {
      a := AttemptIsAct(acts[..n], i);
    } else {
      a := acts[n];
    }
  }

  lemma SessionHandlesFirst()
    ensures var handled := [C.Handled, C.Handled, C.Handled];
            && C.MarkAfter(LOG, handled, 0, 1) == 1
            && C.SessionTrace(LOG, handled, 0, 1) == [C.Attempt(0, C.Done)]
  {
    var handled := [C.Handled, C.Handled, C.Handled];
    Text.OneLetterIsTrimmed('a');
    hide Text.TrimSpace;
    C.MarkLaw(LOG, handled, 0, 1);
    C.TraceLaw(LOG, handled, 0, 1);
  }

  lemma RunLosesOneMark()
    ensures C.IsRun(LOG, SHORT_PLANS) && LosesAtMost(LOG, SHORT_PLANS, 1)
    ensures C.Trace(LOG, SHORT_PLANS, 2) == [C.Attempt(0, C.Done)] + [C.Attempt(0, C.Done)]
  {
    SessionHandlesFirst();
    assert C.Position(SHORT_PLANS, 0) == 0 && C.Position(SHORT_PLANS, 1) == 0;
    hide C.MarkAfter, C.SessionTrace;
    assert C.Trace(LOG, SHORT_PLANS, 1) == [C.Attempt(0, C.Done)];
  }

  lemma PartsOfFour(a: Act, x: Act, y: Act)
    requires a.Try? && x.Other? && y.Other?
    ensures Attempts([a] + [x] + [y] + [a]) == [a.attempt] + [a.attempt]
    ensures Others([a] + [x] + [y] + [a]) == [x.op] + [y.op]
  {
    var one := [a];
    OthersOneMore([], a);
    OthersOneMore(one, x);
    OthersOneMore(one + [x], y);
    OthersOneMore(one + [x] + [y], a);
    hide Attempts, Others;
    assert [] + [a] == one;
    assert Attempts(one) == [a.attempt] && Others(one) == [];
    assert Others(one + [x]) == [x.op];
  }

  lemma DisturbedParts(h: Handling)
    ensures Attempts(Disturbed(h)) == [C.Attempt(0, C.Done)] + [C.Attempt(0, C.Done)]
    ensures Others(Disturbed(h)) == [AssignB(h).op] + [UNASSIGN_A.op]
  {
    hide Attempts, Others;
    PartsOfFour(CleanTry(0, h), AssignB(h), UNASSIGN_A);
  }

  lemma DisturbedIsClean(h: Handling)
    requires h.fault == NoFault
    ensures Clean(Disturbed(h)) == Disturbed(h) && SameLookups(Clean(Disturbed(h)))
  {
    hide Clean;
    AlreadyClean(Disturbed(h));
  }

  lemma DisturbedIsRun(h: Handling)
    requires h.fault == NoFault
    ensures RunOf(IDLE, LOG, SHORT_PLANS, Disturbed(h), 1) && SameLookups(Clean(Disturbed(h)))
  {
    RunLosesOneMark();
    DisturbedParts(h);
    DisturbedIsClean(h);
    DisturbedLeads(h);
    hide Through, Attempts, Faithful, C.IsRun, LosesAtMost, C.Trace, Disturbed, Clean, SameLookups;
  }

  lemma TheOnlyAttempt(h: Handling, pass: seq<Act>)
    requires h.fault == NoFault && Subsequence(pass, Disturbed(h)) && InTurn(Attempts(pass)) && |Attempts(pass)| >= 1
    ensures |Attempts(pass)| == 1 && forall a :: a in pass && a.Try? ==> a == CleanTry(0, h)
  {
    hide Attempts, Subsequence;
    forall a | a in pass && a.Try? ensures a == CleanTry(0, h) {
      SubsequenceWithin(pass, Disturbed(h), a);
    }
    if |Attempts(pass)| >= 2 {
      var a := AttemptIsAct(pass, 1);
      assert false;
    }
  }

  /** One mark that gets lost is enough when others come in between: between the two handlings of the creation of "a",
      somebody is refused the courier for "b", and "a" is taken off it. No single handling leads to the same tables. */
  lemma DisturbedHappens(h: Handling)
    requires h.fault == NoFault
    ensures RunOf(IDLE, LOG, SHORT_PLANS, Disturbed(h), 1) && SameLookups(Clean(Disturbed(h)))
    ensures forall pass :: !IsOneCleanPass(IDLE, LOG, Disturbed(h), pass, C.Position(SHORT_PLANS, |SHORT_PLANS|))
  {
    assert C.Position(SHORT_PLANS, |SHORT_PLANS|) == 1;
    DisturbedIsRun(h);
    hide *;
    forall pass ensures !IsOneCleanPass(IDLE, LOG, Disturbed(h), pass, 1) {
      EndsElsewhereToo(h, pass);
    }
  }

  lemma EndsElsewhereToo(h: Handling, pass: seq<Act>)
    requires h.fault == NoFault && OnLog(LOG, Disturbed(h))
    ensures !IsOneCleanPass(IDLE, LOG, Disturbed(h), pass, 1)
  {
    DisturbedParts(h);
    DisturbedIsClean(h);
    DisturbedLeads(h);
    BGoesFirst(h);
    ThreeTables(h);
    hide Attempts, Others, Clean, InTurn, Subsequence, Through, Faithful, LOG, IDLE, OnTheWay,
      Disturbed, SameLookups, OnLog;
    if IsOneCleanPass(IDLE, LOG, Disturbed(h), pass, 1) {
      PassParts(Disturbed(h), pass, 1);
      TheOnlyAttempt(h, pass);
      ThreePlaces(pass, CleanTry(0, h), AssignB(h), UNASSIGN_A);
    }
  }

  lemma ThreeTables(h: Handling)
    ensures IDLE != OnTheWay('a', h.id, h.now) && OnTheWay('b', h.id, h.now) != OnTheWay('a', h.id, h.now)
  {
    assert IDLE.couriers[1] != OnTheWay('a', h.id, h.now).couriers[1];
    assert ['a'][0] != ['b'][0];
    assert ['b'] in OnTheWay('b', h.id, h.now).deliveries && ['b'] !in OnTheWay('a', h.id, h.now).deliveries;
  }
}
