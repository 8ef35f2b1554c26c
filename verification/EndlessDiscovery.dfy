/** A discovery that never ends: a service that could hold characteristics but holds none. And one
    that ends at once: a service that is its declaration alone. */
module EndlessDiscovery {
  import opened Gatt
  import opened Discovery
  import opened Remote
  import opened Runs
  import opened Exactness
  import opened Completion
  import opened Witnesses
  import opened Selection

  const BARE := [Svc(SVC, [])]

  /** The endless run: asked again, the remote has nothing to deliver again. */
  function Asking(k: nat): Sys {
    Sys(Traced(BARE, 1, Some(1), ASKED_SVCS + seq(k + 1, _ => Started(ChrsIn(1, 20), Ok))), Pools(0, 0, 0),
        Link(BARE, Some(ChrsIn(1, 20)), 0))
  }

  lemma {:induction false} BareWf()
    ensures DbWf(BARE) && !Populated(BARE) && Goal(BARE, AllSvcs) == BARE
  {
    GoalOfAll(BARE);
    assert Open(BARE[0]);
  }

  lemma {:induction false} AsksAgain(k: nat)
    ensures Next(Asking(k)) == Asking(k + 1)
  {
    var s := Asking(k);
    BareWf();
    AnswerChrs(BARE, BARE[0]);
    assert DiscChrs(s.p, Ok) == Asking(k + 1).p;
  }

  lemma {:induction false} AsksOn(k: nat, n: nat)
    ensures Steps(Asking(k), n) == Asking(k + n)
    decreases n
  {
    hide Next, Asking;
    if n > 0 {
      AsksAgain(k);
      AsksOn(k + 1, n - 1);
    }
  }

  function AskedServices(): Sys {
    Sys(Traced(BARE, 1, None, ASKED_SVCS), Pools(0, 0, 0), Link(BARE, Some(AllSvcs), 1))
  }

  lemma {:induction false} Begins()
    ensures Completion.Begin(FreshPeer(1), Pools(1, 0, 0), BARE, AllSvcs)
         == Sys(Traced([], 1, None, ASKED_SVCS), Pools(1, 0, 0), Link(BARE, Some(AllSvcs), 0))
  {
    hide Discover;
    BegunAs(Pools(1, 0, 0));
  }

  lemma {:induction false} FirstStep()
    ensures Next(Completion.Begin(FreshPeer(1), Pools(1, 0, 0), BARE, AllSvcs)) == AskedServices()
  {
    hide SvcAdd, ChrAdd, DscAdd, DiscChrs, DiscDscs, Answer, DbWf, Populated, Goal, Completion.Begin;
    var p, l := Traced([], 1, None, ASKED_SVCS), Link(BARE, Some(AllSvcs), 0);
    Begins();
    BareWf();
    AnswerRoot(BARE, AllSvcs);
    FirstSvc(p, Pools(1, 0, 0), SVC);
    var e := Event(Ok, Some(SvcItem(SVC)));
    assert NextEvent(l) == e;
    assert Callback(p, Pools(1, 0, 0), AllSvcs, e, Ok)
        == Outcome(Ok, Traced(BARE, 1, None, ASKED_SVCS), Pools(0, 0, 0));
  }

  lemma {:induction false} SecondStep()
    ensures Next(AskedServices()) == Asking(0)
  {
  }

  lemma {:induction false} TwoSteps(s: Sys, n: nat)
    ensures Steps(s, n + 2) == Steps(Next(Next(s)), n)
  {
  }

  /** A database with an empty service from 1 to 20: the discovery never ends, it asks for the
      characteristics of that service over and over. */
  lemma {:induction false} UnpopulatedNeverEnds(n: nat)
    ensures DbWf(BARE) && !Populated(BARE)
    ensures Steps(Completion.Begin(FreshPeer(1), Pools(1, 0, 0), BARE, AllSvcs), n + 2) == Asking(n)
  {
    hide Next, Asking, Steps, Completion.Begin;
    BareWf();
    FirstStep();
    SecondStep();
    AsksOn(0, n);
    TwoSteps(Completion.Begin(FreshPeer(1), Pools(1, 0, 0), BARE, AllSvcs), n);
  }

  // ----- a service of one handle

  const LONE_SVC := GattSvc(1, 1, Uuid16(0x1801))
  const LONE := [Svc(LONE_SVC, [])]

  lemma {:induction false} LoneWf()
    ensures DbWf(LONE) && Populated(LONE) && Goal(LONE, AllSvcs) == LONE
  {
    GoalOfAll(LONE);
  }

  /** The state after the given procedures and reports, with nothing left to deliver of what is pending. */
  function LoneAfter(cursor: uint16, trace: seq<Obs>, pending: Option<Request>, sent: nat): Sys {
    Sys(Traced(LONE, cursor, None, trace), Pools(0, 0, 0), Link(LONE, pending, sent))
  }

  lemma {:induction false} LoneDelivered()
    ensures Next(Completion.Begin(FreshPeer(1), Pools(1, 0, 0), LONE, AllSvcs))
         == LoneAfter(1, ASKED_SVCS, Some(AllSvcs), 1)
  {
    hide SvcAdd, ChrAdd, DscAdd, DiscChrs, DiscDscs, Answer, DbWf, Populated, Goal, Discover;
    var p, l := Traced([], 1, None, ASKED_SVCS), Link(LONE, Some(AllSvcs), 0);
    BegunAs(Pools(1, 0, 0));
    LoneWf();
    AnswerRoot(LONE, AllSvcs);
    FirstSvc(p, Pools(1, 0, 0), LONE_SVC);
    var e := Event(Ok, Some(SvcItem(LONE_SVC)));
    assert NextEvent(l) == e;
    assert Callback(p, Pools(1, 0, 0), AllSvcs, e, Ok)
        == Outcome(Ok, Traced(LONE, 1, None, ASKED_SVCS), Pools(0, 0, 0));
  }

  lemma {:induction false} LoneDone()
    ensures Next(LoneAfter(1, ASKED_SVCS, Some(AllSvcs), 1))
         == LoneAfter(0, [Started(AllSvcs, Ok), Reported(Ok)], None, 0)
  {
    hide DiscChrs, DiscDscs, Answer, DbWf, Populated, Goal;
    var p := Traced(LONE, 1, None, ASKED_SVCS);
    LoneWf();
    AnswerRoot(LONE, AllSvcs);
    ThenForDscs(p, Ok);
    ThenReports(p, Ok);
    assert ASKED_SVCS + [Reported(Ok)] == [Started(AllSvcs, Ok), Reported(Ok)];
  }

  /** A database with a service of one handle: after its item and "done" success is reported, and no
      characteristics are asked for. */
  lemma {:induction false} LoneServiceEnds()
    ensures DbWf(LONE) && Populated(LONE)
    ensures Steps(Completion.Begin(FreshPeer(1), Pools(1, 0, 0), LONE, AllSvcs), 2)
         == Sys(Traced(LONE, 0, None, [Started(AllSvcs, Ok), Reported(Ok)]), Pools(0, 0, 0), Link(LONE, None, 0))
  {
    hide Next, Steps, Completion.Begin;
    LoneWf();
    LoneDelivered();
    LoneDone();
    TwoSteps(Completion.Begin(FreshPeer(1), Pools(1, 0, 0), LONE, AllSvcs), 0);
    NoSteps(LoneAfter(0, [Started(AllSvcs, Ok), Reported(Ok)], None, 0));
  }

  lemma {:induction false} NoSteps(s: Sys)
    ensures Steps(s, 0) == s
  {
  }
}
