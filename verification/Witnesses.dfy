/** Concrete runs for what the code does not guarantee. */
module Witnesses {
  import opened Gatt
  import opened SortedList
  import opened Discovery
  import opened Remote
  import opened Runs

  const PLAIN := Uuid16(0)
  const SVC := GattSvc(1, 20, PLAIN)

  function OneChr(val: uint16): GattChr {
    GattChr(2, val, 0, PLAIN)
  }

  function Delivery(item: Item): Input {
    Input(Event(Ok, Some(item)), Ok, Pools(1, 1, 0))
  }

  function Done(rc: Status): Input {
    Input(Event(EDone, None), rc, Pools(1, 1, 0))
  }

  /** A service with one characteristic is delivered; `rc` answers the start of its descriptor
      procedure. */
  function UpToDscs(val: uint16, rc: Status): seq<Input> {
    [Delivery(SvcItem(SVC)), Done(Ok), Delivery(ChrItem(OneChr(val))), Done(rc)]
  }

  function Begun(): Peer {
    Discover(FreshPeer(1), Pools(1, 1, 0), AllSvcs, true, Ok).peer
  }

  function Traced(svcs: seq<Svc>, cursor: uint16, cur: Option<uint16>, trace: seq<Obs>): Peer {
    Peer(1, svcs, cursor, cur, true, trace)
  }

  const ASKED_SVCS := [Started(AllSvcs, Ok)]
  const ASKED_CHRS := [Started(AllSvcs, Ok), Started(ChrsIn(1, 20), Ok)]

  lemma {:induction false} BegunAs(pools: Pools)
    ensures Discover(FreshPeer(1), pools, AllSvcs, true, Ok) == Outcome(Ok, Traced([], 1, None, ASKED_SVCS), pools)
  {
  }

  lemma {:induction false} FirstSvc(p: Peer, pools: Pools, g: GattSvc)
    requires p.svcs == [] && pools.svcs > 0
    ensures SvcAdd(p, pools, g) == Outcome(Ok, p.(svcs := [Svc(g, [])]), pools.(svcs := pools.svcs - 1))
  {
  }

  lemma {:induction false} AfterSvc(asserts: bool)
    ensures Run(asserts, Begun(), Some(AllSvcs), [Delivery(SvcItem(SVC))])
         == Some((Traced([Svc(SVC, [])], 1, None, ASKED_SVCS), Some(AllSvcs)))
  {
    var ins := [Delivery(SvcItem(SVC))];
    var p := Traced([], 1, None, ASKED_SVCS);
    BegunAs(Pools(1, 1, 0));
    assert ins[..0] == [] && Run(asserts, p, Some(AllSvcs), []) == Some((p, Some(AllSvcs)));
    FirstSvc(p, Pools(1, 1, 0), SVC);
  }

  lemma {:induction false} AfterSvcs(asserts: bool)
    ensures Run(asserts, Begun(), Some(AllSvcs), [Delivery(SvcItem(SVC)), Done(Ok)])
         == Some((Traced([Svc(SVC, [])], 1, Some(1), ASKED_CHRS), Some(ChrsIn(1, 20))))
  {
    hide DiscDscs;
    AfterSvc(asserts);
    var ins := [Delivery(SvcItem(SVC)), Done(Ok)];
    assert ins[..1] == [Delivery(SvcItem(SVC))] && ins[1] == Done(Ok);
    var p := Traced([Svc(SVC, [])], 1, None, ASKED_SVCS);
    assert DiscChrs(p, Ok) == Traced([Svc(SVC, [])], 1, Some(1), ASKED_CHRS);
  }

  lemma {:induction false} AfterChr(asserts: bool, val: uint16)
    ensures Run(asserts, Begun(), Some(AllSvcs), [Delivery(SvcItem(SVC)), Done(Ok), Delivery(ChrItem(OneChr(val)))])
         == Some((Traced([Svc(SVC, [Chr(OneChr(val), [])])], 1, Some(1), ASKED_CHRS), Some(ChrsIn(1, 20))))
  {
    AfterSvcs(asserts);
    var ins := [Delivery(SvcItem(SVC)), Done(Ok), Delivery(ChrItem(OneChr(val)))];
    assert ins[..2] == [Delivery(SvcItem(SVC)), Done(Ok)];
    var p := Traced([Svc(SVC, [])], 1, Some(1), ASKED_CHRS);
    assert Starts(p.svcs) == [1] && Find([1], 1) == Some(0);
    assert Vals(p.svcs[0].chrs) == [] && LeadingBelow([], 2) == 0 && Find([], 2).None?;
    assert LinkAfter<Chr>([], 0, Chr(OneChr(val), [])) == [Chr(OneChr(val), [])];
    assert p.svcs[0 := Svc(SVC, [Chr(OneChr(val), [])])] == [Svc(SVC, [Chr(OneChr(val), [])])];
    assert ChrAdd(p, Pools(1, 1, 0), 1, OneChr(val)).peer.svcs == [Svc(SVC, [Chr(OneChr(val), [])])];
  }

  lemma {:induction false} GoesOn(asserts: bool, p: Peer, ins: seq<Input>, q: Peer, req: Request, last: Input)
    requires Run(asserts, p, Some(AllSvcs), ins) == Some((q, Some(req)))
    requires Deliverable(q, req, last.e) && !Fails(q, req, last.e)
    ensures var o := Callback(q, last.pools, req, last.e, last.rc);
      Run(asserts, p, Some(AllSvcs), ins + [last]) == Some((o.peer, NextPending(q, req, last.e, o)))
  {
  }

  /** The only characteristic of the only service is asked about. */
  lemma {:induction false} AskDscs(p: Peer, val: uint16, rc: Status)
    requires val < 20 && p.svcs == [Svc(SVC, [Chr(OneChr(val), [])])] && p.cursor == 1 && p.cb
    ensures var q := Start(p, DscsIn(val, 20), rc);
      DiscDscs(p, rc) == (if rc.Ok? then q else Complete(q, rc)).(cursor := val)
  {
  }

  lemma {:induction false} AfterChrs(asserts: bool, val: uint16, rc: Status)
    requires val < 20
    ensures var trace := ASKED_CHRS + [Started(DscsIn(val, 20), rc)];
      Run(asserts, Begun(), Some(AllSvcs), UpToDscs(val, rc))
      == Some((Traced([Svc(SVC, [Chr(OneChr(val), [])])], val, Some(1),
                      if rc.Ok? then trace else trace + [Reported(rc)]),
               if rc.Ok? then Some(DscsIn(val, 20)) else None))
  {
    hide Run, Scan, Positions, DiscDscs;
    AfterChr(asserts, val);
    var front := [Delivery(SvcItem(SVC)), Done(Ok), Delivery(ChrItem(OneChr(val)))];
    var p := Traced([Svc(SVC, [Chr(OneChr(val), [])])], 1, Some(1), ASKED_CHRS);
    GoesOn(asserts, Begun(), front, p, ChrsIn(1, 20), Done(rc));
    assert front + [Done(rc)] == UpToDscs(val, rc);
    AskDscs(p, val, rc);
  }

  /** A characteristic with value handle 0: its descriptor procedure ends, nothing is outstanding,
      nothing was reported, and nothing ever will be. */
  lemma {:induction false} ValueHandleZeroStalls(asserts: bool)
    ensures var r := Run(asserts, Begun(), Some(AllSvcs), UpToDscs(0, Ok) + [Done(Ok)]);
      var trace := ASKED_CHRS + [Started(DscsIn(0, 20), Ok)];
      && r == Some((Traced([Svc(SVC, [Chr(OneChr(0), [])])], 0, Some(1), trace), None))
      && !ReportedOnce(r.value.0, None)
  {
    AfterChrs(asserts, 0, Ok);
    var ins := UpToDscs(0, Ok) + [Done(Ok)];
    assert ins[..4] == UpToDscs(0, Ok);
    assert ins[4] == Done(Ok);
    var q := Run(asserts, Begun(), Some(AllSvcs), ins).value.0;
    assert q.trace[|q.trace| - 1] == Started(DscsIn(0, 20), Ok);
  }

  /** The stack refuses the descriptor procedure: completion has been reported, nothing is
      outstanding, and the cursor is not 0. */
  lemma {:induction false} CursorAfterRefusal(asserts: bool)
    ensures var r := Run(asserts, Begun(), Some(AllSvcs), UpToDscs(3, Stack(6)));
      var trace := ASKED_CHRS + [Started(DscsIn(3, 20), Stack(6)), Reported(Stack(6))];
      && r == Some((Traced([Svc(SVC, [Chr(OneChr(3), [])])], 3, Some(1), trace), None))
      && ReportedOnce(r.value.0, None)
  {
    AfterChrs(asserts, 3, Stack(6));
    var before := ASKED_CHRS + [Started(DscsIn(3, 20), Stack(6))];
    assert before + [Reported(Stack(6))] == ASKED_CHRS + [Started(DscsIn(3, 20), Stack(6)), Reported(Stack(6))];
  }
}
