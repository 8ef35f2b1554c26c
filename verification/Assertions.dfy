/** Which assertions about delivered items a run can come to. */
module Assertions {
  import opened Gatt
  import opened SortedList
  import opened Discovery
  import opened Remote
  import opened Runs
  import opened Witnesses
  import ServiceMap

  // ----- what every run keeps, whatever the items are

  /** Some characteristic of the tree has the value handle. */
  ghost predicate Stored(svcs: seq<Svc>, val: uint16) {
    exists pos :: InTree(svcs, pos) && At(svcs, pos).decl.val == val
  }

  /** The services ascend, and what the outstanding procedure asks about is in the tree. */
  ghost predicate Anchored(q: Peer, pending: Option<Request>) {
    && Ascending(Starts(q.svcs))
    && (pending.Some? && pending.value.ChrsIn? ==> q.cur.Some? && Find(Starts(q.svcs), q.cur.value).Some?)
    && (pending.Some? && pending.value.DscsIn? ==> Stored(q.svcs, pending.value.val))
  }

  lemma {:induction false} SvcAddAscends(p: Peer, pools: Pools, g: GattSvc)
    requires Ascending(Starts(p.svcs))
    ensures Ascending(Starts(SvcAdd(p, pools, g).peer.svcs))
  {
    hide Ascending;
    var keys := Starts(p.svcs);
    var k := LeadingBelow(keys, g.start);
    if Find(keys, g.start).None? {
      ServiceMap.InsertAscends(keys, g.start);
      assert Starts(p.svcs[..k] + [Svc(g, [])] + p.svcs[k..]) == keys[..k] + [g.start] + keys[k..];
    }
  }

  lemma {:induction false} ChrAddStarts(p: Peer, pools: Pools, start: uint16, g: GattChr)
    ensures Starts(ChrAdd(p, pools, start, g).peer.svcs) == Starts(p.svcs)
  {
  }

  lemma {:induction false} DscAddStored(p: Peer, pools: Pools, val: uint16, g: GattDsc, v: uint16)
    requires Stored(p.svcs, v)
    ensures var q := DscAdd(p, pools, val, g).peer; Starts(q.svcs) == Starts(p.svcs) && Stored(q.svcs, v)
  {
    hide LinkAfter;
    var q := DscAdd(p, pools, val, g).peer;
    var pos :| InTree(p.svcs, pos) && At(p.svcs, pos).decl.val == v;
    assert InTree(q.svcs, pos) && At(q.svcs, pos).decl == At(p.svcs, pos).decl;
  }

  lemma {:induction false} DiscDscsAnchored(p: Peer, rc: Status)
    requires Ascending(Starts(p.svcs))
    ensures var q := DiscDscs(p, rc); Anchored(q, NewlyAccepted(p, q))
  {
  }

  lemma {:induction false} DiscChrsAnchored(p: Peer, rc: Status)
    requires Ascending(Starts(p.svcs))
    ensures var q := DiscChrs(p, rc); Anchored(q, NewlyAccepted(p, q))
  {
    hide DiscDscs, Ascending;
    match FirstOpen(p.svcs)
    case None => DiscDscsAnchored(p, rc);
    case Some(i) => FindIsMembership(Starts(p.svcs), p.svcs[i].decl.start);
  }

  lemma {:induction false} CallbackAnchored(p: Peer, pools: Pools, req: Request, e: Event, rc: Status)
    requires Anchored(p, Some(req)) && Deliverable(p, req, e)
    ensures var o := Callback(p, pools, req, e, rc); Anchored(o.peer, NextPending(p, req, e, o))
  {
    hide DiscDscs, DiscChrs, SvcAdd, ChrAdd, DscAdd, Ascending, Find, Stored;
    DiscDscsAnchored(p, rc);
    DiscChrsAnchored(p, rc);
    if e.status.Ok? {
      match e.item.value
      case SvcItem(g) => SvcAddAscends(p, pools, g);
      case ChrItem(g) =>
        ChrAddStarts(p, pools, p.cur.value, g);
        AddsKeep(p, pools, p.cur.value, 0, GattSvc(0, 0, g.uuid), g, GattDsc(0, g.uuid));
      case DscItem(g) => DscAddStored(p, pools, req.val, g, req.val);
    }
  }

  lemma {:induction false} RunAnchored(asserts: bool, p: Peer, root: Request, ins: seq<Input>)
    requires Anchored(p, Some(root)) && Run(asserts, p, Some(root), ins).Some?
    ensures var (q, pending) := Run(asserts, p, Some(root), ins).value; Anchored(q, pending)
    decreases |ins|
  {
    hide Callback, NextPending, Fails, Ascending, Stored, Find;
    if ins != [] {
      var front, last := ins[..|ins| - 1], ins[|ins| - 1];
      RunAnchored(asserts, p, root, front);
      var (q, pending) := Run(asserts, p, Some(root), front).value;
      CallbackAnchored(q, last.pools, pending.value, last.e, last.rc);
    }
  }

  // ----- which assertions can fail

  /** Services do not overlap, and each holds the values of its characteristics in ascending order. */
  predicate Nested(svcs: seq<Svc>) {
    && (forall i, j :: 0 <= i < j < |svcs| ==> svcs[i].decl.end < svcs[j].decl.start)
    && (forall i :: 0 <= i < |svcs| ==> Ascending(Vals(svcs[i].chrs)))
    && (forall i, j :: 0 <= i < |svcs| && 0 <= j < |svcs[i].chrs| ==>
          svcs[i].decl.start <= svcs[i].chrs[j].decl.val <= svcs[i].decl.end)
  }

  lemma {:induction false} NestedFound(svcs: seq<Svc>, pos: Pos)
    requires Nested(svcs) && InTree(svcs, pos)
    ensures FindRange(svcs, At(svcs, pos).decl.val) == Some(pos.i)
    ensures Find(Vals(svcs[pos.i].chrs), At(svcs, pos).decl.val).Some?
  {
  }

  /** In every run, whatever the items are, only a descriptor can bring the program to a failing
      assertion: the service of a characteristic is always found. A descriptor does so if and only if
      no service or no characteristic is found for the value handle it belongs to, and never while
      the tree is nested. */
  lemma {:induction false} FailsOnlyUnnested(asserts: bool, p0: Peer, pools: Pools, root: Request, cb: bool,
                                             ins: seq<Input>, e: Event)
    requires IsRoot(root)
    ensures var p := Discover(p0, pools, root, cb, Ok).peer;
      match Run(asserts, p, Some(root), ins)
      case Some((q, Some(req))) =>
        && (Fails(q, req, e) <==>
              && e.status.Ok? && req.DscsIn?
              && match FindRange(q.svcs, req.val)
                 case None => true
                 case Some(i) => Find(Vals(q.svcs[i].chrs), req.val).None?)
        && (Fails(q, req, e) ==> !Nested(q.svcs))
      case _ => true
  {
    hide Run, Find, FindRange, Ascending, Nested;
    var p := Discover(p0, pools, root, cb, Ok).peer;
    match Run(asserts, p, Some(root), ins)
    case Some((q, Some(req))) =>
      NothingAnchored(p, root);
      RunAnchored(asserts, p, root, ins);
      if Nested(q.svcs) && req.DscsIn? {
        var pos :| InTree(q.svcs, pos) && At(q.svcs, pos).decl.val == req.val;
        NestedFound(q.svcs, pos);
      }
    case _ =>
  }

  lemma {:induction false} NothingAnchored(p: Peer, root: Request)
    requires p.svcs == [] && IsRoot(root)
    ensures Anchored(p, Some(root))
  {
  }

  // ----- two runs that come to an assertion

  const DSC := GattDsc(16, PLAIN)

  /** How a run ends that delivers an item without an owner: with assertions it stops, without a
      report; without them it reports that something is unknown. */
  predicate EndsUnowned(ins: seq<Input>) {
    && LastFails(true, Begun(), AllSvcs, ins)
    && Run(true, Begun(), Some(AllSvcs), ins).Some?
    && Run(false, Begun(), Some(AllSvcs), ins).Some?
    && var (q, pending) := Run(true, Begun(), Some(AllSvcs), ins).value;
    && var (q', pending') := Run(false, Begun(), Some(AllSvcs), ins).value;
    && pending.None? && AllAccepted(q.trace) && pending'.None? && q'.trace == q.trace + [Reported(EUnknown)]
  }

  lemma {:induction false} Unowned(ins: seq<Input>, q: Peer, req: Request)
    requires Run(true, Begun(), Some(AllSvcs), ins) == Some((q, Some(req)))
    requires Run(false, Begun(), Some(AllSvcs), ins) == Some((q, Some(req)))
    requires req.DscsIn? && !OwnersFound(q, req) && AllAccepted(q.trace) && q.cb
    ensures EndsUnowned(ins + [Delivery(DscItem(DSC))])
  {
    hide FindRange, Find, AllAccepted;
    var last := Delivery(DscItem(DSC));
    assert (ins + [last])[..|ins|] == ins;
    UnknownIff(q, last.pools, req, last.e, last.rc);
    AddsKeep(q, last.pools, 0, req.val, GattSvc(0, 0, PLAIN), OneChr(0), DSC);
  }

  /** A descriptor of a characteristic with value handle 0, which lies in no service. */
  lemma {:induction false} ValueHandleZeroAsserts()
    ensures EndsUnowned(UpToDscs(0, Ok) + [Delivery(DscItem(DSC))])
  {
    hide Run;
    AfterChrs(true, 0, Ok);
    AfterChrs(false, 0, Ok);
    var trace := ASKED_CHRS + [Started(DscsIn(0, 20), Ok)];
    Unowned(UpToDscs(0, Ok), Traced([Svc(SVC, [Chr(OneChr(0), [])])], 0, Some(1), trace), DscsIn(0, 20));
  }

  const NEXT := GattSvc(10, 30, PLAIN)
  const LAST := GattChr(2, 20, 0, PLAIN)
  const INNER := GattChr(12, 15, 0, PLAIN)

  /** Two services whose ranges overlap, with a characteristic each. The value handle of the second
      lies in the range of the first. */
  function Overlapping(): seq<Input> {
    OverlappingSvcs() + [Delivery(ChrItem(LAST)), Done(Ok)] + [Delivery(ChrItem(INNER)), Done(Ok)]
  }

  function OverlappingSvcs(): seq<Input> {
    [Delivery(SvcItem(SVC)), Delivery(SvcItem(NEXT)), Done(Ok)]
  }

  const ASKED_BOTH := ASKED_CHRS + [Started(ChrsIn(10, 30), Ok)]

  lemma {:induction false} AfterOverlappingSvcs(asserts: bool)
    ensures Run(asserts, Begun(), Some(AllSvcs), OverlappingSvcs())
         == Some((Traced([Svc(SVC, []), Svc(NEXT, [])], 1, Some(1), ASKED_CHRS), Some(ChrsIn(1, 20))))
  {
    hide Run, DiscDscs;
    AfterSvc(asserts);
    var p := Traced([Svc(SVC, [])], 1, None, ASKED_SVCS);
    var ins := [Delivery(SvcItem(SVC))];
    GoesOn(asserts, Begun(), ins, p, AllSvcs, Delivery(SvcItem(NEXT)));
    SecondSvc(p, Pools(1, 1, 0));
    var q := p.(svcs := [Svc(SVC, []), Svc(NEXT, [])]);
    assert FirstOpen(q.svcs) == Some(0);
    assert ASKED_SVCS + [Started(ChrsIn(1, 20), Ok)] == ASKED_CHRS;
    GoesOn(asserts, Begun(), ins + [Delivery(SvcItem(NEXT))], q, AllSvcs, Done(Ok));
    assert OverlappingSvcs() == ins + [Delivery(SvcItem(NEXT))] + [Done(Ok)];
  }

  lemma {:induction false} SecondSvc(p: Peer, pools: Pools)
    requires p.svcs == [Svc(SVC, [])] && pools.svcs > 0
    ensures SvcAdd(p, pools, NEXT)
         == Outcome(Ok, p.(svcs := [Svc(SVC, []), Svc(NEXT, [])]), pools.(svcs := pools.svcs - 1))
  {
  }

  /** The first characteristic of a service. */
  lemma {:induction false} FirstChr(p: Peer, pools: Pools, i: nat, g: GattChr)
    requires i < |p.svcs| && Find(Starts(p.svcs), p.svcs[i].decl.start) == Some(i) && p.svcs[i].chrs == []
    requires pools.chrs > 0
    ensures var s := Svc(p.svcs[i].decl, [Chr(g, [])]);
      ChrAdd(p, pools, p.svcs[i].decl.start, g)
      == Outcome(Ok, p.(svcs := p.svcs[i := s]), pools.(chrs := pools.chrs - 1))
  {
    assert Vals(p.svcs[i].chrs) == [];
    assert LinkAfter([], 0, Chr(g, [])) == [Chr(g, [])];
  }

  lemma {:induction false} AfterOuter(asserts: bool)
    ensures Run(asserts, Begun(), Some(AllSvcs), OverlappingSvcs() + [Delivery(ChrItem(LAST)), Done(Ok)])
         == Some((Traced([Svc(SVC, [Chr(LAST, [])]), Svc(NEXT, [])], 1, Some(10), ASKED_BOTH), Some(ChrsIn(10, 30))))
  {
    hide Run, DiscDscs, ChrAdd;
    AfterOverlappingSvcs(asserts);
    var p := Traced([Svc(SVC, []), Svc(NEXT, [])], 1, Some(1), ASKED_CHRS);
    assert Starts(p.svcs) == [1, 10];
    GoesOn(asserts, Begun(), OverlappingSvcs(), p, ChrsIn(1, 20), Delivery(ChrItem(LAST)));
    FirstChr(p, Pools(1, 1, 0), 0, LAST);
    var q := Traced([Svc(SVC, [Chr(LAST, [])]), Svc(NEXT, [])], 1, Some(1), ASKED_CHRS);
    assert p.svcs[0 := Svc(SVC, [Chr(LAST, [])])] == q.svcs;
    GoesOn(asserts, Begun(), OverlappingSvcs() + [Delivery(ChrItem(LAST))], q, ChrsIn(1, 20), Done(Ok));
    assert OverlappingSvcs() + [Delivery(ChrItem(LAST)), Done(Ok)]
        == OverlappingSvcs() + [Delivery(ChrItem(LAST))] + [Done(Ok)];
    assert FirstOpen(q.svcs) == Some(1);
  }

  const TWO_SVCS := [Svc(SVC, [Chr(LAST, [])]), Svc(NEXT, [Chr(INNER, [])])]

  lemma {:induction false} AfterOverlapping(asserts: bool)
    ensures Run(asserts, Begun(), Some(AllSvcs), Overlapping())
         == Some((Traced(TWO_SVCS, 15, Some(10), ASKED_BOTH + [Started(DscsIn(15, 30), Ok)]), Some(DscsIn(15, 30))))
  {
    hide Run, DiscDscs, ChrAdd;
    AfterOuter(asserts);
    var p := Traced([Svc(SVC, [Chr(LAST, [])]), Svc(NEXT, [])], 1, Some(10), ASKED_BOTH);
    var ins := OverlappingSvcs() + [Delivery(ChrItem(LAST)), Done(Ok)];
    assert Starts(p.svcs) == [1, 10];
    assert [1, 10][1..] == [10] && Find([1, 10], 10) == Some(1);
    GoesOn(asserts, Begun(), ins, p, ChrsIn(10, 30), Delivery(ChrItem(INNER)));
    FirstChr(p, Pools(1, 1, 0), 1, INNER);
    var q := p.(svcs := TWO_SVCS);
    assert p.svcs[1 := Svc(NEXT, [Chr(INNER, [])])] == TWO_SVCS;
    GoesOn(asserts, Begun(), ins + [Delivery(ChrItem(INNER))], q, ChrsIn(10, 30), Done(Ok));
    assert Overlapping() == ins + [Delivery(ChrItem(INNER))] + [Done(Ok)];
    AskInner(q);
    assert Start(q, DscsIn(15, 30), Ok).(cursor := 15)
        == Traced(TWO_SVCS, 15, Some(10), ASKED_BOTH + [Started(DscsIn(15, 30), Ok)]);
  }

  lemma {:induction false} AskInner(q: Peer)
    requires q.svcs == TWO_SVCS && q.cursor == 1
    ensures DiscChrs(q, Ok) == Start(q, DscsIn(15, 30), Ok).(cursor := 15)
  {
    var svcs := q.svcs;
    assert Positions(svcs) == PositionsUpTo(svcs, 1) + PosOfSvc(svcs[1], 1);
    assert PositionsUpTo(svcs, 1) == PositionsUpTo(svcs, 0) + PosOfSvc(svcs[0], 0);
    assert PosOfSvc(svcs[0], 0) == [Pos(0, 0)] && PosOfSvc(svcs[1], 1) == [Pos(1, 0)];
    assert Positions(svcs) == [Pos(0, 0), Pos(1, 0)];
    assert Scan(svcs, [Pos(0, 0), Pos(1, 0)], 1) == Some(1);
  }

  /** A descriptor of the second characteristic is looked for in the first service. All handles are
      valid. */
  lemma {:induction false} OverlapAsserts()
    ensures ValidHandles(Overlapping()) && EndsUnowned(Overlapping() + [Delivery(DscItem(DSC))])
  {
    hide Run, EndsUnowned, AllAccepted;
    AfterOverlapping(true);
    AfterOverlapping(false);
    var q := Traced(TWO_SVCS, 15, Some(10), ASKED_BOTH + [Started(DscsIn(15, 30), Ok)]);
    assert FindRange(TWO_SVCS, 15) == Some(0) && Vals(TWO_SVCS[0].chrs) == [20];
    assert Find([20], 15).None?;
    assert !OwnersFound(q, DscsIn(15, 30));
    AllGranted(q.trace);
    Unowned(Overlapping(), q, DscsIn(15, 30));
  }

  lemma {:induction false} AllGranted(trace: seq<Obs>)
    requires trace == ASKED_BOTH + [Started(DscsIn(15, 30), Ok)]
    ensures AllAccepted(trace)
  {
  }
}
