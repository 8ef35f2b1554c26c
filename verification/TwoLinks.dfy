/** Two links at once: the camera record can name one link and the command handle of the other. And
    what the record keeps when a link comes up or a discovery fails after a success. */
module TwoLinks {
  import opened Gatt
  import opened SortedList
  import opened Discovery
  import opened Remote
  import opened Runs
  import opened Exactness
  import opened PeerTable
  import opened Subscription
  import opened Witnesses
  import opened CameraRecord
  import opened Callbacks
  import Gap

  const COMMAND := GattChr(2, 3, 0, GOPRO_COMMAND_UUID)
  const CAMERA_SVC := GattSvc(1, 3, PLAIN)
  const CAMERA := [Svc(CAMERA_SVC, [Chr(COMMAND, [])])]
  const CAPS := Caps(Pools(1, 1, 0), 2)
  const NOBODY := Gap.Pair(0, 0)

  /** Link 1 to a camera, then link 2 to a device without services; discovery on link 1. */
  function Setup(): seq<Gap.GapEvent> {
    [Gap.LinkEstab(Ok, 1, CAMERA), Gap.LinkEstab(Ok, 2, []), Gap.EncChange(1, Ok)]
  }

  function Arrived(item: Item): Gap.GapEvent {
    Gap.GattEvent(1, Event(Ok, Some(item)), Ok)
  }

  function Finished(): Gap.GapEvent {
    Gap.GattEvent(1, Event(EDone, None), Ok)
  }

  function Discovered(): seq<Gap.GapEvent> {
    [Arrived(SvcItem(CAMERA_SVC)), Finished(), Arrived(ChrItem(COMMAND)), Finished()]
  }

  function Mixed(): seq<Gap.GapEvent> {
    Setup() + Discovered()
  }

  /** The run so far was allowed and left link 1 and its peer in this state. */
  ghost predicate Reached(evs: seq<Gap.GapEvent>, p: Peer, l: Link, pools: Pools, live: set<uint16>) {
    && Gap.AllAllowed(Gap.Start(CAPS, NOBODY), evs)
    && var c := Gap.Run(Gap.Start(CAPS, NOBODY), evs);
    && 1 in c.w.links && c.w.links[1] == l && Lookup(c.w.t, 1) == Some(p) && c.w.t.pools == pools && c.live == live
  }

  lemma {:induction false} Deliveries(evs: seq<Gap.GapEvent>, p: Peer, l: Link, pools: Pools, live: set<uint16>,
                                      e: Event)
    requires Reached(evs, p, l, pools, live) && l.pending.Some? && Truthful(l, e) && Deliverable(p, l.pending.value, e)
    ensures var o := Callback(p, pools, l.pending.value, e, Ok);
      Reached(evs + [Gap.GattEvent(1, e, Ok)], o.peer, NextLink(l, p, e, o), o.pools, live)
  {
    hide Inv, Callback, NextLink, Truthful, Lookup, Exec, Sound;
    var c := Gap.Run(Gap.Start(CAPS, NOBODY), evs);
    var all := evs + [Gap.GattEvent(1, e, Ok)];
    assert all[..|all| - 1] == evs;
    Gap.RunOrderly(CAPS, NOBODY, evs);
    var i := Delivered(c.w, CAPS, 1, e, Ok);
  }

  lemma {:induction false} CameraWf()
    ensures DbWf(CAMERA) && Goal(CAMERA, AllSvcs) == CAMERA && LeastCommand(CAMERA, 3)
  {
    var s := CAMERA[0];
    assert ChrWf(s, 0);
    GoalOfAll(CAMERA);
    assert InTree(CAMERA, Pos(0, 0)) && IsCommand(CAMERA, Pos(0, 0));
  }

  const ONE_PEER := Table([FreshPeer(1)], Pools(1, 1, 0), 1)
  const TWO_PEERS := Table([FreshPeer(2), FreshPeer(1)], Pools(1, 1, 0), 0)

  function OneLink(): Gap.Central {
    Gap.Central(World(ONE_PEER, map[1 := Link(CAMERA, None, 0)]), {1}, Gap.Pair(1, 0))
  }

  function BothLinks(): Gap.Central {
    Gap.Central(World(TWO_PEERS, map[1 := Link(CAMERA, None, 0), 2 := Link([], None, 0)]), {1, 2}, Gap.Pair(2, 0))
  }

  lemma {:induction false} FirstLink()
    ensures var c := Gap.Start(CAPS, NOBODY);
      Gap.Allowed(c, Setup()[0]) && Gap.Handle(c, Setup()[0]) == OneLink()
  {
  }

  lemma {:induction false} SecondLink()
    ensures Gap.Allowed(OneLink(), Setup()[1]) && Gap.Handle(OneLink(), Setup()[1]) == BothLinks()
  {
  }

  lemma {:induction false} Discovering()
    ensures Gap.Allowed(BothLinks(), Setup()[2])
    ensures var c := Gap.Handle(BothLinks(), Setup()[2]);
      && 1 in c.w.links && c.w.links[1] == Link(CAMERA, Some(AllSvcs), 0) && c.live == {1, 2}
      && Lookup(c.w.t, 1) == Some(Traced([], 1, None, ASKED_SVCS)) && c.w.t.pools == Pools(1, 1, 0)
  {
    hide Discover, Lookup, IndexOfPeer;
    BegunAs(Pools(1, 1, 0));
    IndexUnique(TWO_PEERS.peers, 1);
    LookupAfterUpdate(TWO_PEERS, 1, Traced([], 1, None, ASKED_SVCS), 1, Pools(1, 1, 0));
  }

  lemma {:induction false} AfterSetup()
    ensures Reached(Setup(), Traced([], 1, None, ASKED_SVCS), Link(CAMERA, Some(AllSvcs), 0), Pools(1, 1, 0),
                    {1, 2})
  {
    hide Gap.Allowed, Gap.Handle, Lookup;
    FirstLink();
    SecondLink();
    Discovering();
    var evs, c0 := Setup(), Gap.Start(CAPS, NOBODY);
    assert evs[..3] == evs && evs[..3][..2] == evs[..2] && evs[..2][..1] == evs[..1] && evs[..1][..0] == [];
    assert Gap.Run(c0, evs[..1]) == OneLink() && Gap.AllAllowed(c0, evs[..1]);
    assert Gap.Run(c0, evs[..2]) == BothLinks() && Gap.AllAllowed(c0, evs[..2]);
  }

  const SUCCESS := [Started(AllSvcs, Ok), Started(ChrsIn(1, 3), Ok), Reported(Ok)]

  /** Discovery on link 1, whatever led to its start. */
  lemma {:induction false} AfterDiscovery(s0: seq<Gap.GapEvent>, live: set<uint16>)
    requires Reached(s0, Traced([], 1, None, ASKED_SVCS), Link(CAMERA, Some(AllSvcs), 0), Pools(1, 1, 0), live)
    ensures Reached(s0 + Discovered(), Traced(CAMERA, 0, Some(1), SUCCESS), Link(CAMERA, None, 0), Pools(0, 0, 0), live)
  {
    hide Reached;
    CameraWf();
    var bare, asked := [Svc(CAMERA_SVC, [])], [Started(AllSvcs, Ok), Started(ChrsIn(1, 3), Ok)];
    AnswerRoot(CAMERA, AllSvcs);
    AnswerChrs(CAMERA, CAMERA[0]);
    var p0 := Traced([], 1, None, ASKED_SVCS);
    FirstSvc(p0, Pools(1, 1, 0), CAMERA_SVC);
    Deliveries(s0, p0, Link(CAMERA, Some(AllSvcs), 0), Pools(1, 1, 0), live, Event(Ok, Some(SvcItem(CAMERA_SVC))));
    var s1 := s0 + [Arrived(SvcItem(CAMERA_SVC))];
    var p1 := Traced(bare, 1, None, ASKED_SVCS);
    assert DiscChrs(p1, Ok) == Traced(bare, 1, Some(1), asked);
    Deliveries(s1, p1, Link(CAMERA, Some(AllSvcs), 1), Pools(0, 1, 0), live, Event(EDone, None));
    var s2 := s1 + [Finished()];
    var p2 := Traced(bare, 1, Some(1), asked);
    assert ChrAdd(p2, Pools(0, 1, 0), 1, COMMAND).peer == Traced(CAMERA, 1, Some(1), asked) by { OneCommand(p2); }
    Deliveries(s2, p2, Link(CAMERA, Some(ChrsIn(1, 3)), 0), Pools(0, 1, 0), live, Event(Ok, Some(ChrItem(COMMAND))));
    var s3 := s2 + [Arrived(ChrItem(COMMAND))];
    var p3 := Traced(CAMERA, 1, Some(1), asked);
    assert DiscChrs(p3, Ok) == Complete(p3, Ok) by { NoRoom(p3); }
    Deliveries(s3, p3, Link(CAMERA, Some(ChrsIn(1, 3)), 1), Pools(0, 0, 0), live, Event(EDone, None));
    assert asked + [Reported(Ok)] == SUCCESS;
    assert s3 + [Finished()] == s0 + Discovered();
  }

  lemma {:induction false} OneCommand(p: Peer)
    requires p.svcs == [Svc(CAMERA_SVC, [])]
    ensures ChrAdd(p, Pools(0, 1, 0), 1, COMMAND) == Outcome(Ok, p.(svcs := CAMERA), Pools(0, 0, 0))
  {
    assert Starts(p.svcs) == [1] && Find([1], 1) == Some(0);
    assert Vals(p.svcs[0].chrs) == [] && LeadingBelow([], 2) == 0 && Find([], 2).None?;
    assert LinkAfter<Chr>([], 0, Chr(COMMAND, [])) == [Chr(COMMAND, [])];
    assert p.svcs[0 := Svc(CAMERA_SVC, [Chr(COMMAND, [])])] == CAMERA;
  }

  lemma {:induction false} NoRoom(p: Peer)
    requires p.svcs == CAMERA
    ensures DiscChrs(p, Ok) == Complete(p, Ok)
  {
  }

  /** Discovery on the older of two links succeeds: the record has the connection of the newer link
      and the command handle of the older one. */
  lemma {:induction false} TwoLinksMixed()
    ensures Gap.AllAllowed(Gap.Start(CAPS, NOBODY), Mixed())
    ensures Gap.Run(Gap.Start(CAPS, NOBODY), Mixed()).camera == Gap.Pair(2, 3)
  {
    hide Gap.Allowed, Gap.Handle, Lookup, LeastCommand, DbWf, Goal;
    AfterSetup();
    AfterDiscovery(Setup(), {1, 2});
    CameraWf();
    var evs := Mixed()[..6];
    assert evs + [Finished()] == Mixed();
    assert evs == Setup() + [Arrived(SvcItem(CAMERA_SVC)), Finished(), Arrived(ChrItem(COMMAND))];
    NewestIs(evs);
    Gap.PairedIffNewest(CAPS, NOBODY, evs, Finished(), 3);
    Gap.ConnectionIsNewest(Gap.Start(CAPS, NOBODY), evs + [Finished()]);
  }

  lemma {:induction false} NewestStays(evs: seq<Gap.GapEvent>, ev: Gap.GapEvent)
    requires !ev.LinkEstab?
    ensures Gap.Newest(evs + [ev]) == Gap.Newest(evs)
  {
  }

  lemma {:induction false} NewestIs(evs: seq<Gap.GapEvent>)
    requires evs == Setup() + [Arrived(SvcItem(CAMERA_SVC)), Finished(), Arrived(ChrItem(COMMAND))]
    ensures Gap.Newest(evs) == Some(2) && Gap.Newest(evs + [Finished()]) == Some(2)
  {
    hide Gap.Newest;
    assert Gap.Newest(evs[..2]) == Some(2) by { Established(evs[..2]); }
    NewestStays(evs[..2], evs[2]);
    NewestStays(evs[..3], evs[3]);
    NewestStays(evs[..4], evs[4]);
    NewestStays(evs[..5], evs[5]);
    NewestStays(evs, Finished());
    assert evs[..2] + [evs[2]] == evs[..3] && evs[..3] + [evs[3]] == evs[..4];
    assert evs[..4] + [evs[4]] == evs[..5] && evs[..5] + [evs[5]] == evs;
  }

  lemma {:induction false} Established(evs: seq<Gap.GapEvent>)
    requires |evs| == 2 && evs[1] == Gap.LinkEstab(Ok, 2, [])
    ensures Gap.Newest(evs) == Some(2)
  {
  }

  // ----- one link, and what comes after its success

  function Alone(): seq<Gap.GapEvent> {
    [Gap.LinkEstab(Ok, 1, CAMERA), Gap.EncChange(1, Ok)]
  }

  lemma {:induction false} AfterAlone()
    ensures Reached(Alone(), Traced([], 1, None, ASKED_SVCS), Link(CAMERA, Some(AllSvcs), 0), Pools(1, 1, 0), {1})
  {
    hide Gap.Allowed, Gap.Handle, Lookup, Discover;
    FirstLink();
    var evs, c0 := Alone(), Gap.Start(CAPS, NOBODY);
    assert evs[..2] == evs && evs[..2][..1] == evs[..1] && evs[..1][..0] == [];
    assert Gap.Run(c0, evs[..1][..0]) == c0 && Gap.AllAllowed(c0, evs[..1][..0]);
    assert evs[..1][|evs[..1]| - 1] == Setup()[0];
    assert Gap.Run(c0, evs[..1]) == OneLink() && Gap.AllAllowed(c0, evs[..1]);
    DiscoveringAlone();
  }

  lemma {:induction false} DiscoveringAlone()
    ensures Gap.Allowed(OneLink(), Gap.EncChange(1, Ok))
    ensures var c := Gap.Handle(OneLink(), Gap.EncChange(1, Ok));
      && 1 in c.w.links && c.w.links[1] == Link(CAMERA, Some(AllSvcs), 0) && c.live == {1}
      && Lookup(c.w.t, 1) == Some(Traced([], 1, None, ASKED_SVCS)) && c.w.t.pools == Pools(1, 1, 0)
  {
    hide Discover;
    BegunAs(Pools(1, 1, 0));
  }

  /** After success on the only link the record is right. */
  lemma {:induction false} PairedAlone()
    ensures Gap.AllAllowed(Gap.Start(CAPS, NOBODY), Alone() + Discovered())
    ensures Gap.Run(Gap.Start(CAPS, NOBODY), Alone() + Discovered()).camera == Gap.Pair(1, 3)
  {
    hide Gap.Allowed, Gap.Handle, Lookup;
    AfterAlone();
    AfterDiscovery(Alone(), {1});
    CameraWf();
    var evs := Alone() + [Arrived(SvcItem(CAMERA_SVC)), Finished(), Arrived(ChrItem(COMMAND))];
    assert evs + [Finished()] == Alone() + Discovered();
    assert Gap.Newest(evs) == Some(1) by { NewestAlone(evs); }
    Gap.PairedIffNewest(CAPS, NOBODY, evs, Finished(), 3);
  }

  lemma {:induction false} NewestAlone(evs: seq<Gap.GapEvent>)
    requires evs == Alone() + [Arrived(SvcItem(CAMERA_SVC)), Finished(), Arrived(ChrItem(COMMAND))]
    ensures Gap.Newest(evs) == Some(1)
  {
    hide Gap.Newest;
    assert Gap.Newest(evs[..1]) == Some(1) by { EstablishedFirst(evs[..1]); }
    NewestStays(evs[..1], evs[1]);
    NewestStays(evs[..2], evs[2]);
    NewestStays(evs[..3], evs[3]);
    NewestStays(evs[..4], evs[4]);
    assert evs[..1] + [evs[1]] == evs[..2] && evs[..2] + [evs[2]] == evs[..3];
    assert evs[..3] + [evs[3]] == evs[..4] && evs[..4] + [evs[4]] == evs;
  }

  lemma {:induction false} EstablishedFirst(evs: seq<Gap.GapEvent>)
    requires |evs| == 1 && evs[0] == Gap.LinkEstab(Ok, 1, CAMERA)
    ensures Gap.Newest(evs) == Some(1)
  {
  }

  /** A second link that comes up after that takes the connection and leaves the command handle. */
  lemma {:induction false} LateLink()
    ensures var evs := Alone() + Discovered() + [Gap.LinkEstab(Ok, 2, [])];
      && Gap.AllAllowed(Gap.Start(CAPS, NOBODY), evs)
      && Gap.Run(Gap.Start(CAPS, NOBODY), evs).camera == Gap.Pair(2, 3)
  {
    hide Gap.Handle, Lookup;
    var front, ev := Alone() + Discovered(), Gap.LinkEstab(Ok, 2, []);
    AfterAlone();
    AfterDiscovery(Alone(), {1});
    PairedAlone();
    assert (front + [ev])[..|front|] == front;
    Gap.RunOrderly(CAPS, NOBODY, front);
    RecordAfter(Gap.Run(Gap.Start(CAPS, NOBODY), front), CAPS, ev);
  }

  /** Discovery started again on the link and failing leaves the record. */
  lemma {:induction false} FailedAgain()
    ensures var evs := Alone() + Discovered() + [Gap.EncChange(1, Ok), Gap.GattEvent(1, Event(Stack(13), None), Ok)];
      && Gap.AllAllowed(Gap.Start(CAPS, NOBODY), evs)
      && Gap.Run(Gap.Start(CAPS, NOBODY), evs).camera == Gap.Pair(1, 3)
  {
    hide Gap.Handle, Gap.Allowed, Lookup, Callback, NextLink, Reached;
    var e := Event(Stack(13), None);
    var front, more := Alone() + Discovered(), Alone() + Discovered() + [Gap.EncChange(1, Ok)];
    AfterAlone();
    AfterDiscovery(Alone(), {1});
    PairedAlone();
    var pools := Restarted(front, Pools(0, 0, 0));
    var p, l := Traced([], 1, None, ASKED_SVCS), Link(CAMERA, Some(AllSvcs), 0);
    ErrorEndsAgain(p, pools, e);
    Deliveries(more, p, l, pools, {1}, e);
    Unpaired(more, p, l, pools, e);
    assert more + [Gap.GattEvent(1, e, Ok)]
        == Alone() + Discovered() + [Gap.EncChange(1, Ok), Gap.GattEvent(1, e, Ok)];
  }

  /** Discovery on link 1 started once more. */
  lemma {:induction false} Restarted(front: seq<Gap.GapEvent>, before: Pools) returns (pools: Pools)
    requires Reached(front, Traced(CAMERA, 0, Some(1), SUCCESS), Link(CAMERA, None, 0), before, {1})
    ensures var more := front + [Gap.EncChange(1, Ok)];
      && Reached(more, Traced([], 1, None, ASKED_SVCS), Link(CAMERA, Some(AllSvcs), 0), pools, {1})
      && Gap.Run(Gap.Start(CAPS, NOBODY), more).camera == Gap.Run(Gap.Start(CAPS, NOBODY), front).camera
  {
    hide Gap.Handle, Gap.Allowed, Lookup;
    var more, c := front + [Gap.EncChange(1, Ok)], Gap.Run(Gap.Start(CAPS, NOBODY), front);
    assert more[..|front|] == front;
    Gap.RunOrderly(CAPS, NOBODY, front);
    pools := StartedAgain(c);
    RecordAfter(c, CAPS, Gap.EncChange(1, Ok));
  }

  /** The error leaves the record. */
  lemma {:induction false} Unpaired(more: seq<Gap.GapEvent>, p: Peer, l: Link, pools: Pools, e: Event)
    requires p == Traced([], 1, None, ASKED_SVCS) && l == Link(CAMERA, Some(AllSvcs), 0)
    requires Reached(more, p, l, pools, {1}) && e == Event(Stack(13), None)
    ensures var all := more + [Gap.GattEvent(1, e, Ok)];
      && Gap.AllAllowed(Gap.Start(CAPS, NOBODY), all)
      && Gap.Run(Gap.Start(CAPS, NOBODY), all).camera == Gap.Run(Gap.Start(CAPS, NOBODY), more).camera
  {
    hide Gap.Handle, Gap.Allowed, Lookup, Callback, NextLink;
    var all := more + [Gap.GattEvent(1, e, Ok)];
    assert all[..|more|] == more;
    ErrorEndsAgain(p, pools, e);
    Deliveries(more, p, l, pools, {1}, e);
    Gap.RunOrderly(CAPS, NOBODY, more);
    RecordAfter(Gap.Run(Gap.Start(CAPS, NOBODY), more), CAPS, Gap.GattEvent(1, e, Ok));
  }

  lemma {:induction false} StartedAgain(c: Gap.Central) returns (pools: Pools)
    requires Gap.Orderly(c, CAPS) && c.live == {1}
    requires 1 in c.w.links && c.w.links[1] == Link(CAMERA, None, 0)
    ensures Gap.Allowed(c, Gap.EncChange(1, Ok))
    ensures var c' := Gap.Handle(c, Gap.EncChange(1, Ok));
      && 1 in c'.w.links && c'.w.links[1] == Link(CAMERA, Some(AllSvcs), 0) && c'.live == {1}
      && Lookup(c'.w.t, 1) == Some(Traced([], 1, None, ASKED_SVCS)) && c'.w.t.pools == pools
  {
    hide Discover, Lookup, Sound;
    InvFacts(c.w, CAPS);
    LookupAfterDiscover(c.w.t, 1, AllSvcs, true, Ok, 1);
    pools := Gap.Handle(c, Gap.EncChange(1, Ok)).w.t.pools;
  }

  lemma {:induction false} ErrorEndsAgain(p: Peer, pools: Pools, e: Event)
    requires e == Event(Stack(13), None) && p == Traced([], 1, None, ASKED_SVCS)
    ensures Deliverable(p, AllSvcs, e) && !Succeeded(Callback(p, pools, AllSvcs, e, Ok).peer.trace)
  {
    ErrorPassedOn(p, pools, AllSvcs, e, Ok);
  }
}
