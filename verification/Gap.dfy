/** The GAP event handler: which links have a peer, and what the camera record points at, over every
    sequence of events. */
module Gap {
  import opened Gatt
  import opened Discovery
  import opened Remote
  import opened Runs
  import opened Exactness
  import opened Completion
  import opened PeerTable
  import opened Subscription
  import opened Ranges

  /** `connected_camera` without its address. */
  datatype Pair = Pair(connection: uint16, command: uint16)

  datatype Central = Central(w: World, live: set<uint16>, camera: Pair)

  /** Link establishment with its status and the database behind the new link; disconnection;
      encryption change with the stack's answer to the discovery it starts; and a callback of a GATT
      procedure with the stack's answer to the next one. */
  datatype GapEvent =
    | LinkEstab(status: Status, h: uint16, db: seq<Svc>)
    | Disconnect(h: uint16)
    | EncChange(h: uint16, rc: Status)
    | GattEvent(h: uint16, e: Event, rc: Status)

  /** A link comes up before it goes down, with a handle no live link has; the rest is the contract
      of the discovery engine. */
  predicate Allowed(c: Central, ev: GapEvent) {
    match ev
    case LinkEstab(status, h, db) => status.Ok? ==> h !in c.live && DbWf(db)
    case Disconnect(h) => h in c.live && Quiet(c.w, h)
    case EncChange(h, _) => h in c.live && Quiet(c.w, h)
    case GattEvent(h, e, rc) => Enabled(c.w, Deliver(h, e, rc))
  }

  /** The report that was made while `p` became `q`. */
  function NewReport(p: Peer, q: Peer): Option<Status> {
    var n := |q.trace|;
    if |p.trace| < n && q.trace[n - 1].Reported? then Some(q.trace[n - 1].status) else None
  }

  /** `ble_on_disc_complete`; on failure the link is asked to end, which comes back as an event. */
  function OnDiscComplete(camera: Pair, svcs: seq<Svc>, status: Status): Pair {
    if !status.Ok? then camera
    else match CommandHandle(svcs)
      case None => camera
      case Some(v) => camera.(command := v)
  }

  function AfterGatt(camera: Pair, p: Option<Peer>, q: Option<Peer>): Pair {
    if p.Some? && q.Some? && NewReport(p.value, q.value).Some?
    then OnDiscComplete(camera, q.value.svcs, NewReport(p.value, q.value).value)
    else camera
  }

  /** `blecent_gap_event` and the callbacks of the procedures it leads to. */
  function Handle(c: Central, ev: GapEvent): Central {
    match ev
    case LinkEstab(status, h, db) =>
      if status.Ok? then Central(Exec(c.w, Add(h, db)), c.live + {h}, c.camera.(connection := h)) else c
    case Disconnect(h) => Central(Exec(c.w, Delete(h)), c.live - {h}, c.camera)
    case EncChange(h, rc) => c.(w := Exec(c.w, Begin(h, AllSvcs, true, rc)))
    case GattEvent(h, e, rc) =>
      var w := Exec(c.w, Deliver(h, e, rc));
      c.(w := w, camera := AfterGatt(c.camera, Lookup(c.w.t, h), Lookup(w.t, h)))
  }

  function Start(caps: Caps, camera: Pair): Central {
    Central(Empty(caps), {}, camera)
  }

  function Run(c: Central, evs: seq<GapEvent>): Central {
    if evs == [] then c else Handle(Run(c, evs[..|evs| - 1]), evs[|evs| - 1])
  }

  predicate AllAllowed(c: Central, evs: seq<GapEvent>) {
    evs == [] || (AllAllowed(c, evs[..|evs| - 1]) && Allowed(Run(c, evs[..|evs| - 1]), evs[|evs| - 1]))
  }

  // ----- the table's handles are live links

  ghost predicate Orderly(c: Central, caps: Caps) {
    && Inv(c.w, caps)
    && c.w.links.Keys <= c.live
    && forall h :: h in c.w.links ==>
         var p := Lookup(c.w.t, h);
         p.Some? && (p.value.trace != [] ==> p.value.trace[0].Started? && p.value.trace[0].req == AllSvcs)
  }

  lemma {:induction false} LinksAfter(w: World, caps: Caps, a: Action)
    requires Inv(w, caps) && Enabled(w, a)
    ensures var w' := Exec(w, a);
      match a
      case Add(h, _) =>
        if h !in w.links && |w.t.peers| == caps.peers then w'.links == w.links else w'.links.Keys == w.links.Keys + {h}
      case Delete(h) => w'.links.Keys == w.links.Keys - {h}
      case _ => w'.links.Keys == w.links.Keys
  {
    hide Sound, Truthful, Total, Callback, NextLink;
    if a.Add? {
      LookupAfterAdd(w.t, a.h, a.h);
    }
  }

  /** The peer of the link an event is about. */
  lemma {:induction false} PeerAfter(w: World, caps: Caps, a: Action)
    requires Inv(w, caps) && Enabled(w, a) && a.h in Exec(w, a).links
    ensures Lookup(Exec(w, a).t, a.h).Some?
    ensures var q := Lookup(Exec(w, a).t, a.h).value;
      match a
      case Add(h, _) => if h in w.links then Lookup(w.t, h) == Some(q) else q == FreshPeer(h)
      case Delete(h) => true
      case Begin(h, root, cb, rc) => q.trace == [Started(root, rc)]
      case Deliver(h, e, rc) =>
        && Lookup(w.t, h).Some? && Lookup(w.t, h).value.trace != []
        && !Succeeded(Lookup(w.t, h).value.trace) && Lookup(w.t, h).value.trace <= q.trace
  {
    hide Sound, Truthful, Total, Callback, NextLink, Released, Inv;
    InvStep(w, caps, a);
    InvFacts(w, caps);
    InvFacts(Exec(w, a), caps);
    match a
    case Add(h, _) => LookupAfterAdd(w.t, h, h);
    case Delete(h) =>
    case Begin(h, root, cb, rc) => BegunTrace(w, h, root, cb, rc);
    case Deliver(h, e, rc) => DeliveredTrace(w, caps, h, e, rc);
  }

  lemma {:induction false} BegunTrace(w: World, h: uint16, root: Request, cb: bool, rc: Status)
    requires Unique(w.t.peers) && Lookup(w.t, h).Some?
    ensures var t := Exec(w, Begin(h, root, cb, rc)).t;
      Lookup(t, h).Some? && Lookup(t, h).value.trace == [Started(root, rc)]
  {
    var i := IndexOfPeer(w.t.peers, h).value;
    var o := Discover(w.t.peers[i], w.t.pools, root, cb, rc);
    LookupAfterUpdate(w.t, i, o.peer, h, o.pools);
  }

  lemma {:induction false} DeliveredTrace(w: World, caps: Caps, h: uint16, e: Event, rc: Status)
    requires Inv(w, caps) && Enabled(w, Deliver(h, e, rc))
    ensures var p, q := Lookup(w.t, h), Lookup(Exec(w, Deliver(h, e, rc)).t, h);
      && p.Some? && q.Some? && p.value.trace != [] && !Succeeded(p.value.trace) && p.value.trace <= q.value.trace
  {
    hide Callback, Truthful, Sound, NextLink, Inv, Exec, Lookup, PeerCallback;
    var i := Delivered(w, caps, h, e, rc);
    PendingTrace(w.links[h], w.t.peers[i]);
    CallbackKeeps(w.t.peers[i], w.t.pools, w.links[h].pending.value, e, rc);
  }

  lemma {:induction false} PendingTrace(l: Link, p: Peer)
    requires Sound(l, p) && l.pending.Some?
    ensures p.trace != [] && !Succeeded(p.trace)
  {
  }

  /** The engine's action behind an event. */
  function ActionOf(ev: GapEvent): Action {
    match ev
    case LinkEstab(_, h, db) => Add(h, db)
    case Disconnect(h) => Delete(h)
    case EncChange(h, rc) => Begin(h, AllSvcs, true, rc)
    case GattEvent(h, e, rc) => Deliver(h, e, rc)
  }

  predicate Acts(ev: GapEvent) {
    ev.LinkEstab? ==> ev.status.Ok?
  }

  lemma {:induction false} HandleOrderly(c: Central, caps: Caps, ev: GapEvent)
    requires Orderly(c, caps) && Allowed(c, ev)
    ensures Orderly(Handle(c, ev), caps)
  {
    hide Inv, Exec, Truthful, DbWf, Lookup;
    if Acts(ev) {
      var a := ActionOf(ev);
      var c' := Handle(c, ev);
      assert Enabled(c.w, a) && c'.w == Exec(c.w, a);
      InvStep(c.w, caps, a);
      InvFacts(c.w, caps);
      LinksAfter(c.w, caps, a);
      forall h | h in c'.w.links
        ensures var p := Lookup(c'.w.t, h);
          p.Some? && (p.value.trace != [] ==> p.value.trace[0].Started? && p.value.trace[0].req == AllSvcs)
      {
        if h == a.h {
          PeerAfter(c.w, caps, a);
        } else {
          OthersUntouched(c.w, a, h);
        }
      }
    }
  }

  lemma {:induction false} RunOrderly(caps: Caps, camera: Pair, evs: seq<GapEvent>)
    requires AllAllowed(Start(caps, camera), evs)
    ensures Orderly(Run(Start(caps, camera), evs), caps)
  {
    hide Handle, Allowed;
    if evs != [] {
      RunOrderly(caps, camera, evs[..|evs| - 1]);
      HandleOrderly(Run(Start(caps, camera), evs[..|evs| - 1]), caps, evs[|evs| - 1]);
    }
  }

  /** Over every run, only live links have a peer. */
  lemma {:induction false} HandlesAreLive(caps: Caps, camera: Pair, evs: seq<GapEvent>, p: Peer)
    requires AllAllowed(Start(caps, camera), evs)
    ensures var c := Run(Start(caps, camera), evs); p in c.w.t.peers ==> p.conn in c.live
  {
    hide Inv;
    RunOrderly(caps, camera, evs);
    var c := Run(Start(caps, camera), evs);
    InvFacts(c.w, caps);
    assert p in c.w.t.peers ==> Lookup(c.w.t, p.conn).Some?;
  }

  // ----- the table's handles are all live links, as long as the pool of peers suffices

  predicate TableIsLive(c: Central) {
    c.w.links.Keys == c.live
  }

  function Conns(peers: seq<Peer>): (r: set<uint16>)
    ensures forall i :: 0 <= i < |peers| ==> peers[i].conn in r
    ensures forall h :: h in r ==> IndexOfPeer(peers, h).Some?
  {
    if peers == [] then {} else {peers[0].conn} + Conns(peers[1..])
  }

  lemma {:induction false} ConnsCount(peers: seq<Peer>)
    requires Unique(peers)
    ensures |Conns(peers)| == |peers|
  {
    if peers != [] {
      ConnsCount(peers[1..]);
      forall h | h in Conns(peers[1..]) ensures h != peers[0].conn {
        var i := IndexOfPeer(peers[1..], h).value;
        assert peers[i + 1].conn == h;
      }
    }
  }

  lemma {:induction false} LinksCount(w: World, caps: Caps)
    requires Inv(w, caps)
    ensures |w.links.Keys| == |w.t.peers| <= caps.peers
  {
    hide Sound, Total;
    ConnsCount(w.t.peers);
    forall h ensures h in w.links.Keys <==> h in Conns(w.t.peers) {
      if Lookup(w.t, h).Some? {
        var i := IndexOfPeer(w.t.peers, h).value;
        assert w.t.peers[i].conn == h;
      }
    }
    assert w.links.Keys == Conns(w.t.peers);
  }

  lemma {:induction false} StaysLive(c: Central, caps: Caps, ev: GapEvent)
    requires Orderly(c, caps) && TableIsLive(c) && Allowed(c, ev) && |Handle(c, ev).live| <= caps.peers
    ensures TableIsLive(Handle(c, ev))
  {
    hide Inv, Exec, Truthful, DbWf, Lookup;
    if Acts(ev) {
      LinksCount(c.w, caps);
      LinksAfter(c.w, caps, ActionOf(ev));
    }
  }

  lemma {:induction false} PrefixAllowed(c: Central, evs: seq<GapEvent>, n: nat)
    requires AllAllowed(c, evs) && n <= |evs|
    ensures AllAllowed(c, evs[..n])
    decreases |evs|
  {
    hide Allowed, Handle;
    if n < |evs| {
      PrefixAllowed(c, evs[..|evs| - 1], n);
      assert evs[..|evs| - 1][..n] == evs[..n];
    } else {
      assert evs[..n] == evs;
    }
  }

  /** The state after the first `n` events. */
  function Moment(caps: Caps, camera: Pair, evs: seq<GapEvent>, n: nat): Central
    requires n <= |evs|
  {
    Run(Start(caps, camera), evs[..n])
  }

  lemma {:induction false} NextMoment(caps: Caps, camera: Pair, evs: seq<GapEvent>, n: nat)
    requires AllAllowed(Start(caps, camera), evs) && n < |evs|
    ensures Orderly(Moment(caps, camera, evs, n), caps) && Allowed(Moment(caps, camera, evs, n), evs[n])
    ensures Moment(caps, camera, evs, n + 1) == Handle(Moment(caps, camera, evs, n), evs[n])
  {
    hide Allowed, Handle;
    PrefixAllowed(Start(caps, camera), evs, n + 1);
    PrefixAllowed(Start(caps, camera), evs, n);
    RunOrderly(caps, camera, evs[..n]);
    assert evs[..n + 1][..n] == evs[..n];
  }

  lemma {:induction false} LiveUpTo(caps: Caps, camera: Pair, evs: seq<GapEvent>, n: nat)
    requires AllAllowed(Start(caps, camera), evs) && n <= |evs|
    requires forall k :: 0 <= k <= n ==> |Moment(caps, camera, evs, k).live| <= caps.peers
    ensures TableIsLive(Moment(caps, camera, evs, n))
  {
    hide Allowed, Handle, Moment;
    if n == 0 {
      FirstMoment(caps, camera, evs);
    } else {
      LiveUpTo(caps, camera, evs, n - 1);
      NextMoment(caps, camera, evs, n - 1);
      StaysLive(Moment(caps, camera, evs, n - 1), caps, evs[n - 1]);
    }
  }

  lemma {:induction false} FirstMoment(caps: Caps, camera: Pair, evs: seq<GapEvent>)
    ensures Moment(caps, camera, evs, 0) == Start(caps, camera)
  {
  }

  /** Over every run: at all moments the peers are those of the live links, if and only if at no
      moment there are more live links than the table can hold. */
  lemma {:induction false} TableIsLiveIff(caps: Caps, camera: Pair, evs: seq<GapEvent>)
    requires AllAllowed(Start(caps, camera), evs)
    ensures (forall n :: 0 <= n <= |evs| ==> TableIsLive(Moment(caps, camera, evs, n)))
      <==> (forall n :: 0 <= n <= |evs| ==> |Moment(caps, camera, evs, n).live| <= caps.peers)
  {
    hide Inv;
    forall n | 0 <= n <= |evs| && TableIsLive(Moment(caps, camera, evs, n))
      ensures |Moment(caps, camera, evs, n).live| <= caps.peers
    {
      PrefixAllowed(Start(caps, camera), evs, n);
      RunOrderly(caps, camera, evs[..n]);
      LinksCount(Moment(caps, camera, evs, n).w, caps);
    }
    if forall n :: 0 <= n <= |evs| ==> |Moment(caps, camera, evs, n).live| <= caps.peers {
      forall n | 0 <= n <= |evs| ensures TableIsLive(Moment(caps, camera, evs, n)) {
        LiveUpTo(caps, camera, evs, n);
      }
    }
  }

  // ----- what the camera record names

  /** The link established last. */
  function Newest(evs: seq<GapEvent>): Option<uint16> {
    if evs == [] then None
    else
      var ev := evs[|evs| - 1];
      if ev.LinkEstab? && ev.status.Ok? then Some(ev.h) else Newest(evs[..|evs| - 1])
  }

  lemma {:induction false} ConnectionIsNewest(c: Central, evs: seq<GapEvent>)
    ensures Run(c, evs).camera.connection
         == match Newest(evs) case Some(h) => h case None => c.camera.connection
  {
    hide Exec;
    if evs != [] {
      ConnectionIsNewest(c, evs[..|evs| - 1]);
    }
  }

  /** The tree behind a success report is the remote's whole database. */
  lemma {:induction false} SuccessIsDatabase(c: Central, caps: Caps, h: uint16)
    requires Orderly(c, caps) && h in c.w.links
    ensures Lookup(c.w.t, h).Some?
    ensures var p := Lookup(c.w.t, h).value;
      Succeeded(p.trace) ==> p.svcs == c.w.links[h].db && DbWf(p.svcs)
  {
    hide Sound, Exact;
    var p := Lookup(c.w.t, h).value;
    InvFacts(c.w, caps);
    if Succeeded(p.trace) {
      SuccessExact(c.w.links[h], p);
      ExactTree(Goal(c.w.links[h].db, AllSvcs), AllSvcs, p);
      GoalOfAll(c.w.links[h].db);
      TreeInOrder(c.w.links[h], p);
    }
  }

  lemma {:induction false} ExactTree(goal: seq<Svc>, root: Request, p: Peer)
    requires Exact(goal, root, p)
    ensures p.svcs == goal
  {
  }

  /** A callback after which discovery has succeeded sets the command handle. */
  lemma {:induction false} ReportSetsCommand(c: Central, caps: Caps, ev: GapEvent)
    requires Orderly(c, caps) && ev.GattEvent? && Allowed(c, ev)
    ensures ev.h in Handle(c, ev).w.links && Lookup(Handle(c, ev).w.t, ev.h).Some?
    ensures var c' := Handle(c, ev);
      var q := Lookup(c'.w.t, ev.h).value;
      Succeeded(q.trace) && CommandHandle(q.svcs).Some? ==> c'.camera.command == CommandHandle(q.svcs).value
  {
    hide Inv, Exec, Truthful, DbWf, Lookup;
    LinksAfter(c.w, caps, ActionOf(ev));
    PeerAfter(c.w, caps, ActionOf(ev));
    var p, q := Lookup(c.w.t, ev.h).value, Lookup(Handle(c, ev).w.t, ev.h).value;
    assert |p.trace| == |q.trace| ==> p.trace == q.trace;
  }

  /** Discovery on the link of `h` has ended with a success report. */
  predicate SucceededOn(c: Central, h: uint16) {
    h in c.w.links && Lookup(c.w.t, h).Some? && Succeeded(Lookup(c.w.t, h).value.trace)
  }

  /** Any number of links: right after a success report on `h` from a camera that has the command
      characteristic, the record names that link and the least such handle of its database, if and
      only if `h` is the link established last; the command handle is right in any case. */
  lemma {:induction false} PairedIffNewest(caps: Caps, camera: Pair, evs: seq<GapEvent>, ev: GapEvent, v: uint16)
    requires AllAllowed(Start(caps, camera), evs + [ev]) && ev.GattEvent? && Newest(evs).Some?
    ensures var c := Run(Start(caps, camera), evs + [ev]);
      SucceededOn(c, ev.h) && LeastCommand(c.w.links[ev.h].db, v) ==>
        && c.camera.command == v
        && (c.camera == Pair(ev.h, v) <==> Newest(evs) == Some(ev.h))
  {
    hide Allowed, Handle, Orderly, LeastCommand, Lookup;
    var all := evs + [ev];
    assert all[..|all| - 1] == evs;
    var c0 := Run(Start(caps, camera), evs);
    var c := Run(Start(caps, camera), all);
    RunOrderly(caps, camera, evs);
    RunOrderly(caps, camera, all);
    ReportSetsCommand(c0, caps, ev);
    if SucceededOn(c, ev.h) {
      SuccessIsDatabase(c, caps, ev.h);
      CommandHandleIsLeast(c.w.links[ev.h].db, v);
    }
    ConnectionIsNewest(Start(caps, camera), all);
  }

  // ----- one link at a time

  ghost predicate Paired(c: Central) {
    && (forall h :: h in c.live ==> c.camera.connection == h)
    && (forall h :: h in c.w.links ==>
          var p := Lookup(c.w.t, h);
          p.Some? && (Succeeded(p.value.trace) && CommandHandle(p.value.svcs).Some? ==>
            c.camera.command == CommandHandle(p.value.svcs).value))
  }

  lemma {:induction false} OnlyOne(live: set<uint16>, a: uint16, b: uint16)
    requires |live| <= 1 && a in live && b in live
    ensures a == b
  {
    assert |live - {a}| == |live| - 1;
    assert live - {a} == {};
  }

  lemma {:induction false} StaysPaired(c: Central, caps: Caps, ev: GapEvent)
    requires Orderly(c, caps) && Paired(c) && Allowed(c, ev) && |c.live| <= 1 && |Handle(c, ev).live| <= 1
    ensures Paired(Handle(c, ev))
  {
    hide Inv, Exec, Truthful, DbWf, Lookup, CommandHandle;
    if Acts(ev) {
      var a := ActionOf(ev);
      var c' := Handle(c, ev);
      HandleOrderly(c, caps, ev);
      LinksAfter(c.w, caps, a);
      forall h | h in c'.live ensures c'.camera.connection == h {
        if ev.LinkEstab? {
          OnlyOne(c'.live, h, ev.h);
        }
      }
      forall h | h in c'.w.links
        ensures var p := Lookup(c'.w.t, h);
          p.Some? && (Succeeded(p.value.trace) && CommandHandle(p.value.svcs).Some? ==>
            c'.camera.command == CommandHandle(p.value.svcs).value)
      {
        OnlyOne(c'.live, h, a.h);
        PeerAfter(c.w, caps, a);
        if ev.GattEvent? {
          ReportSetsCommand(c, caps, ev);
        }
      }
    }
  }

  lemma {:induction false} PairedUpTo(caps: Caps, camera: Pair, evs: seq<GapEvent>, n: nat)
    requires AllAllowed(Start(caps, camera), evs) && n <= |evs|
    requires forall k :: 0 <= k <= n ==> |Moment(caps, camera, evs, k).live| <= 1
    ensures Paired(Moment(caps, camera, evs, n))
  {
    hide Allowed, Handle, Moment;
    if n == 0 {
      FirstMoment(caps, camera, evs);
    } else {
      PairedUpTo(caps, camera, evs, n - 1);
      NextMoment(caps, camera, evs, n - 1);
      StaysPaired(Moment(caps, camera, evs, n - 1), caps, evs[n - 1]);
    }
  }

  /** Over every run with at most one live link at a time: whenever the link's discovery has
      succeeded and the camera has the command characteristic, the record names the link and the
      least value handle with the command UUID in the camera's database. */
  lemma {:induction false} CameraIsPaired(caps: Caps, camera: Pair, evs: seq<GapEvent>, h: uint16, v: uint16)
    requires AllAllowed(Start(caps, camera), evs)
    requires forall n :: 0 <= n <= |evs| ==> |Moment(caps, camera, evs, n).live| <= 1
    requires var c := Run(Start(caps, camera), evs);
      SucceededOn(c, h) && LeastCommand(c.w.links[h].db, v)
    ensures Run(Start(caps, camera), evs).camera == Pair(h, v)
  {
    hide Allowed, Handle, Inv, LeastCommand, Lookup;
    var c := Run(Start(caps, camera), evs);
    assert evs[..|evs|] == evs;
    assert Moment(caps, camera, evs, |evs|) == c;
    PairedUpTo(caps, camera, evs, |evs|);
    RunOrderly(caps, camera, evs);
    SuccessIsDatabase(c, caps, h);
    CommandHandleIsLeast(c.w.links[h].db, v);
  }
}
