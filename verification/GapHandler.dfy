/** The GAP event handler of gap.c on the peer table in memory and the global camera record. */
module GapHandler {
  import opened Gatt
  import opened PeerHeap
  import opened PeerTable
  import opened Subscription
  import opened GattClient
  import opened Gap
  import opened WriteLog
  import opened HostRuns
  import D = Discovery

  class Handler {
    const db: PeerDb
    const camera: Camera

    constructor (db: PeerDb, camera: Camera)
      ensures this.db == db && this.camera == camera
    {
      this.db, this.camera := db, camera;
    }

    /** The memory holds the state `c`. */
    ghost predicate Holds(c: Central)
      reads db, db.peerSeq, camera
    {
      && db.Table() == c.w.t
      && camera.connectionHandle == c.camera.connection && camera.commandHandle == c.camera.command
    }

    /** `ble_on_disc_complete` */
    method OnDiscComplete(p: PeerRec, status: Status) returns (ws: seq<Write>)
      requires db.Valid() && p in db.peerSeq
      modifies camera`commandHandle
      ensures Pair(camera.connectionHandle, camera.commandHandle)
           == Gap.OnDiscComplete(old(Pair(camera.connectionHandle, camera.commandHandle)), p.view, status)
      ensures ws == if status.Ok? then WritesTo(p.connHandle, Writes(p.view)) else []
    {
      hide PeerDb.Valid;
      if !status.Ok? {
        return [];
      }
      ws := SubscribeToCharacteristics(db, p);
      AssignCommandHandle(camera, db, p);
    }

    lemma {:induction false} PeerAt(i: nat)
      requires i < |db.peerSeq|
      ensures i < |db.Table().peers| && db.Table().peers[i] == db.peerSeq[i].Model()
    {
    }

    /** A callback of procedure `req` for the `i`-th peer, and what it reports. */
    method Deliver(p: PeerRec, ghost i: nat, h: uint16, req: D.Request, e: Runs.Event, rc: Status)
      returns (report: Option<Status>)
      requires db.Valid() && i < |db.peerSeq| && p == db.peerSeq[i] && Runs.Fits(req, e) && p.connHandle == h
      requires req.ChrsIn? && e.status.Ok? ==> p.cur.Some?
      modifies db, db.allPeers, db.allSvcs, db.allChrs, db.allDscs
      ensures db.Valid() && db.peerSeq == old(db.peerSeq)
      ensures db.Table() == PeerCallback(old(db.Table()), i, req, e, rc)
      ensures db.args == old(db.args) || db.args == old(db.args)[h := p]
      ensures report == NewReport(old(p.Model()), p.Model())
    {
      hide PeerDb.Valid, PeerDb.Models, PeerCallback;
      db.PeerFacts(p);
      var n := |p.trace|;
      var _ := db.Callback(p, i, h, req, e, rc);
      report := None;
      if |p.trace| > n && p.trace[|p.trace| - 1].Reported? {
        report := Some(p.trace[|p.trace| - 1].status);
      }
    }

    lemma {:induction false} CallbackAt(t: Table, i: nat, req: D.Request, e: Runs.Event, rc: Status)
      requires i < |t.peers| && Runs.Deliverable(t.peers[i], req, e)
      ensures var t' := PeerCallback(t, i, req, e, rc);
        i < |t'.peers| && t'.peers[i] == Runs.Callback(t.peers[i], t.pools, req, e, rc).peer
    {
    }

    /** A GATT callback with the argument registered with its procedure, and what it reports. */
    method DeliverTo(h: uint16, e: Runs.Event, rc: Status, req: D.Request, ghost w: World, ghost caps: Caps)
      returns (p: PeerRec, report: Option<Status>)
      requires db.Valid() && db.Table() == w.t && Inv(w, caps) && ArgsOk(db.args, db.peerSeq, w)
      requires Enabled(w, PeerTable.Deliver(h, e, rc)) && w.links[h].pending == Some(req)
      modifies db, db.allPeers, db.allSvcs, db.allChrs, db.allDscs
      ensures var w' := Exec(w, PeerTable.Deliver(h, e, rc));
        && db.Valid() && db.Table() == w'.t && ArgsOk(db.args, db.peerSeq, w')
        && p in db.peerSeq && Lookup(w'.t, h) == Some(p.Model())
        && Lookup(w.t, h).Some? && report == NewReport(Lookup(w.t, h).value, p.Model())
    {
      hide Inv, PeerDb.Valid, PeerDb.Models, PeerCallback, Lookup, Exec, NewReport, ArgsOk;
      ghost var args, ps := db.args, db.peerSeq;
      SameLength(db);
      ghost var k := Delivered(w, caps, h, e, rc);
      ArgumentMatches(db, w, h);
      p := db.args[h];
      CallbackAt(w.t, k, req, e, rc);
      report := Deliver(p, k, h, req, e, rc);
      PeerAt(k);
      ArgsStep(w, caps, PeerTable.Deliver(h, e, rc), args, ps, db.args, db.peerSeq);
    }

    /** A GATT callback, and the application's completion callback if it reports. */
    method OnGattEvent(h: uint16, e: Runs.Event, rc: Status, req: D.Request, ghost c: Central, ghost caps: Caps)
      returns (ws: seq<Write>)
      requires db.Valid() && Holds(c) && Inv(c.w, caps) && ArgsOk(db.args, db.peerSeq, c.w)
      requires Allowed(c, GattEvent(h, e, rc)) && c.w.links[h].pending == Some(req)
      modifies db, camera, db.allPeers, db.allSvcs, db.allChrs, db.allDscs
      ensures db.Valid() && Holds(Handle(c, GattEvent(h, e, rc)))
      ensures ArgsOk(db.args, db.peerSeq, Handle(c, GattEvent(h, e, rc)).w)
      ensures var p, q := Lookup(c.w.t, h), Lookup(Handle(c, GattEvent(h, e, rc)).w.t, h);
        && p.Some? && q.Some?
        && ws == if NewReport(p.value, q.value) == Some(Ok) then WritesTo(q.value.conn, Writes(q.value.svcs)) else []
    {
      hide Inv, PeerDb.Valid, PeerDb.Models, Lookup, Exec, NewReport, Gap.OnDiscComplete, ArgsOk;
      var p, report := DeliverTo(h, e, rc, req, c.w, caps);
      ws := [];
      if report.Some? {
        ws := OnDiscComplete(p, report.value);
      }
    }

    /** `blecent_gap_event` on the events that concern links. */
    method OnGapEvent(ev: GapEvent, ghost c: Central, ghost caps: Caps)
      requires db.Valid() && Holds(c) && Inv(c.w, caps) && ArgsOk(db.args, db.peerSeq, c.w)
      requires Allowed(c, ev) && !ev.GattEvent?
      modifies db, camera, db.allPeers, db.allSvcs, db.allChrs, db.allDscs
      ensures db.Valid() && Holds(Handle(c, ev)) && ArgsOk(db.args, db.peerSeq, Handle(c, ev).w)
    {
      hide Inv, PeerDb.Valid, PeerDb.Table, ArgsOk, Exec;
      match ev {
        case LinkEstab(status, h, remote) =>
          if status.Ok? {
            camera.connectionHandle := h;
            ServeAdd(db, h, remote, c.w, caps);
          }
        case Disconnect(h) =>
          ServeDelete(db, h, c.w, caps);
        case EncChange(h, rc) =>
          ServeBegin(db, h, D.AllSvcs, true, rc, c.w, caps);
      }
    }

    /** Any event the host delivers; `req` is the procedure a GATT callback is for. */
    method OnEvent(ev: GapEvent, req: D.Request, ghost c: Central, ghost caps: Caps) returns (ws: seq<Write>)
      requires db.Valid() && Holds(c) && Inv(c.w, caps) && ArgsOk(db.args, db.peerSeq, c.w) && Allowed(c, ev)
      requires ev.GattEvent? ==> c.w.links[ev.h].pending == Some(req)
      modifies db, camera, db.allPeers, db.allSvcs, db.allChrs, db.allDscs
      ensures db.Valid() && Holds(Handle(c, ev)) && ArgsOk(db.args, db.peerSeq, Handle(c, ev).w)
      ensures ws == EventWrites(c, ev)
    {
      hide Inv, PeerDb.Valid, PeerDb.Models, ArgsOk, Exec, Enabled, Lookup;
      ws := [];
      if ev.GattEvent? {
        ws := OnGattEvent(ev.h, ev.e, ev.rc, req, c, caps);
      } else {
        OnGapEvent(ev, c, caps);
      }
    }
  }

  // ----- whole runs of the handler

  datatype GapCall = GapCall(ev: GapEvent, req: D.Request)

  function Events(calls: seq<GapCall>): (r: seq<GapEvent>)
    ensures |r| == |calls| && forall k :: 0 <= k < |r| ==> r[k] == calls[k].ev
  {
    seq(|calls|, k requires 0 <= k < |calls| => calls[k].ev)
  }

  const NO_CAMERA := Pair(0, 0)

  /** Each GATT callback is for the procedure outstanding on its link. */
  ghost predicate Matched(caps: Caps, calls: seq<GapCall>) {
    forall k :: 0 <= k < |calls| && calls[k].ev.GattEvent? ==>
      var c := Moment(caps, NO_CAMERA, Events(calls), k);
      calls[k].ev.h in c.w.links && c.w.links[calls[k].ev.h].pending == Some(calls[k].req)
  }

  /** Every run of the handler from initialisation: the memory follows the event machine, no block is
      lost, the listed peers are those of the live links if the table always suffices, with one link
      at a time the camera record is right, and the writes are those that follow each success. */
  method HandleAll(nPeers: nat, nSvcs: nat, nChrs: nat, nDscs: nat, calls: seq<GapCall>)
    returns (hd: Handler, log: seq<Write>)
    requires AllAllowed(Start(Caps(D.Pools(nSvcs, nChrs, nDscs), nPeers), NO_CAMERA), Events(calls))
    requires Matched(Caps(D.Pools(nSvcs, nChrs, nDscs), nPeers), calls)
    ensures var caps := Caps(D.Pools(nSvcs, nChrs, nDscs), nPeers);
      var c := Run(Start(caps, NO_CAMERA), Events(calls));
      && hd.db.Valid() && hd.Holds(c) && BlocksInPlace(hd.db)
      && ((forall n :: 0 <= n <= |calls| ==> |Moment(caps, NO_CAMERA, Events(calls), n).live| <= nPeers) ==>
            forall h :: h in c.live <==> exists p :: p in hd.db.peerSeq && p.connHandle == h)
      && ((forall n :: 0 <= n <= |calls| ==> |Moment(caps, NO_CAMERA, Events(calls), n).live| <= 1) ==>
            forall h, v :: SucceededOn(c, h) && LeastCommand(c.w.links[h].db, v) ==>
              hd.camera.connectionHandle == h && hd.camera.commandHandle == v)
      && log == SuccessLog(caps, NO_CAMERA, Events(calls), |calls|)
      && (calls == [] ==> hd.camera.connectionHandle == 0 && hd.camera.commandHandle == 0)
  {
    hide Inv, PeerDb.Valid, PeerDb.Models, ArgsOk, Handle, Run, Moment, AllAllowed, BlocksInPlace, Matched,
         SuccessLog;
    ghost var caps := Caps(D.Pools(nSvcs, nChrs, nDscs), nPeers);
    var db := new PeerDb(nPeers, nSvcs, nChrs, nDscs);
    var camera := new Camera();
    hd := new Handler(db, camera);
    EmptyInv(caps, db.args, db.peerSeq);
    log := HandleEach(hd, calls, caps);
    ghost var c := Run(Start(caps, NO_CAMERA), Events(calls));
    InPlace(db, c.w, caps);
    ListedAreLive(caps, Events(calls), db);
    CamerasPaired(caps, Events(calls));
    if calls == [] {
      NothingHappened(caps);
    }
  }

  lemma {:induction false} NothingHappened(caps: Caps)
    ensures Events([]) == [] && Run(Start(caps, NO_CAMERA), []) == Start(caps, NO_CAMERA)
  {
  }

  method HandleEach(hd: Handler, calls: seq<GapCall>, ghost caps: Caps) returns (log: seq<Write>)
    requires AllAllowed(Start(caps, NO_CAMERA), Events(calls)) && Matched(caps, calls)
    requires hd.db.Valid() && hd.Holds(Start(caps, NO_CAMERA))
    requires Inv(Empty(caps), caps) && ArgsOk(hd.db.args, hd.db.peerSeq, Empty(caps))
    modifies hd.db, hd.camera, hd.db.allPeers, hd.db.allSvcs, hd.db.allChrs, hd.db.allDscs
    ensures hd.db.Valid() && hd.Holds(Run(Start(caps, NO_CAMERA), Events(calls)))
    ensures Inv(Run(Start(caps, NO_CAMERA), Events(calls)).w, caps)
    ensures log == SuccessLog(caps, NO_CAMERA, Events(calls), |calls|)
  {
    hide Inv, PeerDb.Valid, PeerDb.Table, ArgsOk, Handle, Allowed, Run, Moment, AllAllowed, Matched, SuccessWrites;
    log := [];
    ghost var evs := Events(calls);
    FirstMoment(caps, NO_CAMERA, evs);
    for n := 0 to |calls|
      invariant hd.db.Valid() && hd.Holds(Moment(caps, NO_CAMERA, evs, n))
      invariant Inv(Moment(caps, NO_CAMERA, evs, n).w, caps)
      invariant ArgsOk(hd.db.args, hd.db.peerSeq, Moment(caps, NO_CAMERA, evs, n).w)
      invariant log == SuccessLog(caps, NO_CAMERA, evs, n)
    {
      var ws := HandleNext(hd, calls, n, caps);
      log := log + ws;
    }
    LastMoment(caps, evs);
  }

  method HandleNext(hd: Handler, calls: seq<GapCall>, n: nat, ghost caps: Caps) returns (ws: seq<Write>)
    requires AllAllowed(Start(caps, NO_CAMERA), Events(calls)) && Matched(caps, calls) && n < |calls|
    requires var c := Moment(caps, NO_CAMERA, Events(calls), n);
      hd.db.Valid() && hd.Holds(c) && Inv(c.w, caps) && ArgsOk(hd.db.args, hd.db.peerSeq, c.w)
    modifies hd.db, hd.camera, hd.db.allPeers, hd.db.allSvcs, hd.db.allChrs, hd.db.allDscs
    ensures var c := Moment(caps, NO_CAMERA, Events(calls), n + 1);
      hd.db.Valid() && hd.Holds(c) && Inv(c.w, caps) && ArgsOk(hd.db.args, hd.db.peerSeq, c.w)
    ensures ws == SuccessWrites(caps, NO_CAMERA, Events(calls), n)
  {
    hide Inv, PeerDb.Valid, PeerDb.Table, ArgsOk, Handle, Allowed, Moment, AllAllowed, Matched, EventWrites,
         SuccessWrites;
    ghost var evs := Events(calls);
    ghost var c := Moment(caps, NO_CAMERA, evs, n);
    NextMoment(caps, NO_CAMERA, evs, n);
    if calls[n].ev.GattEvent? {
      MatchedAt(caps, calls, n);
    }
    ws := hd.OnEvent(calls[n].ev, calls[n].req, c, caps);
    HandleInv(c, caps, evs[n]);
    WritesFollowSuccess(caps, NO_CAMERA, evs, n);
  }

  lemma {:induction false} MatchedAt(caps: Caps, calls: seq<GapCall>, n: nat)
    requires Matched(caps, calls) && n < |calls| && calls[n].ev.GattEvent?
    ensures var c := Moment(caps, NO_CAMERA, Events(calls), n);
      calls[n].ev.h in c.w.links && c.w.links[calls[n].ev.h].pending == Some(calls[n].req)
  {
  }

  lemma {:induction false} HandleInv(c: Central, caps: Caps, ev: GapEvent)
    requires Orderly(c, caps) && Allowed(c, ev)
    ensures Inv(Handle(c, ev).w, caps)
  {
    hide Handle, Allowed;
    HandleOrderly(c, caps, ev);
  }

  lemma {:induction false} LastMoment(caps: Caps, evs: seq<GapEvent>)
    ensures Moment(caps, NO_CAMERA, evs, |evs|) == Run(Start(caps, NO_CAMERA), evs)
  {
    assert evs[..|evs|] == evs;
  }

  lemma {:induction false} ListedAreLive(caps: Caps, evs: seq<GapEvent>, db: PeerDb)
    requires AllAllowed(Start(caps, NO_CAMERA), evs)
    requires db.Table() == Run(Start(caps, NO_CAMERA), evs).w.t
    ensures (forall n :: 0 <= n <= |evs| ==> |Moment(caps, NO_CAMERA, evs, n).live| <= caps.peers) ==>
      forall h :: h in Run(Start(caps, NO_CAMERA), evs).live <==> exists p :: p in db.peerSeq && p.connHandle == h
  {
    hide Inv, Handle, Allowed, Moment, Run, AllAllowed;
    var c := Run(Start(caps, NO_CAMERA), evs);
    if forall n :: 0 <= n <= |evs| ==> |Moment(caps, NO_CAMERA, evs, n).live| <= caps.peers {
      LiveUpTo(caps, NO_CAMERA, evs, |evs|);
      LastMoment(caps, evs);
      RunOrderly(caps, NO_CAMERA, evs);
      InvFacts(c.w, caps);
      forall h ensures h in c.live <==> exists p :: p in db.peerSeq && p.connHandle == h {
        ListedHas(db, h);
      }
    }
  }

  lemma {:induction false} ListedHas(db: PeerDb, h: uint16)
    ensures Lookup(db.Table(), h).Some? <==> exists p :: p in db.peerSeq && p.connHandle == h
  {
  }

  lemma {:induction false} CamerasPaired(caps: Caps, evs: seq<GapEvent>)
    requires AllAllowed(Start(caps, NO_CAMERA), evs)
    ensures var c := Run(Start(caps, NO_CAMERA), evs);
      (forall n :: 0 <= n <= |evs| ==> |Moment(caps, NO_CAMERA, evs, n).live| <= 1) ==>
        forall h, v :: SucceededOn(c, h) && LeastCommand(c.w.links[h].db, v) ==> c.camera == Pair(h, v)
  {
    hide Handle, Allowed, Moment, Run, AllAllowed, LeastCommand;
    var c := Run(Start(caps, NO_CAMERA), evs);
    if forall n :: 0 <= n <= |evs| ==> |Moment(caps, NO_CAMERA, evs, n).live| <= 1 {
      forall h, v | SucceededOn(c, h) && LeastCommand(c.w.links[h].db, v) ensures c.camera == Pair(h, v) {
        CameraIsPaired(caps, NO_CAMERA, evs, h, v);
      }
    }
  }
}
