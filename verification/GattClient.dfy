/** The loops of gatt.c over a discovered tree in memory. */
module GattClient {
  import opened Gatt
  import opened Subscription
  import opened PeerHeap

  class Camera {
    var connectionHandle: uint16
    var commandHandle: uint16

    constructor ()
      ensures connectionHandle == 0 && commandHandle == 0
    {
      connectionHandle, commandHandle := 0, 0;
    }
  }

  lemma {:induction false} WritesJoin(conn: uint16, a: seq<uint16>, b: seq<uint16>)
    ensures WritesTo(conn, a + b) == WritesTo(conn, a) + WritesTo(conn, b)
  {
  }

  lemma {:induction false} PrefixNext<X>(xs: seq<X>, n: nat)
    requires n < |xs|
    ensures xs[..n + 1][..n] == xs[..n] && xs[..n + 1][n] == xs[n]
  {
  }

  /** `SLIST_FOREACH(dsc, &chr->dscs, next)` */
  method SubscribeChr(c: PeerChr, conn: uint16) returns (ws: seq<Write>)
    requires OkChr(c)
    ensures ws == WritesTo(conn, ChrWrites(c.view))
  {
    hide Distinct;
    ws := [];
    var dsc, n := c.dscs, 0;
    ghost var hs: seq<uint16> := [];
    while dsc != null
      invariant n <= |c.dscSeq| && dsc == (if n < |c.dscSeq| then c.dscSeq[n] else null)
      invariant hs == ChrWrites(Chr(c.view.decl, c.view.dscs[..n]))
      invariant ws == WritesTo(conn, hs)
      decreases |c.dscSeq| - n
    {
      PrefixNext(c.view.dscs, n);
      if dsc.dsc.uuid == CCCD_UUID {
        var value: bv16 := 0;
        if c.chr.props & PROP_NOTIFY != 0 {
          value := value | 0x10;
          ws := ws + [Write(conn, dsc.dsc.handle, value)];
          hs := hs + [dsc.dsc.handle];
        }
      }
      dsc, n := dsc.next, n + 1;
    }
    assert c.view.dscs[..n] == c.view.dscs;
  }

  /** `SLIST_FOREACH(chr, &svc->chrs, next)` */
  method SubscribeSvc(db: PeerDb, s: PeerSvc, conn: uint16) returns (ws: seq<Write>)
    requires db.Valid() && s in db.allSvcs
    ensures ws == WritesTo(conn, ChrsWrites(s.view.chrs))
  {
    hide PeerDb.Valid, OkChr, Distinct;
    SvcOk(db, s);
    ws := [];
    var chr, n := s.chrs, 0;
    while chr != null
      invariant n <= |s.chrSeq| && chr == (if n < |s.chrSeq| then s.chrSeq[n] else null)
      invariant ws == WritesTo(conn, ChrsWrites(s.view.chrs[..n]))
      decreases |s.chrSeq| - n
    {
      PrefixNext(s.view.chrs, n);
      WritesJoin(conn, ChrsWrites(s.view.chrs[..n]), ChrWrites(s.view.chrs[n]));
      var more := SubscribeChr(chr, conn);
      ws := ws + more;
      chr, n := chr.next, n + 1;
    }
    assert s.view.chrs[..n] == s.view.chrs;
  }

  lemma {:induction false} SvcOk(db: PeerDb, s: PeerSvc)
    requires db.Valid() && s in db.allSvcs
    ensures OkSvc(s) && forall c :: c in s.chrSeq ==> OkChr(c)
  {
  }

  lemma {:induction false} PeerOk(db: PeerDb, p: PeerRec)
    requires db.Valid() && p in db.peerSeq
    ensures OkPeer(p) && forall s :: s in p.svcSeq ==> s in db.allSvcs
  {
  }

  /** `subscribe_to_characteristics`: one write to each configuration descriptor of a notifying
      characteristic of a GoPro service, in list order, and no other. */
  method SubscribeToCharacteristics(db: PeerDb, p: PeerRec) returns (ws: seq<Write>)
    requires db.Valid() && p in db.peerSeq
    ensures ws == WritesTo(p.connHandle, Writes(p.view))
  {
    hide PeerDb.Valid, OkSvc, Distinct;
    PeerOk(db, p);
    ws := [];
    var svc, n := p.svcs, 0;
    while svc != null
      invariant n <= |p.svcSeq| && svc == (if n < |p.svcSeq| then p.svcSeq[n] else null)
      invariant ws == WritesTo(p.connHandle, Writes(p.view[..n]))
      decreases |p.svcSeq| - n
    {
      PrefixNext(p.view, n);
      WritesJoin(p.connHandle, Writes(p.view[..n]), SvcWrites(p.view[n]));
      if svc.svc.uuid == GOPRO_SERVICE_UUID {
        var more := SubscribeSvc(db, svc, p.connHandle);
        ws := ws + more;
      }
      svc, n := svc.next, n + 1;
    }
    assert p.view[..n] == p.view;
  }

  /** The inner loop of `assign_command_handle`, from the first characteristic on. */
  method FindCommand(s: PeerSvc) returns (chr: PeerChr?)
    requires OkSvc(s)
    ensures FirstCommand(s.view.chrs) == if chr == null then None else Some(chr.chr.val)
  {
    hide Distinct;
    ghost var n := 0;
    chr := s.chrs;
    while chr != null
      invariant n <= |s.chrSeq| && chr == (if n < |s.chrSeq| then s.chrSeq[n] else null)
      invariant FirstCommand(s.view.chrs) == FirstCommand(s.view.chrs[n..])
      decreases |s.chrSeq| - n
    {
      assert s.view.chrs[n..][1..] == s.view.chrs[n + 1..];
      if chr.chr.uuid == GOPRO_COMMAND_UUID {
        return;
      }
      chr, n := chr.next, n + 1;
    }
  }

  /** `assign_command_handle`: the camera's command handle becomes the first one found, or stays. */
  method AssignCommandHandle(camera: Camera, db: PeerDb, p: PeerRec)
    requires db.Valid() && p in db.peerSeq
    modifies camera`commandHandle
    ensures camera.commandHandle
         == match CommandHandle(p.view) case Some(v) => v case None => old(camera.commandHandle)
  {
    hide PeerDb.Valid, OkSvc, Distinct;
    PeerOk(db, p);
    ghost var n := 0;
    var svc := p.svcs;
    while svc != null
      invariant n <= |p.svcSeq| && svc == (if n < |p.svcSeq| then p.svcSeq[n] else null)
      invariant CommandHandle(p.view) == CommandHandle(p.view[n..])
      invariant camera.commandHandle == old(camera.commandHandle)
      decreases |p.svcSeq| - n
    {
      assert p.view[n..][1..] == p.view[n + 1..];
      SvcOk(db, svc);
      var chr := FindCommand(svc);
      if chr != null {
        camera.commandHandle := chr.chr.val;
        return;
      }
      svc, n := svc.next, n + 1;
    }
  }
}
