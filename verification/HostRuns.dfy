/** Whole runs on the heap: the host stack calls into the peer table, in any order the stack allows,
    and after every run from initialisation the lists, the pools and the trees are in order. */
module HostRuns {
  import opened Gatt
  import opened PeerHeap
  import opened PeerTable
  import opened PeerBlocks
  import D = Discovery

  /** A call the host makes. `req` is the procedure whose callback a delivery is for. */
  datatype Call = Call(a: Action, req: D.Request)

  ghost predicate Possible(w: World, c: Call) {
    Enabled(w, c.a) && (c.a.Deliver? ==> w.links[c.a.h].pending == Some(c.req))
  }

  ghost predicate AllPossible(w: World, calls: seq<Call>)
    decreases |calls|
  {
    calls == [] || (Possible(w, calls[0]) && AllPossible(Exec(w, calls[0].a), calls[1..]))
  }

  function Actions(calls: seq<Call>): seq<Action> {
    if calls == [] then [] else [calls[0].a] + Actions(calls[1..])
  }

  lemma {:induction false} ActionsLegal(w: World, calls: seq<Call>)
    requires AllPossible(w, calls)
    ensures Legal(w, Actions(calls))
    ensures calls != [] ==> ExecAll(w, Actions(calls)) == ExecAll(Exec(w, calls[0].a), Actions(calls[1..]))
    decreases |calls|
  {
    hide Exec, Enabled;
    if calls != [] {
      assert Actions(calls)[1..] == Actions(calls[1..]);
      ActionsLegal(Exec(w, calls[0].a), calls[1..]);
    }
  }

  // ----- the argument the stack passes

  /** While a procedure is outstanding, the block registered with it is the peer of its link. */
  ghost predicate ArgsOk(args: map<uint16, PeerRec>, ps: seq<PeerRec>, w: World) {
    forall h :: h in w.links && w.links[h].pending.Some? ==>
      && h in args && IndexOfPeer(w.t.peers, h).Some?
      && IndexOfPeer(w.t.peers, h).value < |ps| && args[h] == ps[IndexOfPeer(w.t.peers, h).value]
  }

  /** How an action moves the list of peers and the registered arguments. */
  ghost predicate Moves(w: World, a: Action, args: map<uint16, PeerRec>, ps: seq<PeerRec>,
                        args': map<uint16, PeerRec>, ps': seq<PeerRec>)
  {
    var found := IndexOfPeer(w.t.peers, a.h);
    && (found.Some? ==> found.value < |ps|)
    && match a
       case Add(h, _) =>
         args' == args && if PeerAdd(w.t, h).0.Ok? then ps' != [] && ps'[1..] == ps else ps' == ps
       case Delete(h) => args' == args && ps' == if found.Some? then Without(ps, found.value) else ps
       case Begin(h, _, _, rc) =>
         ps' == ps && args' == if found.Some? && rc.Ok? then args[h := ps[found.value]] else args
       case Deliver(h, _, _) =>
         ps' == ps && (args' == args || (found.Some? && args' == args[h := ps[found.value]]))
  }

  /** Every action keeps the registered arguments right. */
  lemma {:induction false} ArgsStep(w: World, caps: Caps, a: Action, args: map<uint16, PeerRec>, ps: seq<PeerRec>,
                                    args': map<uint16, PeerRec>, ps': seq<PeerRec>)
    requires Inv(w, caps) && Enabled(w, a) && ArgsOk(args, ps, w) && |ps| == |w.t.peers|
    requires Moves(w, a, args, ps, args', ps')
    ensures ArgsOk(args', ps', Exec(w, a))
  {
    match a
    case Add(h, db) => ArgsAdd(w, caps, h, db, args, ps, ps');
    case Delete(h) => ArgsDelete(w, caps, h, args, ps, ps');
    case Begin(h, root, cb, rc) => ArgsBegin(w, caps, h, root, cb, rc, args, ps, args');
    case Deliver(h, e, rc) => ArgsDeliver(w, caps, h, e, rc, args, ps, args');
  }

  lemma {:induction false} ArgsAdd(w: World, caps: Caps, h: uint16, db: seq<Svc>, args: map<uint16, PeerRec>,
                                   ps: seq<PeerRec>, ps': seq<PeerRec>)
    requires Inv(w, caps) && ArgsOk(args, ps, w) && Moves(w, Add(h, db), args, ps, args, ps')
    ensures ArgsOk(args, ps', Exec(w, Add(h, db)))
  {
    hide Inv, PeerAdd;
    var w' := Exec(w, Add(h, db));
    forall k | k in w'.links && w'.links[k].pending.Some?
      ensures k in args && IndexOfPeer(w'.t.peers, k).Some?
      ensures IndexOfPeer(w'.t.peers, k).value < |ps'| && args[k] == ps'[IndexOfPeer(w'.t.peers, k).value]
    {
      if k != h {
        IndexAfterAdd(w.t, h, k);
      } else {
        AddKnown(w.t, h);
      }
    }
  }

  lemma {:induction false} AddKnown(t: Table, h: uint16)
    ensures !PeerAdd(t, h).0.Ok? ==> PeerAdd(t, h).1 == t
  {
  }

  lemma {:induction false} ArgsDelete(w: World, caps: Caps, h: uint16, args: map<uint16, PeerRec>,
                                      ps: seq<PeerRec>, ps': seq<PeerRec>)
    requires Inv(w, caps) && ArgsOk(args, ps, w) && Moves(w, Delete(h), args, ps, args, ps')
    ensures ArgsOk(args, ps', Exec(w, Delete(h)))
  {
    hide Inv, Exactness.Sound, Without, PeerTable.PeerDelete, Unique, Lookup;
    InvFacts(w, caps);
    DeletedPeers(w.t, h);
    var w' := Exec(w, Delete(h));
    forall k | k in w'.links && w'.links[k].pending.Some?
      ensures k in args && IndexOfPeer(w'.t.peers, k).Some?
      ensures IndexOfPeer(w'.t.peers, k).value < |ps'| && args[k] == ps'[IndexOfPeer(w'.t.peers, k).value]
    {
      if IndexOfPeer(w.t.peers, h).Some? {
        WithoutAt(ps, IndexOfPeer(w.t.peers, h).value);
        IndexAfterDelete(w.t, h, k, IndexOfPeer(w.t.peers, h).value, IndexOfPeer(w.t.peers, k).value);
      }
    }
  }

  lemma {:induction false} DeletedPeers(t: Table, h: uint16)
    ensures PeerTable.PeerDelete(t, h).1.peers ==
      match IndexOfPeer(t.peers, h)
      case None => t.peers
      case Some(i) => Without(t.peers, i)
  {
  }

  lemma {:induction false} ArgsBegin(w: World, caps: Caps, h: uint16, root: D.Request, cb: bool, rc: Status,
                                     args: map<uint16, PeerRec>, ps: seq<PeerRec>, args': map<uint16, PeerRec>)
    requires Inv(w, caps) && ArgsOk(args, ps, w) && Moves(w, Begin(h, root, cb, rc), args, ps, args', ps)
    ensures ArgsOk(args', ps, Exec(w, Begin(h, root, cb, rc)))
  {
    hide Inv, Exactness.Sound, Lookup;
    InvFacts(w, caps);
    var found := IndexOfPeer(w.t.peers, h);
    var w' := Exec(w, Begin(h, root, cb, rc));
    LookupFinds(w.t, h);
    forall k | k in w'.links && w'.links[k].pending.Some?
      ensures k in args' && IndexOfPeer(w'.t.peers, k).Some?
      ensures IndexOfPeer(w'.t.peers, k).value < |ps| && args'[k] == ps[IndexOfPeer(w'.t.peers, k).value]
    {
      if found.Some? {
        var o := D.Discover(w.t.peers[found.value], w.t.pools, root, cb, rc);
        IndexAfterUpdate(w.t.peers, found.value, o.peer, k);
      }
    }
  }

  lemma {:induction false} LookupFinds(t: Table, h: uint16)
    ensures Lookup(t, h).Some? <==> IndexOfPeer(t.peers, h).Some?
  {
  }

  lemma {:induction false} ArgsDeliver(w: World, caps: Caps, h: uint16, e: Runs.Event, rc: Status,
                                       args: map<uint16, PeerRec>, ps: seq<PeerRec>, args': map<uint16, PeerRec>)
    requires Inv(w, caps) && Enabled(w, Deliver(h, e, rc)) && ArgsOk(args, ps, w)
    requires Moves(w, Deliver(h, e, rc), args, ps, args', ps)
    ensures ArgsOk(args', ps, Exec(w, Deliver(h, e, rc)))
  {
    hide Exactness.Sound, Total, Runs.Callback, Runs.NextLink, Exactness.Truthful, Lookup, Exec;
    var i := Delivered(w, caps, h, e, rc);
    var p, l := w.t.peers[i], w.links[h];
    Completion.CallbackKeeps(p, w.t.pools, l.pending.value, e, rc);
    var o := Runs.Callback(p, w.t.pools, l.pending.value, e, rc);
    forall k ensures IndexOfPeer(w.t.peers[i := o.peer], k) == IndexOfPeer(w.t.peers, k) {
      IndexAfterUpdate(w.t.peers, i, o.peer, k);
    }
  }

  /** What the callbacks assert of their argument: it is in the list and has the connection's handle. */
  lemma {:induction false} ArgumentMatches(db: PeerDb, w: World, h: uint16)
    requires db.Table() == w.t && ArgsOk(db.args, db.peerSeq, w) && h in w.links && w.links[h].pending.Some?
    ensures h in db.args && IndexOfPeer(w.t.peers, h).Some?
    ensures var i := IndexOfPeer(w.t.peers, h).value;
      && i < |db.peerSeq| && db.args[h] == db.peerSeq[i]
      && db.args[h].connHandle == h && db.args[h].Model() == w.t.peers[i]
  {
  }

  method ServeAdd(db: PeerDb, h: uint16, remote: seq<Svc>, ghost w: World, ghost caps: Caps)
    requires db.Valid() && db.Table() == w.t && Inv(w, caps) && ArgsOk(db.args, db.peerSeq, w)
    requires Enabled(w, Add(h, remote))
    modifies db, db.allPeers
    ensures var w' := Exec(w, Add(h, remote));
      db.Valid() && db.Table() == w'.t && ArgsOk(db.args, db.peerSeq, w')
  {
    hide Inv, PeerDb.Valid, PeerDb.Models, PeerTable.PeerAdd, ArgsOk, Exactness.Sound;
    ghost var args, ps := db.args, db.peerSeq;
    SameLength(db);
    var _ := db.PeerAdd(h);
    ArgsStep(w, caps, Add(h, remote), args, ps, db.args, db.peerSeq);
  }

  method ServeDelete(db: PeerDb, h: uint16, ghost w: World, ghost caps: Caps)
    requires db.Valid() && db.Table() == w.t && Inv(w, caps) && ArgsOk(db.args, db.peerSeq, w)
    requires Enabled(w, Delete(h))
    modifies db, db.allPeers, db.allSvcs, db.allChrs, db.allDscs
    ensures var w' := Exec(w, Delete(h));
      db.Valid() && db.Table() == w'.t && ArgsOk(db.args, db.peerSeq, w')
  {
    hide Inv, PeerDb.Valid, PeerDb.Models, PeerTable.PeerDelete, ArgsOk, Without;
    ghost var args, ps := db.args, db.peerSeq;
    SameLength(db);
    var _ := db.PeerDelete(h);
    ArgsStep(w, caps, Delete(h), args, ps, db.args, db.peerSeq);
  }

  method ServeBegin(db: PeerDb, h: uint16, root: D.Request, cb: bool, rc: Status, ghost w: World, ghost caps: Caps)
    requires db.Valid() && db.Table() == w.t && Inv(w, caps) && ArgsOk(db.args, db.peerSeq, w)
    requires Enabled(w, Begin(h, root, cb, rc))
    modifies db, db.allPeers, db.allSvcs, db.allChrs, db.allDscs
    ensures var w' := Exec(w, Begin(h, root, cb, rc));
      db.Valid() && db.Table() == w'.t && ArgsOk(db.args, db.peerSeq, w')
  {
    hide Inv, PeerDb.Valid, PeerDb.Models, PeerDiscover, ArgsOk;
    ghost var args, ps := db.args, db.peerSeq;
    SameLength(db);
    if root.AllSvcs? {
      var _ := db.DiscAll(h, cb, rc);
    } else {
      var _ := db.DiscSvcByUuid(h, root.uuid, cb, rc);
    }
    ArgsStep(w, caps, Begin(h, root, cb, rc), args, ps, db.args, db.peerSeq);
  }

  method ServeDeliver(db: PeerDb, h: uint16, e: Runs.Event, rc: Status, req: D.Request, ghost w: World,
                      ghost caps: Caps)
    requires db.Valid() && db.Table() == w.t && Inv(w, caps) && ArgsOk(db.args, db.peerSeq, w)
    requires Enabled(w, Deliver(h, e, rc)) && w.links[h].pending == Some(req)
    modifies db, db.allPeers, db.allSvcs, db.allChrs, db.allDscs
    ensures var w' := Exec(w, Deliver(h, e, rc));
      db.Valid() && db.Table() == w'.t && ArgsOk(db.args, db.peerSeq, w')
  {
    hide Inv, PeerDb.Valid, PeerDb.Models, PeerCallback, ArgsOk, Exec, Exactness.Truthful;
    ghost var args, ps := db.args, db.peerSeq;
    SameLength(db);
    ghost var k := Delivered(w, caps, h, e, rc);
    ArgumentMatches(db, w, h);
    db.PeerFacts(db.args[h]);
    var _ := db.Callback(db.args[h], k, h, req, e, rc);
    ArgsStep(w, caps, Deliver(h, e, rc), args, ps, db.args, db.peerSeq);
  }

  /** One call: the heap follows the specification's step. The stack passes a callback the argument
      registered with its procedure and the handle of the connection. */
  method Serve(db: PeerDb, c: Call, ghost w: World, ghost caps: Caps)
    requires db.Valid() && db.Table() == w.t && Inv(w, caps) && ArgsOk(db.args, db.peerSeq, w) && Possible(w, c)
    modifies db, db.allPeers, db.allSvcs, db.allChrs, db.allDscs
    ensures db.Valid() && db.Table() == Exec(w, c.a).t && ArgsOk(db.args, db.peerSeq, Exec(w, c.a))
  {
    hide Inv, PeerDb.Valid, PeerDb.Table, ArgsOk, Exec, Enabled;
    match c.a {
      case Add(h, remote) =>
        ServeAdd(db, h, remote, w, caps);
      case Delete(h) =>
        ServeDelete(db, h, w, caps);
      case Begin(h, root, cb, rc) =>
        ServeBegin(db, h, root, cb, rc, w, caps);
      case Deliver(h, e, rc) =>
        ServeDeliver(db, h, e, rc, c.req, w, caps);
    }
  }

  lemma {:induction false} SameLength(db: PeerDb)
    ensures |db.peerSeq| == |db.Table().peers|
  {
  }

  /** Every run from initialisation. */
  method ServeAll(nPeers: nat, nSvcs: nat, nChrs: nat, nDscs: nat, calls: seq<Call>) returns (db: PeerDb)
    requires AllPossible(Empty(Caps(D.Pools(nSvcs, nChrs, nDscs), nPeers)), calls)
    ensures db.Valid()
    ensures db.Table() == ExecAll(Empty(Caps(D.Pools(nSvcs, nChrs, nDscs), nPeers)), Actions(calls)).t
    ensures |db.allPeers| == nPeers && |db.allSvcs| == nSvcs && |db.allChrs| == nChrs && |db.allDscs| == nDscs
    ensures BlocksInPlace(db)
    ensures ArgsOk(db.args, db.peerSeq, ExecAll(Empty(Caps(D.Pools(nSvcs, nChrs, nDscs), nPeers)), Actions(calls)))
  {
    hide Inv, PeerDb.Valid, PeerDb.Models, Exec, Enabled, Partitioned, Distinct, ArgsOk;
    ghost var caps := Caps(D.Pools(nSvcs, nChrs, nDscs), nPeers);
    ghost var w := Empty(caps);
    db := new PeerDb(nPeers, nSvcs, nChrs, nDscs);
    EmptyInv(caps, db.args, db.peerSeq);
    for k := 0 to |calls|
      invariant db.Valid() && db.Table() == w.t && Inv(w, caps) && ArgsOk(db.args, db.peerSeq, w)
      invariant AllPossible(w, calls[k..])
      invariant ExecAll(w, Actions(calls[k..])) == ExecAll(Empty(caps), Actions(calls))
      invariant fresh(db) && fresh(db.allPeers) && fresh(db.allSvcs) && fresh(db.allChrs) && fresh(db.allDscs)
    {
      ActionsLegal(w, calls[k..]);
      assert calls[k..][0] == calls[k] && calls[k..][1..] == calls[k + 1..];
      Serve(db, calls[k], w, caps);
      InvStep(w, caps, calls[k].a);
      w := Exec(w, calls[k].a);
    }
    InPlace(db, w, caps);
  }

  /** Every block of the four pools is free or at exactly one list position. */
  ghost predicate BlocksInPlace(db: PeerDb)
    reads db, db.allPeers, db.allSvcs, db.allChrs, db.allDscs
    requires db.Valid()
  {
    ListsWithin(db);
    var ss := SvcsOf(db.peerSeq);
    var cs := ChrsOf(ss);
    && Distinct(ss) && Distinct(cs) && Distinct(DscsOf(cs))
    && Partitioned(db.peerPool, db.peerSeq, db.allPeers)
    && Partitioned(db.svcPool, ss, db.allSvcs)
    && Partitioned(db.chrPool, cs, db.allChrs)
    && Partitioned(db.dscPool, DscsOf(cs), db.allDscs)
  }

  lemma {:induction false} InPlace(db: PeerDb, w: World, caps: Caps)
    requires db.Valid() && db.Table() == w.t && Inv(w, caps)
    requires caps == Caps(D.Pools(|db.allSvcs|, |db.allChrs|, |db.allDscs|), |db.allPeers|)
    ensures BlocksInPlace(db)
  {
    hide Inv, PeerDb.Valid, Partitioned, Distinct;
    NoBlockLost(db);
    Accounted(w, caps);
  }

  lemma {:induction false} EmptyInv(caps: Caps, args: map<uint16, PeerRec>, ps: seq<PeerRec>)
    ensures Inv(Empty(caps), caps) && ArgsOk(args, ps, Empty(caps))
  {
  }

  lemma {:induction false} Accounted(w: World, caps: Caps)
    requires Inv(w, caps)
    ensures Total(w.t.pools, w.t.peers) == caps.nodes && w.t.freePeers + |w.t.peers| == caps.peers
  {
  }
}
