/** What the functions of peer.c compute for one peer, as functions on values.
    The linked-list code is in `PeerHeap`; its methods are proved to compute exactly these. */
module Discovery {
  import opened Gatt
  import opened SortedList

  datatype Request =
    | AllSvcs
    | SvcsByUuid(uuid: Uuid)
    | ChrsIn(start: uint16, end: uint16)
    | DscsIn(val: uint16, end: uint16)

  /** What is visible from outside: a procedure asked for with the stack's answer, or the
      completion callback. */
  datatype Obs = Started(req: Request, rc: Status) | Reported(status: Status)

  /** `struct peer`. `cur` is the start handle of the block `cur_svc` points to, `None` while that
      pointer must not be followed. `trace` logs the observations since discovery last started. */
  datatype Peer = Peer(conn: uint16, svcs: seq<Svc>, cursor: uint16, cur: Option<uint16>,
                       cb: bool, trace: seq<Obs>)

  /** Free blocks left in the three pools that hold tree nodes. */
  datatype Pools = Pools(svcs: nat, chrs: nat, dscs: nat)

  datatype Outcome = Outcome(rc: Status, peer: Peer, pools: Pools)

  function FreshPeer(conn: uint16): Peer {
    Peer(conn, [], 0, None, false, [])
  }

  // ----- adding nodes

  /** `peer_chr_add` and `peer_dsc_add` link a node after the one the walk stopped at without
      linking the rest of the list behind it; at the head nothing is lost. */
  function LinkAfter<T>(xs: seq<T>, k: nat, x: T): seq<T>
    requires k <= |xs|
  {
    if k == 0 then [x] + xs else xs[..k] + [x]
  }

  function FindRange(svcs: seq<Svc>, h: uint16): (r: Option<nat>)
    ensures r.Some? ==> r.value < |svcs| && svcs[r.value].decl.start <= h <= svcs[r.value].decl.end
    ensures r.Some? ==> forall i :: 0 <= i < r.value ==> !(svcs[i].decl.start <= h <= svcs[i].decl.end)
    ensures r.None? ==> forall i :: 0 <= i < |svcs| ==> !(svcs[i].decl.start <= h <= svcs[i].decl.end)
  {
    if svcs == [] then None
    else if svcs[0].decl.start <= h <= svcs[0].decl.end then Some(0)
    else match FindRange(svcs[1..], h)
      case None => None
      case Some(i) => Some(i + 1)
  }

  function SvcAdd(p: Peer, pools: Pools, g: GattSvc): Outcome {
    var keys := Starts(p.svcs);
    var k := LeadingBelow(keys, g.start);
    if Find(keys, g.start).Some? then Outcome(Ok, p, pools)
    else if pools.svcs == 0 then Outcome(ENoMem, p, pools)
    else Outcome(Ok, p.(svcs := p.svcs[..k] + [Svc(g, [])] + p.svcs[k..]),
                 pools.(svcs := pools.svcs - 1))
  }

  function ChrAdd(p: Peer, pools: Pools, start: uint16, g: GattChr): Outcome {
    match Find(Starts(p.svcs), start)
    case None => Outcome(EUnknown, p, pools)
    case Some(i) =>
      var s := p.svcs[i];
      var k := LeadingBelow(Vals(s.chrs), g.def);
      if Find(Vals(s.chrs), g.def).Some? then Outcome(Ok, p, pools)
      else if pools.chrs == 0 then Outcome(ENoMem, p, pools)
      else Outcome(Ok, p.(svcs := p.svcs[i := s.(chrs := LinkAfter(s.chrs, k, Chr(g, [])))]),
                   pools.(chrs := pools.chrs - 1))
  }

  function DscAdd(p: Peer, pools: Pools, val: uint16, g: GattDsc): Outcome {
    match FindRange(p.svcs, val)
    case None => Outcome(EUnknown, p, pools)
    case Some(i) =>
      var s := p.svcs[i];
      match Find(Vals(s.chrs), val)
      case None => Outcome(EUnknown, p, pools)
      case Some(j) =>
        var c := s.chrs[j];
        var k := LeadingBelow(Handles(c.dscs), g.handle);
        if Find(Handles(c.dscs), g.handle).Some? then Outcome(Ok, p, pools)
        else if pools.dscs == 0 then Outcome(ENoMem, p, pools)
        else
          var c' := c.(dscs := LinkAfter(c.dscs, k, g));
          Outcome(Ok, p.(svcs := p.svcs[i := s.(chrs := s.chrs[j := c'])]),
                  pools.(dscs := pools.dscs - 1))
  }

  // ----- the three phases

  function Start(p: Peer, req: Request, rc: Status): Peer {
    p.(trace := p.trace + [Started(req, rc)])
  }

  /** `peer_disc_complete` */
  function Complete(p: Peer, rc: Status): Peer {
    p.(cursor := 0, trace := if p.cb then p.trace + [Reported(rc)] else p.trace)
  }

  /** The characteristics `peer_disc_dscs` is looking for. */
  predicate Wanted(svcs: seq<Svc>, pos: Pos, cursor: uint16)
    requires InTree(svcs, pos)
  {
    RoomAt(svcs, pos) && At(svcs, pos).dscs == [] && cursor <= At(svcs, pos).decl.def
  }

  function Scan(svcs: seq<Svc>, ps: seq<Pos>, cursor: uint16): (r: Option<nat>)
    requires forall k :: 0 <= k < |ps| ==> InTree(svcs, ps[k])
    ensures r.Some? ==> r.value < |ps| && Wanted(svcs, ps[r.value], cursor)
    ensures r.Some? ==> forall k :: 0 <= k < r.value ==> !Wanted(svcs, ps[k], cursor)
    ensures r.None? ==> forall k :: 0 <= k < |ps| ==> !Wanted(svcs, ps[k], cursor)
  {
    if ps == [] then None
    else if Wanted(svcs, ps[0], cursor) then Some(0)
    else match Scan(svcs, ps[1..], cursor)
      case None => None
      case Some(k) => Some(k + 1)
  }

  /** `peer_disc_dscs`; on a refused start the cursor is zeroed and then overwritten. */
  function DiscDscs(p: Peer, rc: Status): Peer {
    match Scan(p.svcs, Positions(p.svcs), p.cursor)
    case None => Complete(p, Ok)
    case Some(k) =>
      var pos := Positions(p.svcs)[k];
      var val := At(p.svcs, pos).decl.val;
      var p1 := Start(p, DscsIn(val, EndAt(p.svcs, pos)), rc);
      (if rc.Ok? then p1 else Complete(p1, rc)).(cursor := val)
  }

  predicate Open(s: Svc) {
    NonEmpty(s.decl) && s.chrs == []
  }

  function FirstOpen(svcs: seq<Svc>): (r: Option<nat>)
    ensures r.Some? ==> r.value < |svcs| && Open(svcs[r.value])
    ensures r.Some? ==> forall i :: 0 <= i < r.value ==> !Open(svcs[i])
    ensures r.None? ==> forall i :: 0 <= i < |svcs| ==> !Open(svcs[i])
  {
    if svcs == [] then None
    else if Open(svcs[0]) then Some(0)
    else match FirstOpen(svcs[1..])
      case None => None
      case Some(i) => Some(i + 1)
  }

  /** `peer_disc_chrs` */
  function DiscChrs(p: Peer, rc: Status): Peer {
    match FirstOpen(p.svcs)
    case None => DiscDscs(p, rc)
    case Some(i) =>
      var g := p.svcs[i].decl;
      var p1 := Start(p.(cur := Some(g.start)), ChrsIn(g.start, g.end), rc);
      if rc.Ok? then p1 else Complete(p1, rc)
  }

  /** The common tail of the three callbacks: a non-zero result aborts discovery. */
  function Finish(o: Outcome): Outcome {
    if o.rc.Ok? then o else o.(peer := Complete(o.peer, o.rc))
  }

  // In the three callbacks `rc` is the stack's answer to the procedure the callback may start.

  function SvcDisced(p: Peer, pools: Pools, status: Status, item: Option<GattSvc>, rc: Status): Outcome
    requires status.Ok? ==> item.Some?
  {
    match status
    case Ok => Finish(SvcAdd(p, pools, item.value))
    case EDone => Outcome(Ok, if p.cursor > 0 then DiscChrs(p, rc) else p, pools)
    case _ => Finish(Outcome(status, p, pools))
  }

  function ChrDisced(p: Peer, pools: Pools, status: Status, item: Option<GattChr>, rc: Status): Outcome
    requires status.Ok? ==> item.Some? && p.cur.Some?
  {
    match status
    case Ok => Finish(ChrAdd(p, pools, p.cur.value, item.value))
    case EDone => Outcome(Ok, if p.cursor > 0 then DiscChrs(p, rc) else p, pools)
    case _ => Finish(Outcome(status, p, pools))
  }

  function DscDisced(p: Peer, pools: Pools, status: Status, val: uint16, item: Option<GattDsc>,
                     rc: Status): Outcome
    requires status.Ok? ==> item.Some?
  {
    match status
    case Ok => Finish(DscAdd(p, pools, val, item.value))
    case EDone => Outcome(Ok, if p.cursor > 0 then DiscDscs(p, rc) else p, pools)
    case _ => Finish(Outcome(status, p, pools))
  }

  /** The whole tree given back to the pools. */
  function Released(pools: Pools, svcs: seq<Svc>): Pools {
    Pools(pools.svcs + |svcs|, pools.chrs + ChrCount(svcs), pools.dscs + DscCount(svcs))
  }

  /** `peer_disc_all` and `peer_disc_svc_by_uuid` on a peer that was found. */
  function Discover(p: Peer, pools: Pools, root: Request, cb: bool, rc: Status): Outcome {
    var p1 := p.(svcs := [], cursor := 1, cur := None, cb := cb, trace := []);
    Outcome(rc, Start(p1, root, rc), Released(pools, p.svcs))
  }
}
