/** The table of peers with its shared pools, and every interleaving of what happens to it. */
module PeerTable {
  import opened Gatt
  import opened Discovery
  import opened Remote
  import opened Runs
  import opened Exactness
  import opened Completion

  /** The list of peers, newest first, and the free blocks of the four pools. */
  datatype Table = Table(peers: seq<Peer>, pools: Pools, freePeers: nat)

  /** `peer_find` */
  function IndexOfPeer(peers: seq<Peer>, h: uint16): (r: Option<nat>)
    ensures r.Some? ==> r.value < |peers| && peers[r.value].conn == h
    ensures r.Some? ==> forall i :: 0 <= i < r.value ==> peers[i].conn != h
    ensures r.None? ==> forall i :: 0 <= i < |peers| ==> peers[i].conn != h
  {
    if peers == [] then None
    else if peers[0].conn == h then Some(0)
    else match IndexOfPeer(peers[1..], h)
      case None => None
      case Some(i) => Some(i + 1)
  }

  function Lookup(t: Table, h: uint16): Option<Peer> {
    match IndexOfPeer(t.peers, h)
    case None => None
    case Some(i) => Some(t.peers[i])
  }

  function Without<T>(xs: seq<T>, i: nat): seq<T>
    requires i < |xs|
  {
    xs[..i] + xs[i + 1..]
  }

  function PeerAdd(t: Table, h: uint16): (Status, Table) {
    if IndexOfPeer(t.peers, h).Some? then (EAlready, t)
    else if t.freePeers == 0 then (ENoMem, t)
    else (Ok, t.(peers := [FreshPeer(h)] + t.peers, freePeers := t.freePeers - 1))
  }

  function PeerDelete(t: Table, h: uint16): (Status, Table) {
    match IndexOfPeer(t.peers, h)
    case None => (ENotConn, t)
    case Some(i) =>
      (Ok, Table(Without(t.peers, i), Released(t.pools, t.peers[i].svcs), t.freePeers + 1))
  }

  /** `peer_disc_all` and `peer_disc_svc_by_uuid` */
  function PeerDiscover(t: Table, h: uint16, root: Request, cb: bool, rc: Status): (Status, Table) {
    match IndexOfPeer(t.peers, h)
    case None => (ENotConn, t)
    case Some(i) =>
      var o := Discover(t.peers[i], t.pools, root, cb, rc);
      (o.rc, t.(peers := t.peers[i := o.peer], pools := o.pools))
  }

  /** A discovery callback for the `i`-th peer. */
  function PeerCallback(t: Table, i: nat, req: Request, e: Event, rc: Status): Table
    requires i < |t.peers| && Fits(req, e)
    requires req.ChrsIn? && e.status.Ok? ==> t.peers[i].cur.Some?
  {
    var o := Callback(t.peers[i], t.pools, req, e, rc);
    t.(peers := t.peers[i := o.peer], pools := o.pools)
  }

  // ----- a bounded map from connection handles to peers

  predicate Unique(peers: seq<Peer>) {
    forall i, j :: 0 <= i < j < |peers| ==> peers[i].conn != peers[j].conn
  }

  lemma {:induction false} IndexUnique(peers: seq<Peer>, i: nat)
    requires Unique(peers) && i < |peers|
    ensures IndexOfPeer(peers, peers[i].conn) == Some(i)
  {
  }

  lemma {:induction false} IndexAfterAdd(t: Table, h: uint16, k: uint16)
    requires k != h
    ensures var t' := PeerAdd(t, h).1;
      IndexOfPeer(t'.peers, k) == match IndexOfPeer(t.peers, k)
        case None => None
        case Some(i) => Some(if PeerAdd(t, h).0.Ok? then i + 1 else i)
  {
  }

  lemma {:induction false} WithoutAt<X>(xs: seq<X>, i: nat)
    requires i < |xs|
    ensures |Without(xs, i)| == |xs| - 1
    ensures forall a :: 0 <= a < |xs| - 1 ==> Without(xs, i)[a] == xs[if a < i then a else a + 1]
  {
  }

  lemma {:induction false} WithoutUnique(peers: seq<Peer>, i: nat)
    requires Unique(peers) && i < |peers|
    ensures Unique(Without(peers, i)) && IndexOfPeer(Without(peers, i), peers[i].conn).None?
  {
    hide Without;
    WithoutAt(peers, i);
    assert forall a :: 0 <= a < |peers| - 1 ==> Without(peers, i)[a].conn != peers[i].conn;
  }

  lemma {:induction false} IndexAfterDelete(t: Table, h: uint16, k: uint16, i: nat, j: nat)
    requires Unique(t.peers) && k != h && IndexOfPeer(t.peers, h) == Some(i) && IndexOfPeer(t.peers, k) == Some(j)
    ensures j != i && IndexOfPeer(Without(t.peers, i), k) == Some(if j < i then j else j - 1)
  {
    hide Without, Unique;
    WithoutAt(t.peers, i);
    WithoutUnique(t.peers, i);
    IndexUnique(Without(t.peers, i), if j < i then j else j - 1);
  }

  lemma {:induction false} StillMissing(peers: seq<Peer>, k: uint16, i: nat)
    requires IndexOfPeer(peers, k).None? && i < |peers|
    ensures IndexOfPeer(Without(peers, i), k).None?
  {
    hide Without;
    WithoutAt(peers, i);
    assert forall a :: 0 <= a < |peers| - 1 ==> Without(peers, i)[a].conn != k;
  }

  lemma {:induction false} IndexAfterUpdate(peers: seq<Peer>, i: nat, q: Peer, k: uint16)
    requires Unique(peers) && i < |peers| && q.conn == peers[i].conn
    ensures IndexOfPeer(peers[i := q], k) == IndexOfPeer(peers, k)
  {
    var peers' := peers[i := q];
    assert forall a :: 0 <= a < |peers| ==> peers'[a].conn == peers[a].conn;
    if IndexOfPeer(peers, k).Some? {
      IndexUnique(peers', IndexOfPeer(peers, k).value);
    }
  }

  lemma {:induction false} LookupAfterUpdate(t: Table, i: nat, q: Peer, h: uint16, pools: Pools)
    requires Unique(t.peers) && i < |t.peers| && q.conn == t.peers[i].conn
    ensures Unique(t.peers[i := q])
    ensures Lookup(t.(peers := t.peers[i := q], pools := pools), h) == if h == q.conn then Some(q) else Lookup(t, h)
  {
    var peers := t.peers[i := q];
    assert forall k :: 0 <= k < |peers| ==> peers[k].conn == t.peers[k].conn;
    if h == q.conn {
      IndexUnique(peers, i);
    } else if IndexOfPeer(t.peers, h).Some? {
      IndexUnique(peers, IndexOfPeer(t.peers, h).value);
    }
  }

  lemma {:induction false} LookupAfterAdd(t: Table, h: uint16, k: uint16)
    requires Unique(t.peers)
    ensures var (rc, t') := PeerAdd(t, h);
      && Unique(t'.peers)
      && rc == (if Lookup(t, h).Some? then EAlready else if t.freePeers == 0 then ENoMem else Ok)
      && Lookup(t', k) == (if k == h && rc.Ok? then Some(Peer(h, [], 0, None, false, [])) else Lookup(t, k))
      && t'.freePeers + |t'.peers| == t.freePeers + |t.peers| && t'.pools == t.pools
      && (rc.Ok? ==> t'.peers[0].conn == h && t'.peers[1..] == t.peers)
  {
  }

  lemma {:induction false} LookupAfterDelete(t: Table, h: uint16, k: uint16)
    requires Unique(t.peers)
    ensures var (rc, t') := PeerDelete(t, h);
      && Unique(t'.peers)
      && rc == (if Lookup(t, h).Some? then Ok else ENotConn)
      && Lookup(t', k) == (if k == h then None else Lookup(t, k))
      && t'.freePeers + |t'.peers| == t.freePeers + |t.peers|
  {
    hide Without, Unique;
    match IndexOfPeer(t.peers, h)
    case None =>
    case Some(i) =>
      WithoutUnique(t.peers, i);
      WithoutAt(t.peers, i);
      match IndexOfPeer(t.peers, k)
      case None => StillMissing(t.peers, k, i);
      case Some(j) =>
        if k != h {
          IndexAfterDelete(t, h, k, i, j);
        }
  }

  /** Starting a discovery answers ENOTCONN for a handle without a peer, and then changes nothing, and
      the stack's status for one with. Its tree is emptied, the cursor set, the callback stored, and
      the trace begins with the procedure asked for. */
  lemma {:induction false} LookupAfterDiscover(t: Table, h: uint16, root: Request, cb: bool, rc: Status, k: uint16)
    requires Unique(t.peers)
    ensures var (rc', t') := PeerDiscover(t, h, root, cb, rc);
      && Unique(t'.peers)
      && rc' == (if Lookup(t, h).Some? then rc else ENotConn)
      && (Lookup(t, h).None? ==> t' == t)
      && Lookup(t', k) == (if k == h && Lookup(t, h).Some? then Some(Peer(h, [], 1, None, cb, [Started(root, rc)]))
                           else Lookup(t, k))
      && t'.freePeers == t.freePeers && |t'.peers| == |t.peers|
  {
    hide Released, Unique;
    match IndexOfPeer(t.peers, h)
    case None =>
    case Some(i) =>
      var o := Discover(t.peers[i], t.pools, root, cb, rc);
      assert o.peer == Peer(h, [], 1, None, cb, [Started(root, rc)]);
      LookupAfterUpdate(t, i, o.peer, k, o.pools);
  }

  // ----- conservation

  /** Free blocks plus the nodes of all trees. */
  function Total(pools: Pools, peers: seq<Peer>): Pools {
    if peers == [] then pools else Released(Total(pools, peers[1..]), peers[0].svcs)
  }

  lemma {:induction false} TotalReleased(pools: Pools, svcs: seq<Svc>, peers: seq<Peer>)
    ensures Total(Released(pools, svcs), peers) == Released(Total(pools, peers), svcs)
  {
    if peers != [] {
      TotalReleased(pools, svcs, peers[1..]);
    }
  }

  lemma {:induction false} TotalUpdate(pools: Pools, pools': Pools, peers: seq<Peer>, i: nat, q: Peer)
    requires i < |peers| && Released(pools', q.svcs) == Released(pools, peers[i].svcs)
    ensures Total(pools', peers[i := q]) == Total(pools, peers)
  {
    if i == 0 {
      assert peers[i := q][1..] == peers[1..];
      TotalReleased(pools, peers[0].svcs, peers[1..]);
      TotalReleased(pools', q.svcs, peers[1..]);
    } else {
      assert peers[i := q][1..] == peers[1..][i - 1 := q];
      TotalUpdate(pools, pools', peers[1..], i - 1, q);
    }
  }

  lemma {:induction false} TotalRemove(pools: Pools, peers: seq<Peer>, i: nat)
    requires i < |peers|
    ensures Total(Released(pools, peers[i].svcs), Without(peers, i)) == Total(pools, peers)
  {
    if i == 0 {
      assert Without(peers, 0) == peers[1..];
      TotalReleased(pools, peers[0].svcs, peers[1..]);
    } else {
      assert Without(peers, i)[1..] == Without(peers[1..], i - 1);
      TotalRemove(pools, peers[1..], i - 1);
    }
  }

  // ----- runs

  /** The table together with the stack's side of each of its peers' links. */
  datatype World = World(t: Table, links: map<uint16, Link>)

  datatype Action =
    | Add(h: uint16, db: seq<Svc>)
    | Delete(h: uint16)
    | Begin(h: uint16, root: Request, cb: bool, rc: Status)
    | Deliver(h: uint16, e: Event, rc: Status)

  predicate Quiet(w: World, h: uint16) {
    h in w.links ==> w.links[h].pending.None?
  }

  /** What may happen: peers are deleted and discoveries started only while no procedure is
      outstanding on the link, and the stack is truthful. */
  predicate Enabled(w: World, a: Action) {
    match a
    case Add(_, db) => DbWf(db)
    case Delete(h) => Quiet(w, h)
    case Begin(h, root, _, _) => Quiet(w, h) && IsRoot(root)
    case Deliver(h, e, _) => h in w.links && w.links[h].pending.Some? && Truthful(w.links[h], e)
  }

  function Exec(w: World, a: Action): World {
    match a
    case Add(h, db) =>
      var (rc, t) := PeerAdd(w.t, h);
      World(t, if rc.Ok? then w.links[h := Link(db, None, 0)] else w.links)
    case Delete(h) => World(PeerDelete(w.t, h).1, w.links - {h})
    case Begin(h, root, cb, rc) =>
      var (rc', t) := PeerDiscover(w.t, h, root, cb, rc);
      if h in w.links then
        World(t, w.links[h := Link(w.links[h].db, if rc'.Ok? then Some(root) else None, 0)])
      else World(t, w.links)
    case Deliver(h, e, rc) =>
      if h !in w.links || w.links[h].pending.None? then w
      else
        var l, i := w.links[h], IndexOfPeer(w.t.peers, h);
        if i.None? || !Fits(l.pending.value, e)
           || (l.pending.value.ChrsIn? && e.status.Ok? && w.t.peers[i.value].cur.None?) then w
        else
          var p := w.t.peers[i.value];
          var o := Callback(p, w.t.pools, l.pending.value, e, rc);
          World(PeerCallback(w.t, i.value, l.pending.value, e, rc), w.links[h := NextLink(l, p, e, o)])
  }

  predicate Legal(w: World, acts: seq<Action>)
    decreases |acts|
  {
    acts == [] || (Enabled(w, acts[0]) && Legal(Exec(w, acts[0]), acts[1..]))
  }

  function ExecAll(w: World, acts: seq<Action>): World
    decreases |acts|
  {
    if acts == [] then w else ExecAll(Exec(w, acts[0]), acts[1..])
  }

  /** Capacities of the four pools. */
  datatype Caps = Caps(nodes: Pools, peers: nat)

  function Empty(caps: Caps): World {
    World(Table([], caps.nodes, caps.peers), map[])
  }

  /** What holds at every moment: one peer per handle, every block accounted for, and each peer's
      tree sound with respect to its link. */
  ghost predicate Inv(w: World, caps: Caps) {
    && Unique(w.t.peers)
    && (forall h :: h in w.links <==> Lookup(w.t, h).Some?)
    && (forall h :: h in w.links ==> Sound(w.links[h], Lookup(w.t, h).value))
    && Total(w.t.pools, w.t.peers) == caps.nodes
    && w.t.freePeers + |w.t.peers| == caps.peers
  }

  lemma {:induction false} InvFacts(w: World, caps: Caps)
    requires Inv(w, caps)
    ensures Unique(w.t.peers) && forall h :: h in w.links <==> Lookup(w.t, h).Some?
    ensures forall h :: h in w.links ==> Sound(w.links[h], Lookup(w.t, h).value)
  {
  }

  lemma {:induction false} InvAdd(w: World, caps: Caps, h: uint16, db: seq<Svc>)
    requires Inv(w, caps) && DbWf(db)
    ensures Inv(Exec(w, Add(h, db)), caps)
  {
    hide Sound, PeerAdd, IndexOfPeer, DbWf;
    var w' := Exec(w, Add(h, db));
    forall k
      ensures k in w'.links <==> Lookup(w'.t, k).Some?
      ensures k in w'.links ==> Sound(w'.links[k], Lookup(w'.t, k).value)
    {
      LookupAfterAdd(w.t, h, k);
      FreshSound(h, db);
    }
    LookupAfterAdd(w.t, h, h);
    AddTotal(w.t, h);
  }

  lemma {:induction false} FreshSound(h: uint16, db: seq<Svc>)
    requires DbWf(db)
    ensures Sound(Link(db, None, 0), FreshPeer(h))
  {
  }

  lemma {:induction false} AddTotal(t: Table, h: uint16)
    ensures Total(PeerAdd(t, h).1.pools, PeerAdd(t, h).1.peers) == Total(t.pools, t.peers)
  {
  }

  lemma {:induction false} InvDelete(w: World, caps: Caps, h: uint16)
    requires Inv(w, caps)
    ensures Inv(Exec(w, Delete(h)), caps)
  {
    hide Sound, PeerDelete, Lookup;
    var w' := Exec(w, Delete(h));
    forall k
      ensures k in w'.links <==> Lookup(w'.t, k).Some?
      ensures k in w'.links ==> Sound(w'.links[k], Lookup(w'.t, k).value)
    {
      LookupAfterDelete(w.t, h, k);
    }
    LookupAfterDelete(w.t, h, h);
    DeleteTotal(w.t, h);
  }

  lemma {:induction false} DeleteTotal(t: Table, h: uint16)
    ensures Total(PeerDelete(t, h).1.pools, PeerDelete(t, h).1.peers) == Total(t.pools, t.peers)
  {
    match IndexOfPeer(t.peers, h)
    case None =>
    case Some(i) => TotalRemove(t.pools, t.peers, i);
  }

  /** Replacing the peer of `h` by one that is sound for the link's new state, at the price of the
      blocks it took. */
  lemma {:induction false} InvReplace(w: World, caps: Caps, h: uint16, i: nat, q: Peer, pools: Pools, l: Link)
    requires Inv(w, caps) && IndexOfPeer(w.t.peers, h) == Some(i)
    requires q.conn == h && Sound(l, q)
    requires Released(pools, q.svcs) == Released(w.t.pools, w.t.peers[i].svcs)
    ensures Inv(World(w.t.(peers := w.t.peers[i := q], pools := pools), w.links[h := l]), caps)
  {
    hide Sound, Lookup;
    var w' := World(w.t.(peers := w.t.peers[i := q], pools := pools), w.links[h := l]);
    forall k
      ensures k in w'.links <==> Lookup(w'.t, k).Some?
      ensures k in w'.links ==> Sound(w'.links[k], Lookup(w'.t, k).value)
    {
      LookupAfterUpdate(w.t, i, q, k, pools);
      assert h in w.links by { LookupIs(w.t, h, i); }
    }
    LookupAfterUpdate(w.t, i, q, h, pools);
    TotalUpdate(w.t.pools, pools, w.t.peers, i, q);
  }

  lemma {:induction false} LookupIs(t: Table, h: uint16, i: nat)
    requires IndexOfPeer(t.peers, h) == Some(i)
    ensures Lookup(t, h) == Some(t.peers[i])
  {
  }

  lemma {:induction false} InvBegin(w: World, caps: Caps, h: uint16, root: Request, cb: bool, rc: Status)
    requires Inv(w, caps) && IsRoot(root)
    ensures Inv(Exec(w, Begin(h, root, cb, rc)), caps)
  {
    hide Sound;
    match IndexOfPeer(w.t.peers, h)
    case None => assert Lookup(w.t, h).None?;
    case Some(i) =>
      LookupIs(w.t, h, i);
      var p, l := w.t.peers[i], w.links[h];
      SoundDb(l, p);
      DiscoverSound(p, w.t.pools, l.db, root, cb, rc);
      var o := Discover(p, w.t.pools, root, cb, rc);
      DiscoverConserves(p, w.t.pools, root, cb, rc);
      InvReplace(w, caps, h, i, o.peer, o.pools, Link(l.db, if rc.Ok? then Some(root) else None, 0));
  }

  lemma {:induction false} SoundDb(l: Link, p: Peer)
    requires Sound(l, p)
    ensures DbWf(l.db)
  {
  }

  lemma {:induction false} DiscoverConserves(p: Peer, pools: Pools, root: Request, cb: bool, rc: Status)
    ensures var o := Discover(p, pools, root, cb, rc); Released(o.pools, o.peer.svcs) == Released(pools, p.svcs)
  {
  }

  /** A delivery reaches the peer of its link. */
  lemma {:induction false} Delivered(w: World, caps: Caps, h: uint16, e: Event, rc: Status) returns (i: nat)
    requires Inv(w, caps) && Enabled(w, Deliver(h, e, rc))
    ensures IndexOfPeer(w.t.peers, h) == Some(i) && Lookup(w.t, h) == Some(w.t.peers[i])
    ensures Sound(w.links[h], w.t.peers[i]) && Deliverable(w.t.peers[i], w.links[h].pending.value, e)
    ensures var p, l, w' := w.t.peers[i], w.links[h], Exec(w, Deliver(h, e, rc));
      var o := Callback(p, w.t.pools, l.pending.value, e, rc);
      && w'.t == PeerCallback(w.t, i, l.pending.value, e, rc) && Lookup(w'.t, h) == Some(o.peer)
      && w'.links == w.links[h := NextLink(l, p, e, o)]
  {
    hide Sound, Callback, Truthful, NextLink;
    assert Lookup(w.t, h).Some?;
    i := IndexOfPeer(w.t.peers, h).value;
    LookupIs(w.t, h, i);
    var p, l := w.t.peers[i], w.links[h];
    CallbackSound(p, l, w.t.pools, e, rc);
    CallbackKeeps(p, w.t.pools, l.pending.value, e, rc);
    var o := Callback(p, w.t.pools, l.pending.value, e, rc);
    LookupAfterUpdate(w.t, i, o.peer, h, o.pools);
  }

  lemma {:induction false} InvDeliver(w: World, caps: Caps, h: uint16, e: Event, rc: Status)
    requires Inv(w, caps) && Enabled(w, Deliver(h, e, rc))
    ensures Inv(Exec(w, Deliver(h, e, rc)), caps)
  {
    hide Sound, Callback, Truthful, NextLink, Released, Inv;
    var i := Delivered(w, caps, h, e, rc);
    var p, l := w.t.peers[i], w.links[h];
    CallbackSound(p, l, w.t.pools, e, rc);
    CallbackConserves(p, l, w.t.pools, e, rc);
    CallbackKeeps(p, w.t.pools, l.pending.value, e, rc);
    var o := Callback(p, w.t.pools, l.pending.value, e, rc);
    LookupConn(w.t, h, i);
    InvReplace(w, caps, h, i, o.peer, o.pools, NextLink(l, p, e, o));
  }

  lemma {:induction false} LookupConn(t: Table, h: uint16, i: nat)
    requires IndexOfPeer(t.peers, h) == Some(i)
    ensures t.peers[i].conn == h
  {
  }

  lemma {:induction false} InvStep(w: World, caps: Caps, a: Action)
    requires Inv(w, caps) && Enabled(w, a)
    ensures Inv(Exec(w, a), caps)
  {
    match a
    case Add(h, db) => InvAdd(w, caps, h, db);
    case Delete(h) => InvDelete(w, caps, h);
    case Begin(h, root, cb, rc) => InvBegin(w, caps, h, root, cb, rc);
    case Deliver(h, e, rc) => InvDeliver(w, caps, h, e, rc);
  }

  lemma {:induction false} InvRun(w: World, caps: Caps, acts: seq<Action>)
    requires Inv(w, caps) && Legal(w, acts)
    ensures Inv(ExecAll(w, acts), caps)
    decreases |acts|
  {
    hide Inv, Exec, Enabled;
    if acts != [] {
      InvStep(w, caps, acts[0]);
      InvRun(Exec(w, acts[0]), caps, acts[1..]);
    }
  }

  /** Over every run from empty tables, with any interleaving of any number of links, any errors,
      refusals, restarts, deletions and exhausted pools: handles stay unique, in each of the four
      pools free blocks plus blocks in use equal the capacity, and every link is sound. */
  lemma {:induction false} RunsKeepInv(caps: Caps, acts: seq<Action>)
    requires Legal(Empty(caps), acts)
    ensures Inv(ExecAll(Empty(caps), acts), caps)
  {
    InvRun(Empty(caps), caps, acts);
  }

  /** An action on one link, possible or not, leaves every other peer as it was. */
  lemma {:induction false} OthersUntouched(w: World, a: Action, k: uint16)
    requires Unique(w.t.peers) && k != a.h
    ensures Lookup(Exec(w, a).t, k) == Lookup(w.t, k)
  {
    hide Callback, Released, NextLink;
    match a
    case Add(h, _) => LookupAfterAdd(w.t, h, k);
    case Delete(h) => LookupAfterDelete(w.t, h, k);
    case Begin(h, root, cb, rc) =>
      if IndexOfPeer(w.t.peers, h).Some? {
        var i := IndexOfPeer(w.t.peers, h).value;
        var o := Discover(w.t.peers[i], w.t.pools, root, cb, rc);
        LookupAfterUpdate(w.t, i, o.peer, k, o.pools);
      }
    case Deliver(h, e, rc) =>
      if Exec(w, a) != w {
        var i := IndexOfPeer(w.t.peers, h).value;
        var p, req := w.t.peers[i], w.links[h].pending.value;
        CallbackKeeps(p, w.t.pools, req, e, rc);
        var o := Callback(p, w.t.pools, req, e, rc);
        LookupAfterUpdate(w.t, i, o.peer, k, o.pools);
      }
  }
}
