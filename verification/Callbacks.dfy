/** What a callback answers and reports on each status, for any tree and any item. */
module Callbacks {
  import opened Gatt
  import opened SortedList
  import opened Discovery
  import opened Runs
  import opened Selection

  /** An error of the stack is answered and reported as it is; the tree and the pools stay. */
  lemma {:induction false} ErrorPassedOn(p: Peer, pools: Pools, req: Request, e: Event, rc: Status)
    requires Deliverable(p, req, e) && !e.status.Ok? && !e.status.EDone?
    ensures Callback(p, pools, req, e, rc)
         == Outcome(e.status, Peer(p.conn, p.svcs, 0, p.cur, p.cb, p.trace + Report(p, e.status)), pools)
  {
  }

  /** "Done" is answered with success whatever comes of it. It is ignored if the cursor is 0, and
      otherwise leads on to what `Selection` says, characteristics only before the first descriptors. */
  lemma {:induction false} DonePassesOn(p: Peer, pools: Pools, req: Request, e: Event, rc: Status)
    requires Deliverable(p, req, e) && e.status.EDone?
    ensures Callback(p, pools, req, e, rc)
         == Outcome(Ok, if p.cursor == 0 then p else if req.DscsIn? then DiscDscs(p, rc) else DiscChrs(p, rc), pools)
  {
    hide DiscDscs, DiscChrs;
  }

  /** An item that is taken leaves all but the tree as it was; one that is not is answered and reported
      with the reason, and leaves the tree and the pools. */
  lemma {:induction false} ItemAnswered(p: Peer, pools: Pools, req: Request, e: Event, rc: Status)
    requires Deliverable(p, req, e) && e.status.Ok?
    ensures var o := Callback(p, pools, req, e, rc);
      && o.rc in {Ok, ENoMem, EUnknown}
      && (o.rc.Ok? ==> o.peer == Peer(p.conn, o.peer.svcs, p.cursor, p.cur, p.cb, p.trace))
      && (!o.rc.Ok? ==>
            o.peer == Peer(p.conn, p.svcs, 0, p.cur, p.cb, p.trace + Report(p, o.rc)) && o.pools == pools)
  {
    hide SvcAdd, ChrAdd, DscAdd;
    match e.item.value
    case SvcItem(g) => SvcAnswered(p, pools, g);
    case ChrItem(g) => ChrAnswered(p, pools, p.cur.value, g);
    case DscItem(g) => DscAnswered(p, pools, req.val, g);
  }

  /** What an addition may do. */
  predicate Answered(p: Peer, pools: Pools, o: Outcome) {
    && o.rc in {Ok, ENoMem, EUnknown}
    && o.peer == p.(svcs := o.peer.svcs)
    && (!o.rc.Ok? ==> o.peer == p && o.pools == pools)
  }

  lemma {:induction false} SvcAnswered(p: Peer, pools: Pools, g: GattSvc)
    ensures Answered(p, pools, SvcAdd(p, pools, g))
  {
    hide Find;
  }

  lemma {:induction false} ChrAnswered(p: Peer, pools: Pools, start: uint16, g: GattChr)
    ensures Answered(p, pools, ChrAdd(p, pools, start, g))
  {
    hide LinkAfter;
  }

  lemma {:induction false} DscAnswered(p: Peer, pools: Pools, val: uint16, g: GattDsc)
    ensures Answered(p, pools, DscAdd(p, pools, val, g))
  {
    hide LinkAfter;
  }

  // ----- where an addition goes, on any lists

  /** The walk for `h` stops at place `k`. */
  predicate StopsAt(keys: seq<uint16>, h: uint16, k: nat) {
    && k <= |keys|
    && (forall a :: 0 <= a < k ==> keys[a] < h)
    && (k < |keys| ==> h <= keys[k])
  }

  lemma {:induction false} FindAt(keys: seq<uint16>, h: uint16, k: nat)
    requires StopsAt(keys, h, k)
    ensures LeadingBelow(keys, h) == k
    ensures Find(keys, h) == if k < |keys| && keys[k] == h then Some(k) else None
  {
    LeadingBelowUnique(keys, h, k);
  }

  /** A characteristic delivered for the service that starts at `start`: the service is the `i`-th,
      and the walk for the declaration handle among the values stops at `k`. At the head of the list
      nothing is lost, elsewhere all that followed is. */
  lemma {:induction false} ChrPlaced(p: Peer, pools: Pools, g: GattChr, start: uint16, i: nat, k: nat)
    requires StopsAt(Starts(p.svcs), start, i) && i < |p.svcs| && p.svcs[i].decl.start == start
    requires StopsAt(Vals(p.svcs[i].chrs), g.def, k)
    ensures var s := p.svcs[i];
      var chrs := if k == 0 then [Chr(g, [])] + s.chrs else s.chrs[..k] + [Chr(g, [])];
      ChrAdd(p, pools, start, g) ==
      if k < |s.chrs| && s.chrs[k].decl.val == g.def then Outcome(Ok, p, pools)
      else if pools.chrs == 0 then Outcome(ENoMem, p, pools)
      else Outcome(Ok, p.(svcs := p.svcs[i := Svc(s.decl, chrs)]), Pools(pools.svcs, pools.chrs - 1, pools.dscs))
  {
    FindAt(Starts(p.svcs), start, i);
    FindAt(Vals(p.svcs[i].chrs), g.def, k);
  }

  /** A descriptor delivered for the value handle `val`: the first service with the handle in its range
      is the `i`-th, the characteristic is its `j`-th, and the walk for the handle stops at `k`. */
  lemma {:induction false} DscPlaced(p: Peer, pools: Pools, g: GattDsc, val: uint16, i: nat, j: nat, k: nat)
    requires i < |p.svcs| && p.svcs[i].decl.start <= val <= p.svcs[i].decl.end
    requires forall a :: 0 <= a < i ==> !(p.svcs[a].decl.start <= val <= p.svcs[a].decl.end)
    requires StopsAt(Vals(p.svcs[i].chrs), val, j) && j < |p.svcs[i].chrs| && p.svcs[i].chrs[j].decl.val == val
    requires StopsAt(Handles(p.svcs[i].chrs[j].dscs), g.handle, k)
    ensures var s := p.svcs[i];
      var c := s.chrs[j];
      var c' := Chr(c.decl, if k == 0 then [g] + c.dscs else c.dscs[..k] + [g]);
      DscAdd(p, pools, val, g) ==
      if k < |c.dscs| && c.dscs[k].handle == g.handle then Outcome(Ok, p, pools)
      else if pools.dscs == 0 then Outcome(ENoMem, p, pools)
      else Outcome(Ok, p.(svcs := p.svcs[i := Svc(s.decl, s.chrs[j := c'])]),
                   Pools(pools.svcs, pools.chrs, pools.dscs - 1))
  {
    FindAt(Vals(p.svcs[i].chrs), val, j);
    FindAt(Handles(p.svcs[i].chrs[j].dscs), g.handle, k);
  }

  /** A descriptor that is stored already is recognised: in an ascending list every one is. */
  lemma {:induction false} DscRecognised(p: Peer, pools: Pools, g: GattDsc, val: uint16, i: nat, j: nat, k: nat)
    requires i < |p.svcs| && FindRange(p.svcs, val) == Some(i)
    requires j < |p.svcs[i].chrs| && Find(Vals(p.svcs[i].chrs), val) == Some(j)
    requires Ascending(Handles(p.svcs[i].chrs[j].dscs)) && k < |p.svcs[i].chrs[j].dscs|
    requires p.svcs[i].chrs[j].dscs[k].handle == g.handle
    ensures DscAdd(p, pools, val, g) == Outcome(Ok, p, pools)
  {
    FindIsMembership(Handles(p.svcs[i].chrs[j].dscs), g.handle);
  }
}
