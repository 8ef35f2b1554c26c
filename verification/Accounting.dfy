/** Where the pool blocks are: what every operation of a peer does to free blocks plus tree nodes. */
module Accounting {
  import opened Gatt
  import opened SortedList
  import opened Discovery
  import opened Remote

  // ----- counting nodes

  lemma {:induction false} CountAppend(a: seq<Svc>, b: seq<Svc>)
    ensures ChrCount(a + b) == ChrCount(a) + ChrCount(b)
    ensures DscCount(a + b) == DscCount(a) + DscCount(b)
  {
    if a == [] {
      assert a + b == b;
    } else {
      assert (a + b)[1..] == a[1..] + b;
      CountAppend(a[1..], b);
    }
  }

  lemma {:induction false} DscsOfChrsAppend(a: seq<Chr>, b: seq<Chr>)
    ensures DscsOfChrs(a + b) == DscsOfChrs(a) + DscsOfChrs(b)
  {
    if a == [] {
      assert a + b == b;
    } else {
      assert (a + b)[1..] == a[1..] + b;
      DscsOfChrsAppend(a[1..], b);
    }
  }

  lemma {:induction false} CountInsert(svcs: seq<Svc>, k: nat, g: GattSvc)
    requires k <= |svcs|
    ensures ChrCount(svcs[..k] + [Svc(g, [])] + svcs[k..]) == ChrCount(svcs)
    ensures DscCount(svcs[..k] + [Svc(g, [])] + svcs[k..]) == DscCount(svcs)
  {
    CountAppend(svcs[..k] + [Svc(g, [])], svcs[k..]);
    CountAppend(svcs[..k], [Svc(g, [])]);
    CountAppend(svcs[..k], svcs[k..]);
    assert svcs[..k] + svcs[k..] == svcs;
  }

  lemma {:induction false} CountUpdate(svcs: seq<Svc>, i: nat, s: Svc)
    requires i < |svcs|
    ensures ChrCount(svcs[i := s]) + |svcs[i].chrs| == ChrCount(svcs) + |s.chrs|
    ensures DscCount(svcs[i := s]) + DscsOfChrs(svcs[i].chrs) == DscCount(svcs) + DscsOfChrs(s.chrs)
  {
    if i == 0 {
      assert svcs[i := s] == [s] + svcs[1..];
    } else {
      assert svcs[i := s][1..] == svcs[1..][i - 1 := s];
      CountUpdate(svcs[1..], i - 1, s);
    }
  }

  lemma {:induction false} DscsOfChrsUpdate(chrs: seq<Chr>, j: nat, c: Chr)
    requires j < |chrs|
    ensures DscsOfChrs(chrs[j := c]) + |chrs[j].dscs| == DscsOfChrs(chrs) + |c.dscs|
  {
    if j > 0 {
      assert chrs[j := c][1..] == chrs[1..][j - 1 := c];
      DscsOfChrsUpdate(chrs[1..], j - 1, c);
    } else {
      assert chrs[j := c] == [c] + chrs[1..];
    }
  }

  // ----- what linking without the old successor costs

  /** The nodes `LinkAfter` leaves out. */
  function Lost<T>(xs: seq<T>, k: nat): seq<T>
    requires k <= |xs|
  {
    if k == 0 then [] else xs[k..]
  }

  /** The characteristics that become unreachable when `g` is added. */
  function ChrAddLost(p: Peer, pools: Pools, start: uint16, g: GattChr): seq<Chr> {
    match Find(Starts(p.svcs), start)
    case None => []
    case Some(i) =>
      var chrs := p.svcs[i].chrs;
      if Find(Vals(chrs), g.def).Some? || pools.chrs == 0 then []
      else Lost(chrs, LeadingBelow(Vals(chrs), g.def))
  }

  /** The descriptors that become unreachable when `g` is added. */
  function DscAddLost(p: Peer, pools: Pools, val: uint16, g: GattDsc): seq<GattDsc> {
    match FindRange(p.svcs, val)
    case None => []
    case Some(i) =>
      match Find(Vals(p.svcs[i].chrs), val)
      case None => []
      case Some(j) =>
        var dscs := p.svcs[i].chrs[j].dscs;
        if Find(Handles(dscs), g.handle).Some? || pools.dscs == 0 then []
        else Lost(dscs, LeadingBelow(Handles(dscs), g.handle))
  }

  /** Services may arrive in any order: adding one never loses a block. */
  lemma {:induction false} SvcAddConserves(p: Peer, pools: Pools, g: GattSvc)
    ensures var o := SvcAdd(p, pools, g); Released(o.pools, o.peer.svcs) == Released(pools, p.svcs)
  {
    CountInsert(p.svcs, LeadingBelow(Starts(p.svcs), g.start), g);
  }

  lemma {:induction false} LinkAfterCount(chrs: seq<Chr>, k: nat, g: GattChr)
    requires k <= |chrs|
    ensures |LinkAfter(chrs, k, Chr(g, []))| + |Lost(chrs, k)| == |chrs| + 1
    ensures DscsOfChrs(LinkAfter(chrs, k, Chr(g, []))) + DscsOfChrs(Lost(chrs, k)) == DscsOfChrs(chrs)
  {
    if k == 0 {
      DscsOfChrsAppend([Chr(g, [])], chrs);
    } else {
      DscsOfChrsAppend(chrs[..k], [Chr(g, [])]);
      DscsOfChrsAppend(chrs[..k], chrs[k..]);
      assert chrs[..k] + chrs[k..] == chrs;
    }
  }

  /** The characteristic is not taken, or linked at the head or the end of its list. */
  predicate ChrAddAppends(p: Peer, pools: Pools, start: uint16, g: GattChr) {
    match Find(Starts(p.svcs), start)
    case None => true
    case Some(i) =>
      var keys := Vals(p.svcs[i].chrs);
      Find(keys, g.def).Some? || pools.chrs == 0 || LeadingBelow(keys, g.def) in {0, |keys|}
  }

  predicate DscAddAppends(p: Peer, pools: Pools, val: uint16, g: GattDsc) {
    match FindRange(p.svcs, val)
    case None => true
    case Some(i) =>
      match Find(Vals(p.svcs[i].chrs), val)
      case None => true
      case Some(j) =>
        var keys := Handles(p.svcs[i].chrs[j].dscs);
        Find(keys, g.handle).Some? || pools.dscs == 0 || LeadingBelow(keys, g.handle) in {0, |keys|}
  }

  /** Adding a characteristic conserves blocks exactly when it is not linked into the middle of its
      list; otherwise what followed is lost, with its descriptors. */
  lemma {:induction false} ChrAddAccount(p: Peer, pools: Pools, start: uint16, g: GattChr)
    ensures var o, lost := ChrAdd(p, pools, start, g), ChrAddLost(p, pools, start, g);
      && Released(pools, p.svcs).svcs == Released(o.pools, o.peer.svcs).svcs
      && Released(pools, p.svcs).chrs == Released(o.pools, o.peer.svcs).chrs + |lost|
      && Released(pools, p.svcs).dscs == Released(o.pools, o.peer.svcs).dscs + DscsOfChrs(lost)
      && (Released(pools, p.svcs) == Released(o.pools, o.peer.svcs) <==> ChrAddAppends(p, pools, start, g))
  {
    match Find(Starts(p.svcs), start)
    case None =>
    case Some(i) =>
      var chrs := p.svcs[i].chrs;
      var k := LeadingBelow(Vals(chrs), g.def);
      LinkAfterCount(chrs, k, g);
      CountUpdate(p.svcs, i, p.svcs[i].(chrs := LinkAfter(chrs, k, Chr(g, []))));
  }

  /** The same for a descriptor. */
  lemma {:induction false} DscAddAccount(p: Peer, pools: Pools, val: uint16, g: GattDsc)
    ensures var o, lost := DscAdd(p, pools, val, g), DscAddLost(p, pools, val, g);
      && Released(pools, p.svcs).svcs == Released(o.pools, o.peer.svcs).svcs
      && Released(pools, p.svcs).chrs == Released(o.pools, o.peer.svcs).chrs
      && Released(pools, p.svcs).dscs == Released(o.pools, o.peer.svcs).dscs + |lost|
      && (Released(pools, p.svcs) == Released(o.pools, o.peer.svcs) <==> DscAddAppends(p, pools, val, g))
  {
    match FindRange(p.svcs, val)
    case None =>
    case Some(i) =>
      var s := p.svcs[i];
      match Find(Vals(s.chrs), val)
      case None =>
      case Some(j) =>
        var c := s.chrs[j];
        var c' := c.(dscs := LinkAfter(c.dscs, LeadingBelow(Handles(c.dscs), g.handle), g));
        CountUpdate(p.svcs, i, s.(chrs := s.chrs[j := c']));
        DscsOfChrsUpdate(s.chrs, j, c');
  }

  /** A characteristic delivered between two known ones costs the second its place in the tree:
      its block is neither free nor reachable any more. */
  lemma {:induction false} OutOfOrderLeaks()
    ensures var svc := Svc(GattSvc(1, 20, Uuid16(0)),
                     [Chr(GattChr(2, 3, 0, Uuid16(0)), []), Chr(GattChr(8, 9, 0, Uuid16(0)), [])]);
      var p := FreshPeer(0).(svcs := [svc]);
      var o := ChrAdd(p, Pools(0, 5, 0), 1, GattChr(5, 6, 0, Uuid16(0)));
      o.rc.Ok? && o.pools.chrs == 4 && ChrCount(p.svcs) == 2 && ChrCount(o.peer.svcs) == 2
  {
    var chrs := [Chr(GattChr(2, 3, 0, Uuid16(0)), []), Chr(GattChr(8, 9, 0, Uuid16(0)), [])];
    var p := FreshPeer(0).(svcs := [Svc(GattSvc(1, 20, Uuid16(0)), chrs)]);
    LeadingBelowUnique(Starts(p.svcs), 1, 0);
    LeadingBelowUnique(Vals(chrs), 5, 1);
    ChrAddAccount(p, Pools(0, 5, 0), 1, GattChr(5, 6, 0, Uuid16(0)));
  }

  // ----- characteristics delivered again

  /** A delivery is taken for a known characteristic, and changes nothing, if and only if the search
      for its declaration handle among the value handles ends at an equal one. */
  lemma {:induction false} RecognisedIff(p: Peer, pools: Pools, start: uint16, g: GattChr, i: nat)
    requires Find(Starts(p.svcs), start) == Some(i) && pools.chrs > 0
    ensures ChrAdd(p, pools, start, g) == Outcome(Ok, p, pools) <==> Find(Vals(p.svcs[i].chrs), g.def).Some?
  {
  }

  /** In an ordered tree a stored characteristic that is delivered again is therefore never
      recognised. The first one of its service is stored a second time, before the list; any other
      takes the place of its stored node, which drops out with everything that followed. */
  lemma {:induction false} RedeliveryReplaces(p: Peer, pools: Pools, i: nat, j: nat)
    requires DbWf(p.svcs) && i < |p.svcs| && j < |p.svcs[i].chrs| && pools.chrs > 0
    ensures var s := p.svcs[i];
      var g := s.chrs[j].decl;
      var chrs := if j == 0 then [Chr(g, [])] + s.chrs else s.chrs[..j] + [Chr(g, [])];
      && ChrAdd(p, pools, s.decl.start, g)
         == Outcome(Ok, p.(svcs := p.svcs[i := s.(chrs := chrs)]), pools.(chrs := pools.chrs - 1))
      && ChrAddLost(p, pools, s.decl.start, g) == (if j == 0 then [] else s.chrs[j..])
  {
    var s := p.svcs[i];
    StoredStart(p.svcs, i);
    StoredDef(s, j);
  }

  lemma {:induction false} StoredStart(svcs: seq<Svc>, i: nat)
    requires DbWf(svcs) && i < |svcs|
    ensures Find(Starts(svcs), svcs[i].decl.start) == Some(i)
  {
  }

  lemma {:induction false} StoredDef(s: Svc, j: nat)
    requires SvcWf(s) && j < |s.chrs|
    ensures LeadingBelow(Vals(s.chrs), s.chrs[j].decl.def) == j
    ensures Find(Vals(s.chrs), s.chrs[j].decl.def).None?
  {
    var def := s.chrs[j].decl.def;
    assert ChrWf(s, j);
    forall a | 0 <= a < j ensures Vals(s.chrs)[a] < def {
      assert ChrWf(s, a);
    }
    LeadingBelowUnique(Vals(s.chrs), def, j);
  }
}
