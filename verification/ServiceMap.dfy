/** The list of services refines a map from start handles in which the first arrival wins, whatever
    the order of arrival and however often a service is delivered. */
module ServiceMap {
  import opened Gatt
  import opened SortedList
  import opened Discovery

  /** The list is ascending and holds the entries of the map and no others. */
  ghost predicate Represents(svcs: seq<Svc>, m: map<uint16, Svc>) {
    && Ascending(Starts(svcs)) && |m| == |svcs|
    && (forall i :: 0 <= i < |svcs| ==> svcs[i].decl.start in m && m[svcs[i].decl.start] == svcs[i])
    && (forall h :: h in m ==> Find(Starts(svcs), h).Some?)
  }

  function Keep(m: map<uint16, Svc>, g: GattSvc): map<uint16, Svc> {
    if g.start in m then m else m[g.start := Svc(g, [])]
  }

  function FirstWins(m: map<uint16, Svc>, gs: seq<GattSvc>): map<uint16, Svc>
    decreases |gs|
  {
    if gs == [] then m else FirstWins(Keep(m, gs[0]), gs[1..])
  }

  /** Services delivered one after the other, up to the first refusal. */
  function AddAll(p: Peer, pools: Pools, gs: seq<GattSvc>): Outcome
    decreases |gs|
  {
    if gs == [] then Outcome(Ok, p, pools)
    else
      var o := SvcAdd(p, pools, gs[0]);
      if o.rc.Ok? then AddAll(o.peer, o.pools, gs[1..]) else o
  }

  lemma {:induction false} InMap(svcs: seq<Svc>, m: map<uint16, Svc>, h: uint16)
    requires Represents(svcs, m)
    ensures Ascending(Starts(svcs)) && (h in m <==> Find(Starts(svcs), h).Some?)
  {
  }

  lemma {:induction false} InsertAscends(keys: seq<uint16>, h: uint16)
    requires Ascending(keys) && Find(keys, h).None?
    ensures var k := LeadingBelow(keys, h); Ascending(keys[..k] + [h] + keys[k..])
  {
  }

  lemma {:induction false} InsertMembers(keys: seq<uint16>, h: uint16, x: uint16)
    requires Ascending(keys) && Find(keys, h).None?
    ensures var k := LeadingBelow(keys, h);
      Find(keys[..k] + [h] + keys[k..], x).Some? <==> Find(keys, x).Some? || x == h
  {
    hide Ascending, Find;
    var k := LeadingBelow(keys, h);
    var keys' := keys[..k] + [h] + keys[k..];
    InsertAscends(keys, h);
    FindIsMembership(keys, x);
    FindIsMembership(keys', x);
    InsertIn(keys, k, h, x);
  }

  lemma {:induction false} InsertIn<X>(xs: seq<X>, k: nat, y: X, x: X)
    requires k <= |xs|
    ensures x in xs[..k] + [y] + xs[k..] <==> x in xs || x == y
  {
  }

  lemma {:induction false} InsertRepresents(svcs: seq<Svc>, m: map<uint16, Svc>, g: GattSvc)
    requires Represents(svcs, m) && g.start !in m
    ensures var k := LeadingBelow(Starts(svcs), g.start);
      Represents(svcs[..k] + [Svc(g, [])] + svcs[k..], Keep(m, g))
  {
    hide Ascending, LeadingBelow, Find;
    InMap(svcs, m, g.start);
    var keys := Starts(svcs);
    var k := LeadingBelow(keys, g.start);
    var svcs' := svcs[..k] + [Svc(g, [])] + svcs[k..];
    var keys' := keys[..k] + [g.start] + keys[k..];
    assert Starts(svcs') == keys';
    InsertAscends(keys, g.start);
    forall h | h in Keep(m, g) ensures Find(keys', h).Some? {
      InsertMembers(keys, g.start, h);
    }
    forall i | 0 <= i < |svcs'|
      ensures svcs'[i].decl.start in Keep(m, g) && Keep(m, g)[svcs'[i].decl.start] == svcs'[i]
    {
      if i != k {
        var i' := if i < k then i else i - 1;
        assert svcs'[i] == svcs[i'];
      }
    }
  }

  /** One arrival: the list stays ascending and its map gains the service unless the start handle is
      taken; it fails, changing nothing, exactly if the service is new and no block is free. */
  lemma {:induction false} AddRefines(p: Peer, pools: Pools, g: GattSvc, m: map<uint16, Svc>)
    requires Represents(p.svcs, m)
    ensures var o := SvcAdd(p, pools, g);
      && o.rc == (if g.start !in m && pools.svcs == 0 then ENoMem else Ok)
      && (o.rc.Ok? ==> Represents(o.peer.svcs, Keep(m, g)) && o.pools.svcs == pools.svcs - (|Keep(m, g)| - |m|))
      && (!o.rc.Ok? ==> o == Outcome(ENoMem, p, pools))
  {
    hide Represents, Ascending, LeadingBelow, Find;
    InMap(p.svcs, m, g.start);
    if g.start !in m {
      InsertRepresents(p.svcs, m, g);
    }
  }

  lemma {:induction false} FirstWinsGrows(m: map<uint16, Svc>, gs: seq<GattSvc>)
    ensures |m| <= |FirstWins(m, gs)|
    decreases |gs|
  {
    if gs != [] {
      FirstWinsGrows(Keep(m, gs[0]), gs[1..]);
    }
  }

  /** Any number of arrivals in any order with any duplicates: all are taken if and only if the pool
      has room for the new ones, and then the list is the first-arrival-wins map, in order. */
  lemma {:induction false} ArrivalsRefine(p: Peer, pools: Pools, gs: seq<GattSvc>, m: map<uint16, Svc>)
    requires Represents(p.svcs, m)
    ensures var o := AddAll(p, pools, gs);
      var m' := FirstWins(m, gs);
      && (o.rc.Ok? <==> |m'| - |m| <= pools.svcs)
      && (o.rc.Ok? ==> Represents(o.peer.svcs, m') && o.pools.svcs == pools.svcs - (|m'| - |m|))
      && (!o.rc.Ok? ==> o.rc == ENoMem && o.pools.svcs == 0)
    decreases |gs|
  {
    hide SvcAdd, Represents;
    if gs != [] {
      var o := SvcAdd(p, pools, gs[0]);
      AddRefines(p, pools, gs[0], m);
      FirstWinsGrows(Keep(m, gs[0]), gs[1..]);
      if o.rc.Ok? {
        ArrivalsRefine(o.peer, o.pools, gs[1..], Keep(m, gs[0]));
      }
    }
  }

  /** The `k`-th delivery is the first with start handle `h`. */
  predicate Arrives(gs: seq<GattSvc>, k: nat, h: uint16)
    requires k < |gs|
  {
    gs[k].start == h && forall a :: 0 <= a < k ==> gs[a].start != h
  }

  /** The first-arrival-wins map, said without a fold: an entry of the old map stays, and a new one
      is the first delivered service with its start handle. */
  lemma {:induction false} FirstWinsIs(m: map<uint16, Svc>, gs: seq<GattSvc>, h: uint16)
    ensures h in FirstWins(m, gs) <==> h in m || exists k :: 0 <= k < |gs| && gs[k].start == h
    ensures h in m ==> FirstWins(m, gs)[h] == m[h]
    ensures forall k :: 0 <= k < |gs| && h !in m && Arrives(gs, k, h) ==> FirstWins(m, gs)[h] == Svc(gs[k], [])
    decreases |gs|
  {
    if gs != [] {
      var m1, rest := Keep(m, gs[0]), gs[1..];
      FirstWinsIs(m1, rest, h);
      forall k | 0 <= k < |gs| && gs[k].start == h
        ensures h in FirstWins(m, gs)
      {
        assert k > 0 ==> rest[k - 1] == gs[k];
      }
      if h in FirstWins(m, gs) && h !in m && gs[0].start != h {
        var k :| 0 <= k < |rest| && rest[k].start == h;
        assert gs[k + 1] == rest[k];
      }
      forall k | 0 <= k < |gs| && h !in m && Arrives(gs, k, h)
        ensures FirstWins(m, gs)[h] == Svc(gs[k], [])
      {
        if k > 0 {
          assert gs[0].start != h && rest[k - 1] == gs[k];
          assert forall a :: 0 <= a < k - 1 ==> rest[a] == gs[a + 1];
        }
      }
    }
  }
}
