/** The trees a discovery passes through on its way to `goal`, and what one callback does to each. */
module Snapshots {
  import opened Gatt
  import opened SortedList
  import opened Discovery
  import opened Remote

  /** How far discovery has come: services delivered so far; the service whose characteristics are
      being delivered and how many are; the characteristic (as an index into `Positions`) whose
      descriptors are being delivered and how many are. */
  datatype Progress = Svcs(k: nat) | Chrs(i: nat, m: nat) | Dscs(f: nat, m: nat)

  predicate InGoal(goal: seq<Svc>, pr: Progress) {
    match pr
    case Svcs(k) => k <= |goal|
    case Chrs(i, m) => i <= |goal| && m <= (if i < |goal| then |goal[i].chrs| else 0)
    case Dscs(f, m) =>
      var ps := Positions(goal);
      f <= |ps| && m <= (if f < |ps| then |At(goal, ps[f]).dscs| else 0)
  }

  function Bares(chrs: seq<Chr>): (r: seq<Chr>)
    ensures |r| == |chrs| && forall j :: 0 <= j < |r| ==> r[j] == Chr(chrs[j].decl, [])
  {
    seq(|chrs|, j requires 0 <= j < |chrs| => Chr(chrs[j].decl, []))
  }

  /** The descriptors known at `pos` when those before the `f`-th characteristic are complete and
      `m` of its own have arrived. */
  function KnownDscs(goal: seq<Svc>, f: nat, m: nat, pos: Pos): seq<GattDsc>
    requires InGoal(goal, Dscs(f, m)) && InTree(goal, pos)
  {
    var ps := Positions(goal);
    var all := At(goal, pos).dscs;
    if f == |ps| || Before(pos, ps[f]) then all else if pos == ps[f] then all[..m] else []
  }

  function KnownChrs(goal: seq<Svc>, pr: Progress, i: nat): (r: seq<Chr>)
    requires InGoal(goal, pr) && i < |goal|
    ensures pr.Dscs? ==> |r| == |goal[i].chrs|
    ensures pr.Dscs? ==> forall j :: 0 <= j < |r| ==>
      r[j] == Chr(goal[i].chrs[j].decl, KnownDscs(goal, pr.f, pr.m, Pos(i, j)))
  {
    match pr
    case Svcs(_) => []
    case Chrs(i0, m) =>
      if i < i0 then Bares(goal[i].chrs) else if i == i0 then Bares(goal[i].chrs[..m]) else []
    case Dscs(f, m) =>
      seq(|goal[i].chrs|, j requires 0 <= j < |goal[i].chrs| =>
        Chr(goal[i].chrs[j].decl, KnownDscs(goal, f, m, Pos(i, j))))
  }

  function Snapshot(goal: seq<Svc>, pr: Progress): (r: seq<Svc>)
    requires InGoal(goal, pr)
    ensures |r| == if pr.Svcs? then pr.k else |goal|
    ensures forall i :: 0 <= i < |r| ==> r[i] == Svc(goal[i].decl, KnownChrs(goal, pr, i))
  {
    seq(if pr.Svcs? then pr.k else |goal|, i requires 0 <= i < |goal| =>
      Svc(goal[i].decl, KnownChrs(goal, pr, i)))
  }

  // ----- positions

  predicate InOrder(ps: seq<Pos>) {
    forall a, b :: 0 <= a < b < |ps| ==> Before(ps[a], ps[b])
  }

  /** List order is the lexicographic order, and no characteristic is missed. */
  lemma {:induction false} PositionsSorted(svcs: seq<Svc>, n: nat)
    requires n <= |svcs|
    ensures InOrder(PositionsUpTo(svcs, n))
  {
    if n > 0 {
      PositionsSorted(svcs, n - 1);
      var front, last := PositionsUpTo(svcs, n - 1), PosOfSvc(svcs[n - 1], n - 1);
      var ps := front + last;
      forall a, b | 0 <= a < b < |ps| ensures Before(ps[a], ps[b]) {
        if b < |front| {
          assert ps[a] == front[a] && ps[b] == front[b];
        } else if a < |front| {
          assert ps[a] == front[a] && ps[b] == last[b - |front|];
        } else {
          assert ps[a] == last[a - |front|] && ps[b] == last[b - |front|];
        }
      }
    }
  }

  lemma {:induction false} PositionsComplete(svcs: seq<Svc>, n: nat, pos: Pos)
    requires n <= |svcs| && InTree(svcs, pos) && pos.i < n
    ensures pos in PositionsUpTo(svcs, n)
  {
    if pos.i == n - 1 {
      assert PosOfSvc(svcs[n - 1], n - 1)[pos.j] == pos;
    } else {
      PositionsComplete(svcs, n - 1, pos);
    }
  }

  lemma {:induction false} PositionsShape(a: seq<Svc>, b: seq<Svc>, n: nat)
    requires |a| == |b| && n <= |a|
    requires forall i :: 0 <= i < n ==> |a[i].chrs| == |b[i].chrs|
    ensures PositionsUpTo(a, n) == PositionsUpTo(b, n)
  {
    if n > 0 {
      PositionsShape(a, b, n - 1);
    }
  }

  /** Handles ascend along the positions of a well-formed database. */
  lemma {:induction false} HandlesAscend(db: seq<Svc>, a: Pos, b: Pos)
    requires DbWf(db) && InTree(db, a) && InTree(db, b) && Before(a, b)
    ensures At(db, a).decl.val <= EndAt(db, a) < At(db, b).decl.def
  {
    assert ChrWf(db[a.i], a.j);
    assert ChrWf(db[b.i], b.j);
  }

  // ----- the service phase

  lemma {:induction false} StartsAscend(goal: seq<Svc>, pr: Progress)
    requires DbWf(goal) && InGoal(goal, pr)
    ensures Ascending(Starts(Snapshot(goal, pr)))
  {
  }

  lemma {:induction false} SvcItemStep(goal: seq<Svc>, k: nat, p: Peer, pools: Pools)
    requires DbWf(goal) && k < |goal| && p.svcs == Snapshot(goal, Svcs(k))
    ensures SvcAdd(p, pools, goal[k].decl)
         == if pools.svcs == 0 then Outcome(ENoMem, p, pools)
            else Outcome(Ok, p.(svcs := Snapshot(goal, Svcs(k + 1))), pools.(svcs := pools.svcs - 1))
  {
  }

  lemma {:induction false} SvcsDone(goal: seq<Svc>)
    ensures Snapshot(goal, Svcs(|goal|)) == Snapshot(goal, Chrs(0, 0))
  {
  }

  // ----- the characteristic phase

  lemma {:induction false} ValsAscend(s: Svc)
    requires SvcWf(s)
    ensures Ascending(Vals(s.chrs))
  {
    forall j, k | 0 <= j < k < |s.chrs| ensures s.chrs[j].decl.val < s.chrs[k].decl.val {
      assert ChrWf(s, j) && ChrWf(s, k);
    }
  }

  lemma {:induction false} ChrItemStep(goal: seq<Svc>, i: nat, m: nat, p: Peer, pools: Pools)
    requires DbWf(goal) && i < |goal| && m < |goal[i].chrs| && p.svcs == Snapshot(goal, Chrs(i, m))
    ensures Find(Starts(p.svcs), goal[i].decl.start) == Some(i)
    ensures ChrAdd(p, pools, goal[i].decl.start, goal[i].chrs[m].decl)
         == if pools.chrs == 0 then Outcome(ENoMem, p, pools)
            else Outcome(Ok, p.(svcs := Snapshot(goal, Chrs(i, m + 1))), pools.(chrs := pools.chrs - 1))
  {
    var goalSvc, s := goal[i], p.svcs[i];
    StartsAscend(goal, Chrs(i, m));
    FindIsMembership(Starts(p.svcs), goalSvc.decl.start);
    forall j | 0 <= j < m ensures Vals(s.chrs)[j] < goalSvc.chrs[m].decl.def {
      assert ChrWf(goalSvc, j);
    }
    FindPastEnd(Vals(s.chrs), goalSvc.chrs[m].decl.def);
    var chr := Chr(goalSvc.chrs[m].decl, []);
    assert LinkAfter(s.chrs, m, chr) == Bares(goalSvc.chrs[..m + 1]);
    assert p.svcs[i := s.(chrs := LinkAfter(s.chrs, m, chr))] == Snapshot(goal, Chrs(i, m + 1));
  }

  lemma {:induction false} ChrsFull(goal: seq<Svc>, i: nat)
    requires i < |goal|
    ensures Snapshot(goal, Chrs(i, |goal[i].chrs|)) == Snapshot(goal, Chrs(i + 1, 0))
  {
    assert goal[i].chrs[..|goal[i].chrs|] == goal[i].chrs;
  }

  lemma {:induction false} HoldsSomething(s: Svc)
    requires SvcWf(s) && s.chrs != []
    ensures NonEmpty(s.decl)
  {
    assert ChrWf(s, 0);
  }

  lemma {:induction false} SkipServices(goal: seq<Svc>, i: nat, n: nat)
    requires i <= n <= |goal| && forall a :: i <= a < n ==> goal[a].chrs == []
    ensures Snapshot(goal, Chrs(i, 0)) == Snapshot(goal, Chrs(n, 0))
  {
  }

  lemma {:induction false} OpenInSnapshot(goal: seq<Svc>, i: nat, a: nat)
    requires DbWf(goal) && i <= |goal| && a < |goal| && (a < i ==> !Open(goal[a]))
    ensures Open(Snapshot(goal, Chrs(i, 0))[a]) <==> i <= a && NonEmpty(goal[a].decl)
    ensures !NonEmpty(goal[a].decl) ==> goal[a].chrs == []
  {
    if goal[a].chrs != [] {
      HoldsSomething(goal[a]);
    }
  }

  /** The first service from `i` on whose range can hold a characteristic. */
  function NextSvc(goal: seq<Svc>, i: nat): (n: nat)
    requires i <= |goal|
    ensures i <= n <= |goal| && (n < |goal| ==> NonEmpty(goal[n].decl))
    ensures forall a :: i <= a < n ==> !NonEmpty(goal[a].decl)
    decreases |goal| - i
  {
    if i == |goal| || NonEmpty(goal[i].decl) then i else NextSvc(goal, i + 1)
  }

  lemma {:induction false} FirstOpenIs(svcs: seq<Svc>, n: nat)
    requires n <= |svcs| && (forall a :: 0 <= a < n ==> !Open(svcs[a])) && (n < |svcs| ==> Open(svcs[n]))
    ensures FirstOpen(svcs) == if n == |svcs| then None else Some(n)
  {
  }

  /** With the services before `i` done, the search stops at the next one whose range can hold a
      characteristic; those it skips are complete as they are. */
  lemma {:induction false} OpenStep(goal: seq<Svc>, i: nat)
    requires DbWf(goal) && i <= |goal|
    requires forall a :: 0 <= a < i ==> !Open(goal[a])
    ensures var n := NextSvc(goal, i);
      && FirstOpen(Snapshot(goal, Chrs(i, 0))) == (if n == |goal| then None else Some(n))
      && Snapshot(goal, Chrs(i, 0)) == Snapshot(goal, Chrs(n, 0))
  {
    var s, n := Snapshot(goal, Chrs(i, 0)), NextSvc(goal, i);
    forall a | 0 <= a < |goal|
      ensures Open(s[a]) <==> i <= a && NonEmpty(goal[a].decl)
      ensures !NonEmpty(goal[a].decl) ==> goal[a].chrs == []
    {
      OpenInSnapshot(goal, i, a);
    }
    FirstOpenIs(s, n);
    SkipServices(goal, i, n);
  }

  // ----- the descriptor phase

  lemma {:induction false} AllBare(goal: seq<Svc>)
    ensures Snapshot(goal, Chrs(|goal|, 0)) == Snapshot(goal, Dscs(0, 0))
  {
    var ps := Positions(goal);
    PositionsSorted(goal, |goal|);
    forall i | 0 <= i < |goal|
      ensures KnownChrs(goal, Chrs(|goal|, 0), i) == KnownChrs(goal, Dscs(0, 0), i)
    {
      forall j | 0 <= j < |goal[i].chrs|
        ensures KnownDscs(goal, 0, 0, Pos(i, j)) == []
      {
        PositionsComplete(goal, |goal|, Pos(i, j));
      }
    }
  }

  lemma {:induction false} SnapshotsAgree(goal: seq<Svc>, f: nat, m: nat, g: nat, n: nat)
    requires InGoal(goal, Dscs(f, m)) && InGoal(goal, Dscs(g, n))
    requires forall pos :: InTree(goal, pos) ==> KnownDscs(goal, f, m, pos) == KnownDscs(goal, g, n, pos)
    ensures Snapshot(goal, Dscs(f, m)) == Snapshot(goal, Dscs(g, n))
  {
    hide Positions, KnownDscs;
    forall i | 0 <= i < |goal|
      ensures KnownChrs(goal, Dscs(f, m), i) == KnownChrs(goal, Dscs(g, n), i)
    {
      var a, b := KnownChrs(goal, Dscs(f, m), i), KnownChrs(goal, Dscs(g, n), i);
      forall j | 0 <= j < |goal[i].chrs| ensures a[j] == b[j] {
        assert KnownDscs(goal, f, m, Pos(i, j)) == KnownDscs(goal, g, n, Pos(i, j));
      }
    }
  }

  /** The index of a position. */
  lemma {:induction false} IndexOf(goal: seq<Svc>, pos: Pos) returns (a: nat)
    requires InTree(goal, pos)
    ensures a < |Positions(goal)| && Positions(goal)[a] == pos
    ensures forall f :: 0 <= f < |Positions(goal)| ==> (Before(pos, Positions(goal)[f]) <==> a < f)
    ensures forall f :: 0 <= f < |Positions(goal)| ==> (pos == Positions(goal)[f] <==> a == f)
  {
    PositionsComplete(goal, |goal|, pos);
    PositionsSorted(goal, |goal|);
    a :| 0 <= a < |Positions(goal)| && Positions(goal)[a] == pos;
  }

  lemma {:induction false} DscsFull(goal: seq<Svc>, f: nat)
    requires f < |Positions(goal)|
    ensures Snapshot(goal, Dscs(f, |At(goal, Positions(goal)[f]).dscs|)) == Snapshot(goal, Dscs(f + 1, 0))
  {
    hide Positions, Snapshot;
    var m := |At(goal, Positions(goal)[f]).dscs|;
    forall pos | InTree(goal, pos)
      ensures KnownDscs(goal, f, m, pos) == KnownDscs(goal, f + 1, 0, pos)
    {
      var a := IndexOf(goal, pos);
      var all := At(goal, pos).dscs;
      assert all[..|all|] == all;
    }
    SnapshotsAgree(goal, f, m, f + 1, 0);
  }

  lemma {:induction false} AllDone(goal: seq<Svc>)
    ensures Snapshot(goal, Dscs(|Positions(goal)|, 0)) == goal
  {
    assert forall i :: 0 <= i < |goal| ==>
      KnownChrs(goal, Dscs(|Positions(goal)|, 0), i) == goal[i].chrs;
  }

  /** In the descriptor phase every characteristic is already in the tree, so positions and ranges
      are the goal's. */
  lemma {:induction false} SameShape(goal: seq<Svc>, f: nat, m: nat)
    requires InGoal(goal, Dscs(f, m))
    ensures Positions(Snapshot(goal, Dscs(f, m))) == Positions(goal)
  {
    PositionsShape(Snapshot(goal, Dscs(f, m)), goal, |goal|);
  }

  lemma {:induction false} SameAt(goal: seq<Svc>, f: nat, m: nat, pos: Pos)
    requires InGoal(goal, Dscs(f, m)) && InTree(goal, pos)
    ensures InTree(Snapshot(goal, Dscs(f, m)), pos)
    ensures At(Snapshot(goal, Dscs(f, m)), pos) == Chr(At(goal, pos).decl, KnownDscs(goal, f, m, pos))
    ensures EndAt(Snapshot(goal, Dscs(f, m)), pos) == EndAt(goal, pos)
  {
  }

  lemma {:induction false} NoRoomNoDscs(goal: seq<Svc>, pos: Pos)
    requires DbWf(goal) && InTree(goal, pos) && At(goal, pos).dscs != []
    ensures RoomAt(goal, pos)
  {
    assert ChrWf(goal[pos.i], pos.j);
    assert At(goal, pos).decl.val < At(goal, pos).dscs[0].handle;
  }

  lemma {:induction false} SkipChrs(goal: seq<Svc>, f: nat, n: nat)
    requires f <= n <= |Positions(goal)|
    requires forall a :: f <= a < n ==> At(goal, Positions(goal)[a]).dscs == []
    ensures Snapshot(goal, Dscs(f, 0)) == Snapshot(goal, Dscs(n, 0))
  {
    hide Positions, Snapshot;
    forall pos | InTree(goal, pos)
      ensures KnownDscs(goal, f, 0, pos) == KnownDscs(goal, n, 0, pos)
    {
      var a := IndexOf(goal, pos);
    }
    SnapshotsAgree(goal, f, 0, n, 0);
  }

  lemma {:induction false} WantedInSnapshot(goal: seq<Svc>, f: nat, cursor: uint16, a: nat)
    requires DbWf(goal) && f <= |Positions(goal)| && a < |Positions(goal)|
    requires a < f ==> At(goal, Positions(goal)[a]).decl.def < cursor
    requires f <= a ==> cursor <= At(goal, Positions(goal)[a]).decl.def
    ensures InTree(Snapshot(goal, Dscs(f, 0)), Positions(goal)[a])
    ensures Wanted(Snapshot(goal, Dscs(f, 0)), Positions(goal)[a], cursor)
       <==> f <= a && RoomAt(goal, Positions(goal)[a])
    ensures !RoomAt(goal, Positions(goal)[a]) ==> At(goal, Positions(goal)[a]).dscs == []
  {
    hide Positions, Snapshot, DbWf;
    var pos := Positions(goal)[a];
    SameAt(goal, f, 0, pos);
    var b := IndexOf(goal, pos);
    if At(goal, pos).dscs != [] {
      NoRoomNoDscs(goal, pos);
    }
  }

  /** The first characteristic from the `f`-th on with room for descriptors. */
  function NextRoom(goal: seq<Svc>, f: nat): (n: nat)
    requires f <= |Positions(goal)|
    ensures f <= n <= |Positions(goal)| && (n < |Positions(goal)| ==> RoomAt(goal, Positions(goal)[n]))
    ensures forall a :: f <= a < n ==> !RoomAt(goal, Positions(goal)[a])
    decreases |Positions(goal)| - f
  {
    if f == |Positions(goal)| || RoomAt(goal, Positions(goal)[f]) then f else NextRoom(goal, f + 1)
  }

  lemma {:induction false} ScanIs(svcs: seq<Svc>, ps: seq<Pos>, cursor: uint16, n: nat)
    requires forall k :: 0 <= k < |ps| ==> InTree(svcs, ps[k])
    requires n <= |ps| && (forall a :: 0 <= a < n ==> !Wanted(svcs, ps[a], cursor))
    requires n < |ps| ==> Wanted(svcs, ps[n], cursor)
    ensures Scan(svcs, ps, cursor) == if n == |ps| then None else Some(n)
  {
  }

  /** `cursor` separates the characteristics before the `f`-th from the others. */
  predicate Separates(goal: seq<Svc>, f: nat, cursor: uint16) {
    && (forall a :: 0 <= a < |Positions(goal)| && a < f ==> At(goal, Positions(goal)[a]).decl.def < cursor)
    && (forall a :: f <= a < |Positions(goal)| ==> cursor <= At(goal, Positions(goal)[a]).decl.def)
  }

  /** With the characteristics before the `f`-th done and the cursor between them and the rest, the
      search stops at the next characteristic with room for descriptors. */
  lemma {:induction false} ScanStep(goal: seq<Svc>, f: nat, cursor: uint16)
    requires DbWf(goal) && f <= |Positions(goal)| && Separates(goal, f, cursor)
    ensures Positions(Snapshot(goal, Dscs(f, 0))) == Positions(goal)
    ensures var n := NextRoom(goal, f);
      && Scan(Snapshot(goal, Dscs(f, 0)), Positions(goal), cursor)
         == (if n == |Positions(goal)| then None else Some(n))
      && Snapshot(goal, Dscs(f, 0)) == Snapshot(goal, Dscs(n, 0))
  {
    var s, ps, n := Snapshot(goal, Dscs(f, 0)), Positions(goal), NextRoom(goal, f);
    SameShape(goal, f, 0);
    assert forall k :: 0 <= k < |ps| ==> InTree(s, Positions(s)[k]);
    forall a | 0 <= a < |ps|
      ensures Wanted(s, ps[a], cursor) <==> f <= a && RoomAt(goal, ps[a])
      ensures !RoomAt(goal, ps[a]) ==> At(goal, ps[a]).dscs == []
    {
      WantedInSnapshot(goal, f, cursor, a);
    }
    ScanIs(s, ps, cursor, n);
    SkipChrs(goal, f, n);
  }

  /** A handle in a service's range has that service as its only owner. */
  lemma {:induction false} OwnerOf(goal: seq<Svc>, pr: Progress, i: nat, h: uint16)
    requires DbWf(goal) && InGoal(goal, pr) && i < |Snapshot(goal, pr)|
    requires goal[i].decl.start <= h <= goal[i].decl.end
    ensures FindRange(Snapshot(goal, pr), h) == Some(i)
  {
    hide Snapshot, DbWf;
    SnapshotDecls(goal, pr);
    RangesApart(goal, i, h);
  }

  lemma {:induction false} SnapshotDecls(goal: seq<Svc>, pr: Progress)
    requires InGoal(goal, pr)
    ensures |Snapshot(goal, pr)| <= |goal|
    ensures forall k :: 0 <= k < |Snapshot(goal, pr)| ==> Snapshot(goal, pr)[k].decl == goal[k].decl
  {
  }

  lemma {:induction false} RangesApart(goal: seq<Svc>, i: nat, h: uint16)
    requires DbWf(goal) && i < |goal| && goal[i].decl.start <= h <= goal[i].decl.end
    ensures forall k :: 0 <= k < |goal| && goal[k].decl.start <= h <= goal[k].decl.end ==> k == i
  {
  }

  /** The lookups of `peer_dsc_add` find the characteristic the procedure was started for. */
  lemma {:induction false} DscLookup(goal: seq<Svc>, f: nat, m: nat)
    requires DbWf(goal) && InGoal(goal, Dscs(f, m)) && f < |Positions(goal)|
    ensures var svcs, pos := Snapshot(goal, Dscs(f, m)), Positions(goal)[f];
      && FindRange(svcs, At(goal, pos).decl.val) == Some(pos.i)
      && Find(Vals(svcs[pos.i].chrs), At(goal, pos).decl.val) == Some(pos.j)
      && svcs[pos.i].chrs[pos.j] == Chr(At(goal, pos).decl, At(goal, pos).dscs[..m])
  {
    hide Snapshot, Positions;
    var svcs, pos := Snapshot(goal, Dscs(f, m)), Positions(goal)[f];
    assert ChrWf(goal[pos.i], pos.j);
    OwnerOf(goal, Dscs(f, m), pos.i, At(goal, pos).decl.val);
    ValsAscend(goal[pos.i]);
    assert Vals(svcs[pos.i].chrs) == Vals(goal[pos.i].chrs);
    FindIsMembership(Vals(svcs[pos.i].chrs), At(goal, pos).decl.val);
    SameAt(goal, f, m, pos);
  }

  lemma {:induction false} NextDscLast(c: Chr, m: nat)
    requires Ascending(Handles(c.dscs)) && m < |c.dscs|
    ensures LeadingBelow(Handles(c.dscs[..m]), c.dscs[m].handle) == m
    ensures Find(Handles(c.dscs[..m]), c.dscs[m].handle).None?
    ensures LinkAfter(c.dscs[..m], m, c.dscs[m]) == c.dscs[..m + 1]
  {
  }

  lemma {:induction false} DscItemStep(goal: seq<Svc>, f: nat, m: nat, p: Peer, pools: Pools)
    requires DbWf(goal) && f < |Positions(goal)| && m < |At(goal, Positions(goal)[f]).dscs|
    requires p.svcs == Snapshot(goal, Dscs(f, m))
    ensures DscAdd(p, pools, At(goal, Positions(goal)[f]).decl.val, At(goal, Positions(goal)[f]).dscs[m])
         == if pools.dscs == 0 then Outcome(ENoMem, p, pools)
            else Outcome(Ok, p.(svcs := Snapshot(goal, Dscs(f, m + 1))), pools.(dscs := pools.dscs - 1))
  {
    hide Positions, LeadingBelow, LinkAfter;
    var pos := Positions(goal)[f];
    assert ChrWf(goal[pos.i], pos.j);
    DscLookup(goal, f, m);
    NextDscLast(At(goal, pos), m);
    DscLinked(goal, f, m, p.svcs);
  }

  lemma {:induction false} DscLinked(goal: seq<Svc>, f: nat, m: nat, svcs: seq<Svc>)
    requires f < |Positions(goal)| && m < |At(goal, Positions(goal)[f]).dscs|
    requires svcs == Snapshot(goal, Dscs(f, m))
    ensures var pos := Positions(goal)[f];
      var c := At(goal, pos);
      svcs[pos.i := svcs[pos.i].(chrs := svcs[pos.i].chrs[pos.j := Chr(c.decl, c.dscs[..m + 1])])]
      == Snapshot(goal, Dscs(f, m + 1))
  {
    var pos := Positions(goal)[f];
    var c := At(goal, pos);
    var chrs := svcs[pos.i].chrs[pos.j := Chr(c.decl, c.dscs[..m + 1])];
    forall i | 0 <= i < |goal|
      ensures KnownChrs(goal, Dscs(f, m + 1), i) == if i == pos.i then chrs else svcs[i].chrs
    {
    }
  }
}
