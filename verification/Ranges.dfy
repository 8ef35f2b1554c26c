/** The handle ranges discovery asks about, and the order of every tree it builds. */
module Ranges {
  import opened Gatt
  import opened Discovery
  import opened Remote
  import opened Snapshots
  import opened Runs
  import opened Exactness
  import opened PeerTable

  // ----- characteristics tile their service

  predicate Covers(s: Svc, j: nat, h: uint16)
    requires j < |s.chrs|
  {
    s.chrs[j].decl.def <= h <= ChrEnd(s, j)
  }

  /** Every handle from the first declaration to the end of the service belongs to exactly one
      characteristic, and no characteristic reaches outside. */
  lemma {:induction false} RangesTile(s: Svc, h: uint16)
    requires SvcWf(s) && s.chrs != []
    ensures s.chrs[0].decl.def <= h <= s.decl.end <==> exists j :: 0 <= j < |s.chrs| && Covers(s, j, h)
    ensures forall j, k :: 0 <= j < |s.chrs| && 0 <= k < |s.chrs| && Covers(s, j, h) && Covers(s, k, h) ==> j == k
  {
    assert ChrWf(s, 0);
    if s.chrs[0].decl.def <= h <= s.decl.end {
      var j := Cover(s, h, |s.chrs|);
      assert Covers(s, j, h);
    }
    forall j | 0 <= j < |s.chrs| && Covers(s, j, h) ensures s.chrs[0].decl.def <= h <= s.decl.end {
      assert ChrWf(s, j);
    }
  }

  /** The last of the first `n` characteristics declared at or before `h`. */
  lemma {:induction false} Cover(s: Svc, h: uint16, n: nat) returns (j: nat)
    requires SvcWf(s) && 0 < n <= |s.chrs|
    requires s.chrs[0].decl.def <= h <= ChrEnd(s, n - 1)
    ensures j < n && Covers(s, j, h)
  {
    if s.chrs[n - 1].decl.def <= h {
      return n - 1;
    }
    assert ChrWf(s, n - 1) && ChrWf(s, 0);
    j := Cover(s, h, n - 1);
  }

  /** The range lookup finds the one service a handle belongs to. */
  lemma {:induction false} OwnerIsUnique(svcs: seq<Svc>, h: uint16)
    requires DbWf(svcs)
    ensures forall i :: 0 <= i < |svcs| ==>
      (FindRange(svcs, h) == Some(i) <==> svcs[i].decl.start <= h <= svcs[i].decl.end)
  {
  }

  // ----- the descriptor procedures of a complete discovery

  predicate InService(goal: seq<Svc>, req: Request) {
    && req.DscsIn?
    && exists i :: 0 <= i < |goal| && goal[i].decl.start < req.val < req.end <= goal[i].decl.end
  }

  /** The intervals `(val, end]` asked about ascend, never overlap and never leave their service. */
  predicate Apart(goal: seq<Svc>, reqs: seq<Request>) {
    && (forall a :: 0 <= a < |reqs| ==> InService(goal, reqs[a]))
    && (forall a, b :: 0 <= a < b < |reqs| ==> reqs[a].end < reqs[b].val)
  }

  /** Everything asked about so far lies below `h`. */
  predicate Below(reqs: seq<Request>, h: uint16) {
    reqs != [] ==> reqs[|reqs| - 1].DscsIn? && reqs[|reqs| - 1].end < h
  }

  lemma {:induction false} RequestsApart(goal: seq<Svc>, n: nat)
    requires DbWf(goal) && n <= |Positions(goal)|
    ensures Apart(goal, RoomReqs(goal, n))
    ensures n < |Positions(goal)| ==> Below(RoomReqs(goal, n), At(goal, Positions(goal)[n]).decl.val)
  {
    hide DbWf, Positions, RoomAt, EndAt, InService, Apart, RoomReqs;
    if n == 0 {
      NothingAsked(goal);
    } else {
      var pos := Positions(goal)[n - 1];
      var before, reqs := RoomReqs(goal, n - 1), RoomReqs(goal, n);
      RequestsApart(goal, n - 1);
      RoomReqsStep(goal, n);
      PosInService(goal, pos);
      if n < |Positions(goal)| {
        NextAfter(goal, n - 1);
      }
      if RoomAt(goal, pos) {
        ApartExtend(goal, before, DscsIn(At(goal, pos).decl.val, EndAt(goal, pos)));
      }
    }
  }

  lemma {:induction false} NothingAsked(goal: seq<Svc>)
    ensures RoomReqs(goal, 0) == [] && Apart(goal, [])
  {
  }

  lemma {:induction false} RoomReqsStep(goal: seq<Svc>, n: nat)
    requires 0 < n <= |Positions(goal)|
    ensures var pos := Positions(goal)[n - 1];
      RoomReqs(goal, n) ==
      if RoomAt(goal, pos) then RoomReqs(goal, n - 1) + [DscsIn(At(goal, pos).decl.val, EndAt(goal, pos))]
      else RoomReqs(goal, n - 1)
  {
  }

  lemma {:induction false} PosInService(goal: seq<Svc>, pos: Pos)
    requires DbWf(goal) && InTree(goal, pos)
    ensures At(goal, pos).decl.val <= EndAt(goal, pos)
    ensures RoomAt(goal, pos) ==> InService(goal, DscsIn(At(goal, pos).decl.val, EndAt(goal, pos)))
  {
    assert ChrWf(goal[pos.i], pos.j);
  }

  lemma {:induction false} ApartExtend(goal: seq<Svc>, reqs: seq<Request>, req: Request)
    requires Apart(goal, reqs) && InService(goal, req) && Below(reqs, req.val)
    ensures Apart(goal, reqs + [req])
  {
  }

  lemma {:induction false} NextAfter(goal: seq<Svc>, k: nat)
    requires DbWf(goal) && k + 1 < |Positions(goal)|
    ensures var ps := Positions(goal); EndAt(goal, ps[k]) < At(goal, ps[k + 1]).decl.val
  {
    var ps := Positions(goal);
    PositionsSorted(goal, |goal|);
    assert Before(ps[k], ps[k + 1]);
    HandlesAscend(goal, ps[k], ps[k + 1]);
    assert ChrWf(goal[ps[k + 1].i], ps[k + 1].j);
  }

  /** Each characteristic with room for descriptors is asked about at exactly one place. */
  lemma {:induction false} EachAskedOnce(goal: seq<Svc>, pos: Pos) returns (a: nat)
    requires DbWf(goal) && InTree(goal, pos) && RoomAt(goal, pos)
    ensures var reqs := RoomReqs(goal, |Positions(goal)|);
      && a < |reqs| && reqs[a] == DscsIn(At(goal, pos).decl.val, EndAt(goal, pos))
      && forall b :: 0 <= b < |reqs| && reqs[b].DscsIn? && reqs[b].val == At(goal, pos).decl.val ==> b == a
  {
    var n := |Positions(goal)|;
    PositionsComplete(goal, |goal|, pos);
    var k :| 0 <= k < n && Positions(goal)[k] == pos;
    a := AskedAt(goal, n, k);
    RequestsApart(goal, n);
    var reqs := RoomReqs(goal, n);
    forall b | 0 <= b < |reqs| && reqs[b].val == reqs[a].val ensures b == a {
      assert InService(goal, reqs[a]) && InService(goal, reqs[b]);
    }
  }

  lemma {:induction false} AskedAt(goal: seq<Svc>, n: nat, k: nat) returns (a: nat)
    requires k < n <= |Positions(goal)| && RoomAt(goal, Positions(goal)[k])
    ensures var pos := Positions(goal)[k];
      a < |RoomReqs(goal, n)| && RoomReqs(goal, n)[a] == DscsIn(At(goal, pos).decl.val, EndAt(goal, pos))
  {
    if k == n - 1 {
      a := |RoomReqs(goal, n - 1)|;
    } else {
      a := AskedAt(goal, n - 1, k);
    }
  }

  // ----- every tree is in order

  lemma {:induction false} BareChrsWf(s: Svc, m: nat)
    requires SvcWf(s) && m <= |s.chrs|
    ensures SvcWf(Svc(s.decl, Bares(s.chrs[..m])))
  {
    var t := Svc(s.decl, Bares(s.chrs[..m]));
    forall j | 0 <= j < m ensures ChrWf(t, j) {
      assert ChrWf(s, j);
    }
    forall j, k | 0 <= j < k < m ensures ChrEnd(t, j) < t.chrs[k].decl.def {
      assert ChrEnd(s, j) < s.chrs[k].decl.def && ChrWf(s, k);
    }
  }

  lemma {:induction false} KnownChrsWf(goal: seq<Svc>, pr: Progress, i: nat)
    requires DbWf(goal) && InGoal(goal, pr) && i < |goal|
    ensures SvcWf(Svc(goal[i].decl, KnownChrs(goal, pr, i)))
  {
    hide DbWf, SvcWf, ChrWf;
    GoalSvcWf(goal, i);
    match pr
    case Svcs(_) =>
      BareChrsWf(goal[i], 0);
      assert Bares(goal[i].chrs[..0]) == [];
    case Chrs(i0, m) =>
      var n := if i < i0 then |goal[i].chrs| else if i == i0 then m else 0;
      assert KnownChrs(goal, pr, i) == Bares(goal[i].chrs[..n]);
      BareChrsWf(goal[i], n);
    case Dscs(f, m) => KnownDscsWf(goal, f, m, i);
  }

  lemma {:induction false} GoalSvcWf(goal: seq<Svc>, i: nat)
    requires DbWf(goal) && i < |goal|
    ensures SvcWf(goal[i])
  {
  }

  lemma {:induction false} KnownDscsWf(goal: seq<Svc>, f: nat, m: nat, i: nat)
    requires i < |goal| && SvcWf(goal[i]) && InGoal(goal, Dscs(f, m))
    ensures SvcWf(Svc(goal[i].decl, KnownChrs(goal, Dscs(f, m), i)))
  {
    var s := goal[i];
    var t := Svc(s.decl, KnownChrs(goal, Dscs(f, m), i));
    forall j | 0 <= j < |s.chrs|
      ensures ChrWf(t, j) && ChrEnd(t, j) == ChrEnd(s, j)
    {
      assert ChrWf(s, j);
      var known := KnownDscs(goal, f, m, Pos(i, j));
      assert known <= s.chrs[j].dscs;
    }
  }

  /** At every moment the services, their characteristics and their descriptors are in strictly
      ascending order, and each lies inside the range of what it belongs to. */
  lemma {:induction false} TreeInOrder(l: Link, p: Peer)
    requires Sound(l, p)
    ensures DbWf(p.svcs)
  {
    if p.trace != [] {
      var root := p.trace[0].req;
      var goal := Goal(l.db, root);
      GoalWf(l.db, root);
      var pr :| SoundAt(goal, root, p, l, pr);
      SnapshotWf(goal, pr);
    }
  }

  lemma {:induction false} SnapshotWf(goal: seq<Svc>, pr: Progress)
    requires DbWf(goal) && InGoal(goal, pr)
    ensures DbWf(Snapshot(goal, pr))
  {
    hide SvcWf;
    forall i | 0 <= i < |Snapshot(goal, pr)| ensures SvcWf(Snapshot(goal, pr)[i]) {
      KnownChrsWf(goal, pr, i);
    }
  }

  /** What every reachable state of every run guarantees of every link: the tree is in order, and
      once success is reported it is the part of the remote database that was asked for, obtained
      by exactly the planned procedures. */
  lemma {:induction false} EveryLink(caps: Caps, acts: seq<Action>, h: uint16)
    requires PeerTable.Legal(Empty(caps), acts) && h in ExecAll(Empty(caps), acts).links
    ensures var w := ExecAll(Empty(caps), acts);
      && Lookup(w.t, h).Some?
      && var p := Lookup(w.t, h).value;
      && DbWf(p.svcs)
      && (Succeeded(p.trace) ==>
            && p.trace[0].Started?
            && var root := p.trace[0].req;
            var goal := Goal(w.links[h].db, root);
            p.svcs == goal && Populated(goal) && p.trace == Granted(Plan(goal, root)) + [Reported(Ok)])
  {
    RunsKeepInv(caps, acts);
    var w := ExecAll(Empty(caps), acts);
    var l, p := w.links[h], Lookup(w.t, h).value;
    TreeInOrder(l, p);
    SuccessExact(l, p);
  }

  lemma {:induction false} SuccessExact(l: Link, p: Peer)
    requires Sound(l, p)
    ensures Succeeded(p.trace) ==>
      p.trace[0].Started? && Exact(Goal(l.db, p.trace[0].req), p.trace[0].req, p) && l.pending.None?
  {
  }

  /** In every run every item a truthful stack delivers finds its peer, and its service and
      characteristic there: the "this should not happen" branches are never taken. */
  lemma {:induction false} OwnersAlwaysFound(caps: Caps, acts: seq<Action>, h: uint16, e: Event, rc: Status)
    requires PeerTable.Legal(Empty(caps), acts)
    ensures var w := ExecAll(Empty(caps), acts);
      Enabled(w, Deliver(h, e, rc)) && e.status.Ok? ==>
        Lookup(w.t, h).Some? && OwnersFound(Lookup(w.t, h).value, w.links[h].pending.value)
  {
    hide Sound, Truthful;
    RunsKeepInv(caps, acts);
    var w := ExecAll(Empty(caps), acts);
    if Enabled(w, Deliver(h, e, rc)) && e.status.Ok? {
      LookupsSucceed(Lookup(w.t, h).value, w.links[h], e);
    }
  }
}
