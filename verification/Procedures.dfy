/** The procedures a peer asks for over whole runs, however they end: what its trace holds at every
    moment. */
module Procedures {
  import opened Gatt
  import opened Discovery
  import opened Remote
  import opened Snapshots
  import opened Runs
  import opened Selection
  import opened Exactness
  import opened PeerTable
  import opened Ranges

  /** The descriptor procedures of a trace, refused or not. */
  function DscReqs(trace: seq<Obs>): seq<Request> {
    if trace == [] then []
    else
      var last := trace[|trace| - 1];
      DscReqs(trace[..|trace| - 1]) + if last.Started? && last.req.DscsIn? then [last.req] else []
  }

  lemma {:induction false} DscReqsJoin(a: seq<Obs>, b: seq<Obs>)
    ensures DscReqs(a + b) == DscReqs(a) + DscReqs(b)
    decreases |b|
  {
    if b == [] {
      assert a + b == a;
    } else {
      assert (a + b)[..|a + b| - 1] == a + b[..|b| - 1];
      DscReqsJoin(a, b[..|b| - 1]);
    }
  }

  lemma {:induction false} DscReqsOne(o: Obs)
    ensures DscReqs([o]) == if o.Started? && o.req.DscsIn? then [o.req] else []
  {
  }

  // ----- the traces of the plan

  lemma {:induction false} GrantedJoin(a: seq<Request>, b: seq<Request>)
    ensures Granted(a + b) == Granted(a) + Granted(b)
  {
  }

  lemma {:induction false} NoDscs(reqs: seq<Request>)
    requires forall k :: 0 <= k < |reqs| ==> !reqs[k].DscsIn?
    ensures DscReqs(Granted(reqs)) == []
  {
    if reqs != [] {
      NoDscs(reqs[..|reqs| - 1]);
      assert Granted(reqs)[..|reqs| - 1] == Granted(reqs[..|reqs| - 1]);
    }
  }

  lemma {:induction false} OnlyDscs(reqs: seq<Request>)
    requires forall k :: 0 <= k < |reqs| ==> reqs[k].DscsIn?
    ensures DscReqs(Granted(reqs)) == reqs
  {
    if reqs != [] {
      var front := reqs[..|reqs| - 1];
      OnlyDscs(front);
      assert Granted(reqs)[..|reqs| - 1] == Granted(front);
      assert front + [reqs[|reqs| - 1]] == reqs;
    }
  }

  lemma {:induction false} SvcReqsAre(goal: seq<Svc>, n: nat)
    requires n <= |goal|
    ensures forall k :: 0 <= k < |SvcReqs(goal, n)| ==> SvcReqs(goal, n)[k].ChrsIn?
  {
    if n > 0 {
      SvcReqsAre(goal, n - 1);
    }
  }

  lemma {:induction false} RoomReqsAre(goal: seq<Svc>, n: nat)
    requires n <= |Positions(goal)|
    ensures forall k :: 0 <= k < |RoomReqs(goal, n)| ==> RoomReqs(goal, n)[k].DscsIn?
  {
    if n > 0 {
      RoomReqsAre(goal, n - 1);
    }
  }

  lemma {:induction false} RoomReqsGrow(goal: seq<Svc>, n: nat, m: nat)
    requires n <= m <= |Positions(goal)|
    ensures RoomReqs(goal, n) <= RoomReqs(goal, m)
    decreases m
  {
    if n < m {
      RoomReqsGrow(goal, n, m - 1);
    }
  }

  lemma {:induction false} PlanDscReqs(goal: seq<Svc>, root: Request, n: nat)
    requires n <= |Positions(goal)| && IsRoot(root)
    ensures DscReqs(Granted(DscPlan(goal, root, n))) == RoomReqs(goal, n)
    ensures RoomReqs(goal, n) <= RoomReqs(goal, |Positions(goal)|)
  {
    var head := ChrPlan(goal, root, |goal|);
    SvcReqsAre(goal, |goal|);
    RoomReqsAre(goal, n);
    NoDscs(head);
    OnlyDscs(RoomReqs(goal, n));
    GrantedJoin(head, RoomReqs(goal, n));
    DscReqsJoin(Granted(head), Granted(RoomReqs(goal, n)));
    RoomReqsGrow(goal, n, |Positions(goal)|);
  }

  // ----- the invariant

  /** The requests for descriptors are those of the plan, from the first on, and the outstanding one
      is the last of them and marked by the cursor; a finished trace is closed. */
  ghost predicate Asked(l: Link, p: Peer) {
    p.trace != [] && p.trace[0].Started? ==>
      && DscReqs(p.trace) <= AllReqs(l, p)
      && match l.pending
         case None => Closed(p.trace)
         case Some(req) => Flying(p, req) && Outstanding(p, req)
  }

  /** Every request for descriptors a discovery of what `p` is after can need. */
  function AllReqs(l: Link, p: Peer): seq<Request>
    requires p.trace != [] && p.trace[0].Started?
  {
    var goal := Goal(l.db, p.trace[0].req);
    RoomReqs(goal, |Positions(goal)|)
  }

  predicate Outstanding(p: Peer, req: Request) {
    var reqs := DscReqs(p.trace);
    if req.DscsIn? then reqs != [] && reqs[|reqs| - 1] == req && p.cursor == req.val else reqs == []
  }

  /** What a terminator that does not find a stalled discovery asks for next; the stack's answer has
      no say in it. */
  function NextReq(p: Peer, req: Request): Option<Request> {
    if req.DscsIn? then NextDscs(p)
    else match FirstOpen(p.svcs)
      case Some(i) => Some(ChrsIn(p.svcs[i].decl.start, p.svcs[i].decl.end))
      case None => NextDscs(p)
  }

  lemma {:induction false} DoneTrace(p: Peer, pools: Pools, req: Request, e: Event, rc: Status)
    requires Flying(p, req) && Deliverable(p, req, e) && e.status.EDone?
    ensures var o := Callback(p, pools, req, e, rc);
      var next := if Unmarked(req) then None else NextReq(p, req);
      && NextPending(p, req, e, o) == (if rc.Ok? then next else None)
      && o.peer.trace == match next
         case None => if Unmarked(req) then p.trace else p.trace + Report(p, Ok)
         case Some(r) => p.trace + [Started(r, rc)] + if rc.Ok? then [] else Report(p, rc)
    ensures var o := Callback(p, pools, req, e, rc);
      var next := if Unmarked(req) then None else NextReq(p, req);
      next.Some? && next.value.DscsIn? && rc.Ok? ==> o.peer.cursor == next.value.val
  {
    hide Scan, FirstOpen, Positions, AllAccepted;
  }

  /** An item or an error: the trace stays, or ends with a report of what the callback answers, which
      for an error is the stack's own status. */
  lemma {:induction false} OtherTrace(p: Peer, pools: Pools, req: Request, e: Event, rc: Status)
    requires Flying(p, req) && Deliverable(p, req, e) && !e.status.EDone?
    ensures var o := Callback(p, pools, req, e, rc);
      && (!e.status.Ok? ==> o.rc == e.status)
      && (if NextPending(p, req, e, o).Some? then
            NextPending(p, req, e, o) == Some(req) && o.peer.trace == p.trace && o.peer.cursor == p.cursor
          else o.peer.trace == p.trace + Report(p, o.rc))
  {
    hide SvcAdd, ChrAdd, DscAdd, AllAccepted;
    if e.status.Ok? {
      match e.item.value
      case SvcItem(g) => AddsKeep(p, pools, 0, 0, g, GattChr(0, 0, 0, g.uuid), GattDsc(0, g.uuid));
      case ChrItem(g) => AddsKeep(p, pools, p.cur.value, 0, GattSvc(0, 0, g.uuid), g, GattDsc(0, g.uuid));
      case DscItem(g) => AddsKeep(p, pools, 0, req.val, GattSvc(0, 0, g.uuid), GattChr(0, 0, 0, g.uuid), g);
    }
  }

  lemma {:induction false} ReportAsksNothing(p: Peer, trace: seq<Obs>, status: Status)
    ensures DscReqs(trace + Report(p, status)) == DscReqs(trace)
  {
    DscReqsJoin(trace, Report(p, status));
    DscReqsOne(Reported(status));
  }

  lemma {:induction false} AskedFacts(l: Link, p: Peer)
    requires Asked(l, p) && p.trace != [] && p.trace[0].Started? && l.pending.Some?
    ensures DscReqs(p.trace) <= AllReqs(l, p) && Flying(p, l.pending.value) && Outstanding(p, l.pending.value)
  {
  }

  lemma {:induction false} NextGranted(l: Link, p: Peer, pools: Pools, e: Event, r: Request)
    requires l.pending.Some? && e.status.EDone? && Deliverable(p, l.pending.value, e) && Flying(p, l.pending.value)
    requires !Unmarked(l.pending.value) && NextReq(p, l.pending.value) == Some(r)
    ensures var o := Callback(p, pools, l.pending.value, e, Ok);
      o.peer.trace == p.trace + [Started(r, Ok)] && NextLink(l, p, e, o) == Link(l.db, Some(r), 0)
  {
  }

  /** On a sound link the next request for descriptors is the next one of the plan. */
  lemma {:induction false} NextOfPlan(l: Link, p: Peer, pools: Pools, e: Event, r: Request)
    requires Sound(l, p) && l.pending.Some? && Truthful(l, e) && e.status.EDone? && Flying(p, l.pending.value)
    requires !Unmarked(l.pending.value) && NextReq(p, l.pending.value) == Some(r) && r.DscsIn?
    ensures p.trace != [] && p.trace[0].Started? && DscReqs(p.trace) + [r] <= AllReqs(l, p)
  {
    hide Sound, Truthful, Flying, Unmarked, NextReq, Callback, NextLink, DscReqs, RoomReqs, Goal, Positions;
    SoundStarted(l, p);
    CallbackSound(p, l, pools, e, Ok);
    NextGranted(l, p, pools, e, r);
    var o := Callback(p, pools, l.pending.value, e, Ok);
    var root := p.trace[0].req;
    assert o.peer.trace[0] == p.trace[0];
    var pr := InFlightDscs(Link(l.db, Some(r), 0), o.peer);
    PlanDscReqs(Goal(l.db, root), root, pr.f + 1);
    DscReqsJoin(p.trace, [Started(r, Ok)]);
    DscReqsOne(Started(r, Ok));
  }

  lemma {:induction false} InFlightDscs(l: Link, p: Peer) returns (pr: Progress)
    requires Sound(l, p) && l.pending.Some? && l.pending.value.DscsIn? && p.trace != []
    ensures p.trace[0].Started? && IsRoot(p.trace[0].req) && pr.Dscs?
    ensures var goal := Goal(l.db, p.trace[0].req);
      pr.f < |Positions(goal)| && p.trace == Granted(DscPlan(goal, p.trace[0].req, pr.f + 1))
  {
    var root := p.trace[0].req;
    pr :| SoundAt(Goal(l.db, root), root, p, l, pr);
  }

  /** The trace and the link after a terminator with next request `next`. */
  predicate Continued(p: Peer, q: Peer, pending: Option<Request>, next: Option<Request>, rc: Status) {
    && pending == (if rc.Ok? then next else None)
    && match next
       case None => q.trace == p.trace || q.trace == p.trace + Report(p, Ok)
       case Some(r) =>
         && q.trace == p.trace + [Started(r, rc)] + (if rc.Ok? then [] else Report(p, rc))
         && (r.DscsIn? && rc.Ok? ==> q.cursor == r.val)
  }

  lemma {:induction false} ContinuedReqs(p: Peer, q: Peer, pending: Option<Request>, next: Option<Request>, rc: Status)
    requires Continued(p, q, pending, next, rc) && p.trace != []
    ensures q.trace != [] && q.trace[0] == p.trace[0]
    ensures DscReqs(q.trace) ==
      DscReqs(p.trace) + if next.Some? && next.value.DscsIn? then [next.value] else []
  {
    hide DscReqs;
    match next
    case None => ReportAsksNothing(p, p.trace, Ok);
    case Some(r) =>
      ReportAsksNothing(p, p.trace + [Started(r, rc)], rc);
      assert p.trace + [Started(r, rc)] + [] == p.trace + [Started(r, rc)];
      DscReqsJoin(p.trace, [Started(r, rc)]);
      DscReqsOne(Started(r, rc));
  }

  lemma {:induction false} DoneContinued(p: Peer, pools: Pools, req: Request, e: Event, rc: Status)
    requires Flying(p, req) && Deliverable(p, req, e) && e.status.EDone?
    ensures var o := Callback(p, pools, req, e, rc);
      Continued(p, o.peer, NextPending(p, req, e, o), if Unmarked(req) then None else NextReq(p, req), rc)
  {
    hide Flying, Callback, NextReq, Unmarked, NextPending;
    DoneTrace(p, pools, req, e, rc);
  }

  lemma {:induction false} AskedDone(l: Link, p: Peer, pools: Pools, e: Event, rc: Status)
    requires Sound(l, p) && l.pending.Some? && Truthful(l, e) && e.status.EDone? && Asked(l, p)
    requires p.trace != [] && p.trace[0].Started? && Deliverable(p, l.pending.value, e)
    ensures var o := Callback(p, pools, l.pending.value, e, rc); Asked(NextLink(l, p, e, o), o.peer)
  {
    hide Sound, Truthful, Closed, Flying, Callback, NextReq, AllReqs, Unmarked, DscReqs, NextPending;
    var req := l.pending.value;
    var o := Callback(p, pools, req, e, rc);
    var next := if Unmarked(req) then None else NextReq(p, req);
    AskedFacts(l, p);
    LandsFlying(p, pools, req, e, rc);
    DoneContinued(p, pools, req, e, rc);
    ContinuedReqs(p, o.peer, NextPending(p, req, e, o), next, rc);
    SameGoal(l, NextLink(l, p, e, o), p, o.peer);
    if next.Some? && next.value.DscsIn? {
      NextOfPlan(l, p, pools, e, next.value);
    } else if next.Some? {
      NotInDscs(p, req, next.value);
    }
  }

  lemma {:induction false} NotInDscs(p: Peer, req: Request, r: Request)
    requires NextReq(p, req) == Some(r) && !r.DscsIn?
    ensures !req.DscsIn?
  {
  }

  lemma {:induction false} SameGoal(l: Link, l': Link, p: Peer, q: Peer)
    requires p.trace != [] && p.trace[0].Started? && q.trace != [] && q.trace[0] == p.trace[0] && l'.db == l.db
    ensures AllReqs(l, p) == AllReqs(l', q)
  {
  }

  /** What `Landed` says of the two possible continuations. */
  lemma {:induction false} LandsFlying(p: Peer, pools: Pools, req: Request, e: Event, rc: Status)
    requires Flying(p, req) && Deliverable(p, req, e)
    ensures var o := Callback(p, pools, req, e, rc);
      match NextPending(p, req, e, o)
      case None => Closed(o.peer.trace)
      case Some(r) => Flying(o.peer, r)
  {
    hide Flying, Closed, ReportedOnce, Callback, NextPending, Stalls, RefusesDscs;
    CallbackLands(p, pools, req, e, rc);
  }

  lemma {:induction false} AskedOther(l: Link, p: Peer, pools: Pools, e: Event, rc: Status)
    requires l.pending.Some? && !e.status.EDone? && Asked(l, p)
    requires p.trace != [] && p.trace[0].Started? && Deliverable(p, l.pending.value, e)
    ensures var o := Callback(p, pools, l.pending.value, e, rc); Asked(NextLink(l, p, e, o), o.peer)
  {
    hide Closed, Flying, Callback, AllReqs;
    var req := l.pending.value;
    var o := Callback(p, pools, req, e, rc);
    LandsFlying(p, pools, req, e, rc);
    OtherTrace(p, pools, req, e, rc);
    if NextPending(p, req, e, o).None? {
      ReportAsksNothing(p, p.trace, o.rc);
    }
    assert o.peer.trace[0] == p.trace[0];
    SameGoal(l, NextLink(l, p, e, o), p, o.peer);
  }

  lemma {:induction false} AskedStep(l: Link, p: Peer, pools: Pools, e: Event, rc: Status)
    requires Sound(l, p) && l.pending.Some? && Truthful(l, e) && Asked(l, p) && Deliverable(p, l.pending.value, e)
    ensures var o := Callback(p, pools, l.pending.value, e, rc); Asked(NextLink(l, p, e, o), o.peer)
  {
    hide Asked, Truthful, Callback, NextLink;
    SoundStarted(l, p);
    if e.status.EDone? {
      AskedDone(l, p, pools, e, rc);
    } else {
      AskedOther(l, p, pools, e, rc);
    }
  }

  lemma {:induction false} SoundStarted(l: Link, p: Peer)
    requires Sound(l, p) && l.pending.Some?
    ensures p.trace != [] && p.trace[0].Started?
  {
  }

  // ----- whole runs

  ghost predicate AllAsked(w: World) {
    forall h :: h in w.links ==> Lookup(w.t, h).Some? && Asked(w.links[h], Lookup(w.t, h).value)
  }

  lemma {:induction false} NewAsked(db: seq<Svc>, h: uint16)
    ensures Asked(Link(db, None, 0), FreshPeer(h))
  {
  }

  lemma {:induction false} BegunAsked(p: Peer, pools: Pools, db: seq<Svc>, root: Request, cb: bool, rc: Status)
    requires IsRoot(root)
    ensures Asked(Link(db, if rc.Ok? then Some(root) else None, 0), Discover(p, pools, root, cb, rc).peer)
  {
    var trace := [Started(root, rc)];
    DscReqsOne(Started(root, rc));
    assert trace[..0] == [] && AllAccepted([]);
  }

  /** The link an action is about, and its peer, afterwards. */
  lemma {:induction false} OwnAsked(w: World, caps: Caps, a: Action)
    requires Inv(w, caps) && AllAsked(w) && Enabled(w, a) && a.h in Exec(w, a).links
    ensures Lookup(Exec(w, a).t, a.h).Some? && Asked(Exec(w, a).links[a.h], Lookup(Exec(w, a).t, a.h).value)
  {
    hide Sound, Truthful, Callback, NextLink, Released, Asked, Total, Deliverable;
    match a
    case Add(h, db) =>
      LookupAfterAdd(w.t, h, h);
      NewAsked(db, h);
    case Delete(h) =>
    case Begin(h, root, cb, rc) =>
      var i := IndexOfPeer(w.t.peers, h).value;
      var o := Discover(w.t.peers[i], w.t.pools, root, cb, rc);
      LookupAfterUpdate(w.t, i, o.peer, h, o.pools);
      BegunAsked(w.t.peers[i], w.t.pools, w.links[h].db, root, cb, rc);
    case Deliver(h, e, rc) =>
      var i := Delivered(w, caps, h, e, rc);
      AskedStep(w.links[h], w.t.peers[i], w.t.pools, e, rc);
  }

  lemma {:induction false} ActionAsked(w: World, caps: Caps, a: Action)
    requires Inv(w, caps) && AllAsked(w) && Enabled(w, a)
    ensures AllAsked(Exec(w, a))
  {
    hide Inv, Asked, Lookup, Enabled;
    var w' := Exec(w, a);
    assert Unique(w.t.peers) by { InvFacts(w, caps); }
    forall h | h in w'.links ensures Lookup(w'.t, h).Some? && Asked(w'.links[h], Lookup(w'.t, h).value) {
      if h == a.h {
        OwnAsked(w, caps, a);
      } else {
        OthersUntouched(w, a, h);
        LinkUntouched(w, a, h);
      }
    }
  }

  lemma {:induction false} LinkUntouched(w: World, a: Action, h: uint16)
    requires h != a.h && h in Exec(w, a).links
    ensures h in w.links && Exec(w, a).links[h] == w.links[h]
  {
  }

  lemma {:induction false} RunAsked(w: World, caps: Caps, acts: seq<Action>)
    requires Inv(w, caps) && AllAsked(w) && PeerTable.Legal(w, acts)
    ensures AllAsked(ExecAll(w, acts))
    decreases |acts|
  {
    hide Inv, AllAsked, Exec, Enabled;
    if acts != [] {
      InvStep(w, caps, acts[0]);
      ActionAsked(w, caps, acts[0]);
      RunAsked(Exec(w, acts[0]), caps, acts[1..]);
    }
  }

  lemma {:induction false} EveryRunAsked(caps: Caps, acts: seq<Action>)
    requires PeerTable.Legal(Empty(caps), acts)
    ensures Inv(ExecAll(Empty(caps), acts), caps) && AllAsked(ExecAll(Empty(caps), acts))
  {
    RunsKeepInv(caps, acts);
    RunAsked(Empty(caps), caps, acts);
  }

  lemma {:induction false} PrefixApart(goal: seq<Svc>, reqs: seq<Request>, all: seq<Request>)
    requires Apart(goal, all) && reqs <= all
    ensures Apart(goal, reqs)
  {
  }

  /** What the trace of a peer says of its requests for descriptors: the intervals ascend, never
      overlap and never leave their service, so that no characteristic is asked about twice; they
      are the first ones of those a complete discovery makes; and while one is outstanding it is the
      last one and the cursor holds its value handle. */
  ghost predicate AsksInOrder(l: Link, p: Peer) {
    p.trace != [] ==>
      && p.trace[0].Started?
      && var goal, reqs := Goal(l.db, p.trace[0].req), DscReqs(p.trace);
      && Apart(goal, reqs) && reqs <= RoomReqs(goal, |Positions(goal)|)
      && (l.pending.Some? && l.pending.value.DscsIn? ==>
            reqs != [] && l.pending.value == reqs[|reqs| - 1] && p.cursor == l.pending.value.val)
  }

  lemma {:induction false} InOrderOf(l: Link, p: Peer)
    requires Sound(l, p) && Asked(l, p)
    ensures AsksInOrder(l, p) && (p.trace != [] && l.pending.None? ==> Closed(p.trace))
  {
    hide Flying, Closed, DbWf, Snapshot, Positions, SoundAt;
    if p.trace != [] {
      var goal := Goal(l.db, p.trace[0].req);
      GoalWf(l.db, p.trace[0].req);
      RequestsApart(goal, |Positions(goal)|);
      PrefixApart(goal, DscReqs(p.trace), RoomReqs(goal, |Positions(goal)|));
    }
  }

  /** Over every run, on every link and at every moment, whatever was refused, failed or ran out: the
      requests for descriptors are in order, and a discovery that is over left accepted starts, at
      most one refused start, and the report. */
  lemma {:induction false} EveryTrace(caps: Caps, acts: seq<Action>, h: uint16)
    requires PeerTable.Legal(Empty(caps), acts) && h in ExecAll(Empty(caps), acts).links
    ensures var w := ExecAll(Empty(caps), acts);
      && Lookup(w.t, h).Some? && AsksInOrder(w.links[h], Lookup(w.t, h).value)
      && (w.links[h].pending.None? && Lookup(w.t, h).value.trace != [] ==> Closed(Lookup(w.t, h).value.trace))
  {
    hide Sound, Asked, AsksInOrder, Closed;
    EveryRunAsked(caps, acts);
    var w := ExecAll(Empty(caps), acts);
    InOrderOf(w.links[h], Lookup(w.t, h).value);
  }

  /** No characteristic is asked about twice. */
  lemma {:induction false} NeverAskedTwice(caps: Caps, acts: seq<Action>, h: uint16, a: nat, b: nat)
    requires PeerTable.Legal(Empty(caps), acts) && h in ExecAll(Empty(caps), acts).links
    ensures var w := ExecAll(Empty(caps), acts);
      && Lookup(w.t, h).Some?
      && var reqs := DscReqs(Lookup(w.t, h).value.trace);
      a < |reqs| && b < |reqs| ==> reqs[a].DscsIn? && reqs[b].DscsIn? && (reqs[a].val == reqs[b].val ==> a == b)
  {
    hide ExecAll, Lookup;
    EveryTrace(caps, acts, h);
    var p := Lookup(ExecAll(Empty(caps), acts).t, h).value;
    if p.trace != [] {
      ApartOnce(Goal(ExecAll(Empty(caps), acts).links[h].db, p.trace[0].req), DscReqs(p.trace), a, b);
    }
  }

  lemma {:induction false} ApartOnce(goal: seq<Svc>, reqs: seq<Request>, a: nat, b: nat)
    requires Apart(goal, reqs)
    ensures a < |reqs| && b < |reqs| ==> reqs[a].DscsIn? && reqs[b].DscsIn? && (reqs[a].val == reqs[b].val ==> a == b)
  {
  }

  /** A discovery that reported success has asked about every characteristic with room. */
  lemma {:induction false} EachAskedOnSuccess(caps: Caps, acts: seq<Action>, h: uint16, pos: Pos) returns (a: nat)
    requires PeerTable.Legal(Empty(caps), acts) && h in ExecAll(Empty(caps), acts).links
    requires var w := ExecAll(Empty(caps), acts);
      && Lookup(w.t, h).Some? && Succeeded(Lookup(w.t, h).value.trace)
      && InTree(Lookup(w.t, h).value.svcs, pos) && RoomAt(Lookup(w.t, h).value.svcs, pos)
    ensures var p := Lookup(ExecAll(Empty(caps), acts).t, h).value;
      a < |DscReqs(p.trace)| && DscReqs(p.trace)[a] == DscsIn(At(p.svcs, pos).decl.val, EndAt(p.svcs, pos))
  {
    hide ExecAll, Lookup, Plan, DbWf;
    EveryLink(caps, acts, h);
    RunsKeepInv(caps, acts);
    var w := ExecAll(Empty(caps), acts);
    var p := Lookup(w.t, h).value;
    SuccessDscReqs(w.links[h], p);
    a := EachAskedOnce(p.svcs, pos);
  }

  lemma {:induction false} SuccessDscReqs(l: Link, p: Peer)
    requires Sound(l, p) && Succeeded(p.trace)
    ensures DscReqs(p.trace) == RoomReqs(p.svcs, |Positions(p.svcs)|)
  {
    hide Positions, Snapshot;
    SuccessExact(l, p);
    var root := p.trace[0].req;
    PlanDscReqs(p.svcs, root, |Positions(p.svcs)|);
    DscReqsJoin(Granted(Plan(p.svcs, root)), [Reported(Ok)]);
    DscReqsOne(Reported(Ok));
  }

  /** From one descriptor procedure to the next the cursor rises. */
  lemma {:induction false} CursorRises(caps: Caps, acts: seq<Action>, h: uint16, e: Event, rc: Status)
    requires PeerTable.Legal(Empty(caps), acts)
    requires Enabled(ExecAll(Empty(caps), acts), Deliver(h, e, rc)) && e.status.EDone?
    ensures var w := ExecAll(Empty(caps), acts);
      var w' := Exec(w, Deliver(h, e, rc));
      && h in w'.links && Lookup(w.t, h).Some? && Lookup(w'.t, h).Some?
      && (w.links[h].pending.value.DscsIn? && w'.links[h].pending.Some? ==>
            Lookup(w.t, h).value.cursor < Lookup(w'.t, h).value.cursor)
  {
    hide Sound, Truthful, Callback, NextPending, Inv, Lookup, Exec, PeerCallback;
    EveryRunAsked(caps, acts);
    var w := ExecAll(Empty(caps), acts);
    var i := Delivered(w, caps, h, e, rc);
    if w.links[h].pending.value.DscsIn? {
      CursorRisesOn(w.links[h], w.t.peers[i], w.t.pools, e, rc);
    }
  }

  lemma {:induction false} CursorRisesOn(l: Link, p: Peer, pools: Pools, e: Event, rc: Status)
    requires Sound(l, p) && l.pending.Some? && Truthful(l, e) && Asked(l, p) && Deliverable(p, l.pending.value, e)
    requires l.pending.value.DscsIn? && e.status.EDone?
    ensures var o := Callback(p, pools, l.pending.value, e, rc);
      NextPending(p, l.pending.value, e, o).Some? ==> p.cursor < o.peer.cursor
  {
    hide Sound, Truthful, Closed, Flying, Callback, AllReqs, Apart, NextReq, Asked, DscReqs, NextPending;
    var req := l.pending.value;
    var o := Callback(p, pools, req, e, rc);
    SoundStarted(l, p);
    AskedFacts(l, p);
    DoneTrace(p, pools, req, e, rc);
    if NextPending(p, req, e, o).Some? {
      var r := NextPending(p, req, e, o).value;
      OnlyDscsFollow(p, req, r);
      NextOfPlan(l, p, pools, e, r);
      RisesInPlan(l, p, r);
    }
  }

  lemma {:induction false} OnlyDscsFollow(p: Peer, req: Request, r: Request)
    requires req.DscsIn? && NextReq(p, req) == Some(r)
    ensures r.DscsIn?
  {
  }

  lemma {:induction false} RisesInPlan(l: Link, p: Peer, r: Request)
    requires Sound(l, p) && p.trace != [] && p.trace[0].Started? && r.DscsIn?
    requires DscReqs(p.trace) + [r] <= AllReqs(l, p)
    ensures var reqs := DscReqs(p.trace); reqs != [] && reqs[|reqs| - 1].DscsIn? ==> reqs[|reqs| - 1].val < r.val
  {
    hide DbWf, Positions, SoundAt;
    var goal := Goal(l.db, p.trace[0].req);
    GoalWf(l.db, p.trace[0].req);
    RequestsApart(goal, |Positions(goal)|);
    PrefixApart(goal, DscReqs(p.trace) + [r], AllReqs(l, p));
    var reqs := DscReqs(p.trace) + [r];
    if |reqs| > 1 {
      assert InService(goal, reqs[|reqs| - 2]) && reqs[|reqs| - 2].end < reqs[|reqs| - 1].val;
    }
  }
}
