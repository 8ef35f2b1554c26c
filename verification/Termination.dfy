/** How long a discovery can take, and how it ends when the pools are too small. */
module Termination {
  import opened Gatt
  import opened Discovery
  import opened Remote
  import opened Snapshots
  import opened Runs
  import opened Exactness
  import opened Completion
  import opened Procedures

  // ----- the number of callbacks left

  function LeftDscs(goal: seq<Svc>, f: nat): nat
    requires f <= |Positions(goal)|
    decreases |Positions(goal)| - f
  {
    if f == |Positions(goal)| then 0 else |At(goal, Positions(goal)[f]).dscs| + 1 + LeftDscs(goal, f + 1)
  }

  function LeftChrs(goal: seq<Svc>, i: nat): nat
    requires i <= |goal|
    decreases |goal| - i
  {
    if i == |goal| then LeftDscs(goal, 0) else |goal[i].chrs| + 1 + LeftChrs(goal, i + 1)
  }

  function Left(goal: seq<Svc>, pr: Progress): int
    requires InGoal(goal, pr)
  {
    match pr
    case Svcs(k) => |goal| - k + 1 + LeftChrs(goal, 0)
    case Chrs(i, m) => LeftChrs(goal, i) - m
    case Dscs(f, m) => LeftDscs(goal, f) - m
  }

  /** One callback per item of the goal and one per procedure: all services, the characteristics of
      each service, the descriptors of each characteristic. */
  function Callbacks(goal: seq<Svc>): nat {
    |goal| + 1 + LeftChrs(goal, 0)
  }

  lemma {:induction false} LeftDscsFalls(goal: seq<Svc>, f: nat, g: nat)
    requires f <= g <= |Positions(goal)|
    ensures LeftDscs(goal, g) <= LeftDscs(goal, f)
    ensures f < g ==> LeftDscs(goal, g) + |At(goal, Positions(goal)[f]).dscs| < LeftDscs(goal, f)
    decreases g - f
  {
    if f < g {
      LeftDscsFalls(goal, f + 1, g);
    }
  }

  lemma {:induction false} LeftChrsFalls(goal: seq<Svc>, i: nat, j: nat)
    requires i <= j <= |goal|
    ensures LeftChrs(goal, j) <= LeftChrs(goal, i) && LeftDscs(goal, 0) <= LeftChrs(goal, j)
    ensures i < j ==> LeftChrs(goal, j) + |goal[i].chrs| < LeftChrs(goal, i)
    decreases |goal| - i
  {
    if i < j {
      LeftChrsFalls(goal, i + 1, j);
    } else if j < |goal| {
      LeftChrsFalls(goal, j + 1, |goal|);
    }
  }

  lemma {:induction false} LeftFalls(goal: seq<Svc>, a: Progress, b: Progress)
    requires InGoal(goal, a) && InGoal(goal, b) && Later(a, b) && (a.Chrs? ==> a.i < |goal|)
    ensures Left(goal, b) < Left(goal, a)
  {
    match b
    case Svcs(_) =>
    case Chrs(j, _) => LeftChrsFalls(goal, if a.Chrs? then a.i else 0, j);
    case Dscs(g, _) =>
      LeftDscsFalls(goal, if a.Dscs? then a.f else 0, g);
      if a.Chrs? {
        LeftChrsFalls(goal, a.i, |goal|);
      } else if a.Svcs? {
        LeftChrsFalls(goal, 0, |goal|);
      }
  }

  lemma {:induction false} SomethingLeft(goal: seq<Svc>, root: Request, p: Peer, l: Link, pr: Progress)
    requires InGoal(goal, pr) && l.pending.Some? && InFlight(goal, root, p, l, pr)
    ensures Left(goal, pr) >= 1 && (pr.Chrs? ==> pr.i < |goal|)
  {
  }

  // ----- every truthful stack comes to an end

  /** The peer and its link after a sequence of truthful deliveries, with any answers of the stack and
      any number of free blocks; `None` if the stack may not make them. */
  function Follow(p: Peer, l: Link, ins: seq<Input>): Option<(Peer, Link)> {
    if ins == [] then Some((p, l))
    else
      var last := ins[|ins| - 1];
      match Follow(p, l, ins[..|ins| - 1])
      case None => None
      case Some((q, k)) =>
        if k.pending.Some? && Truthful(k, last.e) && Deliverable(q, k.pending.value, last.e) then
          var o := Callback(q, last.pools, k.pending.value, last.e, last.rc);
          Some((o.peer, NextLink(k, q, last.e, o)))
        else None
  }

  /** One delivery on a populated goal: there is less to come, or nothing. */
  lemma {:induction false} DeliveryProgress(root: Request, p: Peer, l: Link, pools: Pools, e: Event, rc: Status,
                                            pr: Progress)
    returns (pr': Progress)
    requires DbWf(l.db) && IsRoot(root) && l.pending.Some? && Populated(Goal(l.db, root))
    requires SoundAt(Goal(l.db, root), root, p, l, pr) && Truthful(l, e) && Deliverable(p, l.pending.value, e)
    ensures var o := Callback(p, pools, l.pending.value, e, rc);
      && SoundAt(Goal(l.db, root), root, o.peer, NextLink(l, p, e, o), pr')
      && InGoal(Goal(l.db, root), pr) && InGoal(Goal(l.db, root), pr')
      && Left(Goal(l.db, root), pr) >= 1
      && (NextPending(p, l.pending.value, e, o).Some? ==>
            Left(Goal(l.db, root), pr') < Left(Goal(l.db, root), pr))
  {
    hide DbWf, Goal, Callback, Truthful, Populated, Left, Snapshot, Positions, Exact, DscPlan, ChrPlan;
    var goal := Goal(l.db, root);
    SomethingLeft(goal, root, p, l, pr);
    if e.status.Ok? {
      pr' := ItemSound(root, p, l, pools, e, rc, pr);
      if Callback(p, pools, l.pending.value, e, rc).rc.Ok? {
        LeftFalls(goal, pr, pr');
      }
    } else if e.status.EDone? {
      pr' := DoneSound(root, p, l, pools, e, rc, pr);
      LeftFalls(goal, pr, pr');
    } else {
      ErrorSound(goal, root, p, l, pools, e, rc, pr);
      pr' := pr;
      ErrorEnds(p, pools, l.pending.value, e, rc);
    }
  }

  lemma {:induction false} ErrorEnds(p: Peer, pools: Pools, req: Request, e: Event, rc: Status)
    requires !e.status.Ok? && !e.status.EDone?
    ensures NextPending(p, req, e, Callback(p, pools, req, e, rc)).None?
  {
  }

  lemma {:induction false} FollowProgress(p: Peer, l: Link, root: Request, ins: seq<Input>, pr0: Progress)
    returns (pr: Progress)
    requires DbWf(l.db) && IsRoot(root) && l.pending.Some? && Populated(Goal(l.db, root))
    requires SoundAt(Goal(l.db, root), root, p, l, pr0) && Follow(p, l, ins).Some?
    ensures var (q, k) := Follow(p, l, ins).value;
      && k.db == l.db && SoundAt(Goal(l.db, root), root, q, k, pr)
      && InGoal(Goal(l.db, root), pr0) && InGoal(Goal(l.db, root), pr)
      && |ins| <= Left(Goal(l.db, root), pr0)
      && (k.pending.Some? ==> |ins| + Left(Goal(l.db, root), pr) <= Left(Goal(l.db, root), pr0))
    decreases |ins|
  {
    hide DbWf, Goal, Callback, Truthful, Populated, Left, SoundAt, InGoal;
    AtGoal(Goal(l.db, root), root, p, l, pr0);
    if ins == [] {
      pr := pr0;
    } else {
      var front, last := ins[..|ins| - 1], ins[|ins| - 1];
      var mid := FollowProgress(p, l, root, front, pr0);
      var (q, k) := Follow(p, l, front).value;
      pr := DeliveryProgress(root, q, k, last.pools, last.e, last.rc, mid);
    }
  }

  lemma {:induction false} AtGoal(goal: seq<Svc>, root: Request, p: Peer, l: Link, pr: Progress)
    requires SoundAt(goal, root, p, l, pr) && l.pending.Some?
    ensures InGoal(goal, pr) && Left(goal, pr) >= 1
  {
  }

  /** If every service that can hold a characteristic holds one, an accepted discovery takes at most
      one callback per item and procedure, whatever the stack refuses and wherever it fails, and
      however few blocks are free at each callback. */
  lemma {:induction false} DeliveriesBounded(p: Peer, pools: Pools, db: seq<Svc>, root: Request, cb: bool,
                                             ins: seq<Input>)
    requires DbWf(db) && IsRoot(root) && Populated(Goal(db, root))
    requires Follow(Discover(p, pools, root, cb, Ok).peer, Link(db, Some(root), 0), ins).Some?
    ensures |ins| <= Callbacks(Goal(db, root))
  {
    hide DbWf, Goal, Populated, Follow;
    var q, l := Discover(p, pools, root, cb, Ok).peer, Link(db, Some(root), 0);
    BegunAt(p, pools, db, root, cb);
    var _ := FollowProgress(q, l, root, ins, Svcs(0));
  }

  lemma {:induction false} BegunAt(p: Peer, pools: Pools, db: seq<Svc>, root: Request, cb: bool)
    ensures SoundAt(Goal(db, root), root, Discover(p, pools, root, cb, Ok).peer, Link(db, Some(root), 0), Svcs(0))
  {
  }

  // ----- pools that are too small

  /** A discovery that is over was reported a success or a lack of memory. */
  predicate EndedWell(s: Sys) {
    s.l.pending.None? ==>
      |s.p.trace| > 0 && s.p.trace[|s.p.trace| - 1] in {Reported(Ok), Reported(ENoMem)}
  }

  lemma {:induction false} ItemOutcome(root: Request, p: Peer, l: Link, pools: Pools, e: Event, pr: Progress)
    requires DbWf(l.db) && IsRoot(root) && l.pending.Some? && SoundAt(Goal(l.db, root), root, p, l, pr)
    requires Truthful(l, e) && e.status.Ok? && Deliverable(p, l.pending.value, e)
    ensures var o := Callback(p, pools, l.pending.value, e, Ok);
      o.rc.Ok? || (o.rc.ENoMem? && (p.cb ==> o.peer.trace == p.trace + [Reported(ENoMem)]))
  {
    hide Goal, DbWf, Positions, DscPlan, ChrPlan, Exact, Snapshot, SvcAdd, ChrAdd, DscAdd;
    var goal := Goal(l.db, root);
    GoalWf(l.db, root);
    AnswerAt(l.db, root, p, l, pr);
    match pr
    case Svcs(k) => SvcItemStep(goal, k, p, pools);
    case Chrs(i, m) => ChrItemStep(goal, i, m, p, pools);
    case Dscs(f, m) => DscItemStep(goal, f, m, p, pools);
  }

  lemma {:induction false} NextEnds(root: Request, s: Sys, pr: Progress) returns (pr': Progress)
    requires DbWf(s.l.db) && IsRoot(root) && s.l.pending.Some? && Populated(Goal(s.l.db, root)) && s.p.cb
    requires SoundAt(Goal(s.l.db, root), root, s.p, s.l, pr)
    ensures Next(s).l.db == s.l.db && Next(s).p.cb && EndedWell(Next(s))
    ensures SoundAt(Goal(s.l.db, root), root, Next(s).p, Next(s).l, pr')
    ensures InGoal(Goal(s.l.db, root), pr) && InGoal(Goal(s.l.db, root), pr') && Left(Goal(s.l.db, root), pr) >= 1
    ensures Next(s).l.pending.Some? ==> Left(Goal(s.l.db, root), pr') < Left(Goal(s.l.db, root), pr)
  {
    hide DbWf, Goal, Populated, Left, SoundAt, InGoal, Callback, Truthful, Sound, Answer;
    assert Sound(s.l, s.p) by { SoundFrom(root, s.l, s.p, pr); }
    SoundSent(s.l, s.p);
    var e, req := NextEvent(s.l), s.l.pending.value;
    CallbackKeeps(s.p, s.pools, req, e, Ok);
    pr' := DeliveryProgress(root, s.p, s.l, s.pools, e, Ok, pr);
    if e.status.Ok? {
      ItemOutcome(root, s.p, s.l, s.pools, e, pr);
    } else {
      CursorSet(root, s.p, s.l, pr);
      DoneSucceeds(s.p, s.pools, req, e);
    }
  }

  lemma {:induction false} SoundFrom(root: Request, l: Link, p: Peer, pr: Progress)
    requires DbWf(l.db) && IsRoot(root) && l.pending.Some? && SoundAt(Goal(l.db, root), root, p, l, pr)
    ensures Sound(l, p)
  {
  }

  lemma {:induction false} CursorSet(root: Request, p: Peer, l: Link, pr: Progress)
    requires DbWf(l.db) && l.pending.Some? && SoundAt(Goal(l.db, root), root, p, l, pr)
    ensures p.cursor > 0
  {
    GoalWf(l.db, root);
    CursorPositive(Goal(l.db, root), root, p, l, pr);
  }

  lemma {:induction false} RunsOut(root: Request, s: Sys, pr: Progress, left: nat) returns (n: nat)
    requires DbWf(s.l.db) && IsRoot(root) && Populated(Goal(s.l.db, root)) && s.p.cb && EndedWell(s)
    requires SoundAt(Goal(s.l.db, root), root, s.p, s.l, pr) && InGoal(Goal(s.l.db, root), pr)
    requires s.l.pending.Some? ==> left >= Left(Goal(s.l.db, root), pr)
    ensures Steps(s, n).l.pending.None? && EndedWell(Steps(s, n))
    decreases left
  {
    hide DbWf, Goal, Populated, Left, SoundAt, InGoal, Next, EndedWell;
    if s.l.pending.None? {
      n := 0;
    } else {
      var pr' := NextEnds(root, s, pr);
      var rest := RunsOut(root, Next(s), pr', left - 1);
      n := rest + 1;
    }
  }

  /** If the pools do not have a block for every node, a stack that delivers everything sees the
      discovery end with a report that memory ran out. */
  lemma {:induction false} EndsWithoutRoom(p: Peer, pools: Pools, db: seq<Svc>, root: Request) returns (n: nat)
    requires DbWf(db) && IsRoot(root) && Populated(Goal(db, root))
    requires !Roomy(Goal(db, root), Released(pools, p.svcs), [])
    ensures var s := Steps(Completion.Begin(p, pools, db, root), n);
      s.l.pending.None? && |s.p.trace| > 0 && s.p.trace[|s.p.trace| - 1] == Reported(ENoMem)
  {
    hide DbWf, Goal, Populated, Roomy, Steps, Released;
    BegunAt(p, pools, db, root, true);
    n := RunsOut(root, Completion.Begin(p, pools, db, root), Svcs(0), Callbacks(Goal(db, root)));
    SucceedsIff(p, pools, db, root);
    assert !Succeeded(Steps(Completion.Begin(p, pools, db, root), n).p.trace);
  }

  // ----- the rounds of the characteristic phase

  /** Services with room for a characteristic but without any. */
  function OpenCount(svcs: seq<Svc>): nat {
    if svcs == [] then 0
    else (if svcs[0].decl.start < svcs[0].decl.end && svcs[0].chrs == [] then 1 else 0) + OpenCount(svcs[1..])
  }

  lemma {:induction false} NoneOpenIff(svcs: seq<Svc>)
    ensures FirstOpen(svcs).None? <==> OpenCount(svcs) == 0
  {
    if svcs != [] {
      NoneOpenIff(svcs[1..]);
    }
  }

  lemma {:induction false} OpenCountUpdate(svcs: seq<Svc>, i: nat, s: Svc)
    requires i < |svcs|
    ensures OpenCount(svcs[i := s]) + (if Open(svcs[i]) then 1 else 0)
         == OpenCount(svcs) + if Open(s) then 1 else 0
  {
    if i == 0 {
      assert svcs[i := s][1..] == svcs[1..];
    } else {
      assert svcs[i := s][1..] == svcs[1..][i - 1 := s];
      OpenCountUpdate(svcs[1..], i - 1, s);
    }
  }

  lemma {:induction false} SnapshotOpens(goal: seq<Svc>, i: nat, m: nat)
    requires i < |goal| && m < |goal[i].chrs| && NonEmpty(goal[i].decl)
    ensures OpenCount(Snapshot(goal, Chrs(i, m + 1))) + (if m == 0 then 1 else 0)
         == OpenCount(Snapshot(goal, Chrs(i, m)))
  {
    var before, after := Snapshot(goal, Chrs(i, m)), Snapshot(goal, Chrs(i, m + 1));
    assert after == before[i := after[i]];
    OpenCountUpdate(before, i, after[i]);
  }

  /** A characteristic procedure that delivers something lowers the number of services still without
      characteristics by one, with its first item. */
  lemma {:induction false} RoundsFall(p: Peer, l: Link, pools: Pools, e: Event, rc: Status)
    requires Sound(l, p) && l.pending.Some? && l.pending.value.ChrsIn? && Truthful(l, e) && e.status.Ok?
    requires Deliverable(p, l.pending.value, e)
    ensures var o := Callback(p, pools, l.pending.value, e, rc);
      o.rc.Ok? ==> OpenCount(o.peer.svcs) + (if l.sent == 0 then 1 else 0) == OpenCount(p.svcs)
  {
    hide SoundAt, Truthful, Callback, OpenCount, Snapshot, DbWf;
    var root := p.trace[0].req;
    var goal := Goal(l.db, root);
    var pr :| SoundAt(goal, root, p, l, pr);
    var o := Callback(p, pools, l.pending.value, e, rc);
    AtRound(goal, root, p, l, e, pr);
    var pr' := ItemSound(root, p, l, pools, e, rc, pr);
    SnapshotOf(goal, root, p, l, pr);
    SnapshotOf(goal, root, o.peer, NextLink(l, p, e, o), pr');
    SnapshotOpens(goal, pr.i, pr.m);
  }

  lemma {:induction false} AtRound(goal: seq<Svc>, root: Request, p: Peer, l: Link, e: Event, pr: Progress)
    requires DbWf(l.db) && IsRoot(root) && goal == Goal(l.db, root) && SoundAt(goal, root, p, l, pr)
    requires l.pending.Some? && l.pending.value.ChrsIn? && Truthful(l, e) && e.status.Ok?
    ensures pr.Chrs? && pr.i < |goal| && NonEmpty(goal[pr.i].decl) && l.sent == pr.m < |goal[pr.i].chrs|
  {
    hide DbWf, DscPlan, ChrPlan, Exact, Snapshot, Positions;
    AnswerAt(l.db, root, p, l, pr);
  }

  /** The descriptor phase begins only when no service is left without its characteristics, and until
      then a round asks for the characteristics of one that is. */
  lemma {:induction false} RoundsEnd(p: Peer, req: Request)
    requires !req.DscsIn?
    ensures NextReq(p, req).Some? ==> (NextReq(p, req).value.DscsIn? <==> OpenCount(p.svcs) == 0)
    ensures OpenCount(p.svcs) == 0
      <==> forall i :: 0 <= i < |p.svcs| ==> !(p.svcs[i].decl.start < p.svcs[i].decl.end && p.svcs[i].chrs == [])
  {
    NoneOpenIff(p.svcs);
  }
}
