/** Discovery against a truthful stack: a success report means the tree is the remote's database. */
module Exactness {
  import opened Gatt
  import opened Discovery
  import opened Remote
  import opened Snapshots
  import opened Runs

  /** The stack delivers the answer's items in order and reports "done" only after the last one; it
      may fail at any time. */
  predicate Truthful(l: Link, e: Event)
    requires l.pending.Some?
  {
    var a := Answer(l.db, l.pending.value);
    match e.status
    case Ok => l.sent < |a| && e.item == Some(a[l.sent])
    case EDone => l.sent == |a|
    case _ => true
  }

  // ----- the procedures a complete discovery starts

  function SvcReqs(goal: seq<Svc>, n: nat): seq<Request>
    requires n <= |goal|
  {
    if n == 0 then []
    else
      var g := goal[n - 1].decl;
      SvcReqs(goal, n - 1) + if g.start < g.end then [ChrsIn(g.start, g.end)] else []
  }

  function RoomReqs(goal: seq<Svc>, n: nat): seq<Request>
    requires n <= |Positions(goal)|
  {
    if n == 0 then []
    else
      var pos := Positions(goal)[n - 1];
      RoomReqs(goal, n - 1) +
      if RoomAt(goal, pos) then [DscsIn(At(goal, pos).decl.val, EndAt(goal, pos))] else []
  }

  /** The plan up to the first `n` services. */
  function ChrPlan(goal: seq<Svc>, root: Request, n: nat): seq<Request>
    requires n <= |goal|
  {
    [root] + SvcReqs(goal, n)
  }

  /** The plan up to the first `n` characteristics. */
  function DscPlan(goal: seq<Svc>, root: Request, n: nat): seq<Request>
    requires n <= |Positions(goal)|
  {
    ChrPlan(goal, root, |goal|) + RoomReqs(goal, n)
  }

  /** One characteristic procedure per service that can hold characteristics, then one descriptor
      procedure per characteristic with room, all in handle order. */
  function Plan(goal: seq<Svc>, root: Request): seq<Request> {
    DscPlan(goal, root, |Positions(goal)|)
  }

  function Granted(reqs: seq<Request>): (r: seq<Obs>)
    ensures |r| == |reqs| && forall k :: 0 <= k < |r| ==> r[k] == Started(reqs[k], Ok)
  {
    seq(|reqs|, k requires 0 <= k < |reqs| => Started(reqs[k], Ok))
  }

  lemma {:induction false} SvcReqsSkip(goal: seq<Svc>, i: nat)
    requires i <= |goal|
    ensures SvcReqs(goal, NextSvc(goal, i)) == SvcReqs(goal, i)
    decreases |goal| - i
  {
    if i < |goal| && !NonEmpty(goal[i].decl) {
      SvcReqsSkip(goal, i + 1);
    }
  }

  lemma {:induction false} RoomReqsSkip(goal: seq<Svc>, f: nat)
    requires f <= |Positions(goal)|
    ensures RoomReqs(goal, NextRoom(goal, f)) == RoomReqs(goal, f)
    decreases |Positions(goal)| - f
  {
    if f < |Positions(goal)| && !RoomAt(goal, Positions(goal)[f]) {
      RoomReqsSkip(goal, f + 1);
    }
  }

  lemma {:induction false} DscPlanNext(goal: seq<Svc>, root: Request, n: nat)
    requires n < |Positions(goal)| && RoomAt(goal, Positions(goal)[n])
    ensures var pos := Positions(goal)[n];
      Granted(DscPlan(goal, root, n)) + [Started(DscsIn(At(goal, pos).decl.val, EndAt(goal, pos)), Ok)]
      == Granted(DscPlan(goal, root, n + 1))
  {
  }

  lemma {:induction false} PlanStarts(goal: seq<Svc>, root: Request)
    ensures ChrPlan(goal, root, 0) == [root]
    ensures DscPlan(goal, root, 0) == ChrPlan(goal, root, |goal|)
  {
  }

  // ----- the invariant

  predicate StartedWith(trace: seq<Obs>, root: Request) {
    |trace| > 0 && trace[0] == Started(root, Ok) && trace[|trace| - 1].Started?
  }

  predicate Succeeded(trace: seq<Obs>) {
    |trace| > 0 && trace[|trace| - 1] == Reported(Ok)
  }

  predicate NoneOpen(goal: seq<Svc>, n: nat) {
    forall a :: 0 <= a < n && a < |goal| ==> !Open(goal[a])
  }

  /** What `pr` says about the peer and the stack while a procedure is outstanding. */
  predicate InFlight(goal: seq<Svc>, root: Request, p: Peer, l: Link, pr: Progress)
    requires InGoal(goal, pr) && l.pending.Some?
  {
    && StartedWith(p.trace, root)
    && match pr
       case Svcs(k) =>
         && l.pending.value == root && l.sent == k && p.cursor == 1
         && p.trace == Granted([root])
       case Chrs(i, m) =>
         && i < |goal| && NonEmpty(goal[i].decl)
         && l.pending.value == ChrsIn(goal[i].decl.start, goal[i].decl.end)
         && l.sent == m && p.cursor == 1 && p.cur == Some(goal[i].decl.start)
         && NoneOpen(goal, i)
         && (goal[i].chrs != [] ==> p.trace == Granted(ChrPlan(goal, root, i + 1)))
       case Dscs(f, m) =>
         var ps := Positions(goal);
         && f < |ps| && RoomAt(goal, ps[f])
         && l.pending.value == DscsIn(At(goal, ps[f]).decl.val, EndAt(goal, ps[f]))
         && l.sent == m && p.cursor == At(goal, ps[f]).decl.val
         && Populated(goal)
         && p.trace == Granted(DscPlan(goal, root, f + 1))
  }

  /** What a success report stands for. */
  predicate Exact(goal: seq<Svc>, root: Request, p: Peer) {
    && p.svcs == goal && Populated(goal)
    && p.trace == Granted(Plan(goal, root)) + [Reported(Ok)]
  }

  predicate SoundAt(goal: seq<Svc>, root: Request, p: Peer, l: Link, pr: Progress) {
    && InGoal(goal, pr) && p.svcs == Snapshot(goal, pr)
    && (l.pending.Some? ==> InFlight(goal, root, p, l, pr))
    && (l.pending.None? ==> |p.trace| > 0 && p.trace[0].Started? && p.trace[0].req == root)
    && (l.pending.None? && Succeeded(p.trace) ==> Exact(goal, root, p))
  }

  /** The invariant of a link: its tree is one of the snapshots of what is being discovered, and it
      is the whole of it once success has been reported. */
  ghost predicate Sound(l: Link, p: Peer) {
    && DbWf(l.db)
    && (p.trace == [] ==> p.svcs == [] && l.pending.None?)
    && (p.trace != [] ==>
          && p.trace[0].Started? && IsRoot(p.trace[0].req)
          && exists pr :: SoundAt(Goal(l.db, p.trace[0].req), p.trace[0].req, p, l, pr))
  }

  // ----- starting the phases

  lemma {:induction false} SeparatesFirst(goal: seq<Svc>)
    requires DbWf(goal)
    ensures Separates(goal, 0, 1)
  {
    forall a | 0 <= a < |Positions(goal)| ensures 1 <= At(goal, Positions(goal)[a]).decl.def {
      var pos := Positions(goal)[a];
      assert ChrWf(goal[pos.i], pos.j);
    }
  }

  lemma {:induction false} SeparatesNext(goal: seq<Svc>, f: nat)
    requires DbWf(goal) && f < |Positions(goal)|
    ensures Separates(goal, f + 1, At(goal, Positions(goal)[f]).decl.val)
  {
    var ps := Positions(goal);
    PositionsSorted(goal, |goal|);
    forall a | 0 <= a < |ps|
      ensures a < f + 1 ==> At(goal, ps[a]).decl.def < At(goal, ps[f]).decl.val
      ensures f + 1 <= a ==> At(goal, ps[f]).decl.val <= At(goal, ps[a]).decl.def
    {
      assert ChrWf(goal[ps[a].i], ps[a].j);
      assert ChrWf(goal[ps[f].i], ps[f].j);
      if a < f {
        HandlesAscend(goal, ps[a], ps[f]);
      } else if f < a {
        HandlesAscend(goal, ps[f], ps[a]);
      }
    }
  }

  /** The link after a callback that went from `p` to `q` on a terminator. */
  function Restarted(l: Link, p: Peer, q: Peer): Link {
    Link(l.db, NewlyAccepted(p, q), 0)
  }

  /** What `peer_disc_dscs` does on a snapshot. */
  lemma {:induction false} DiscDscsOn(goal: seq<Svc>, p: Peer, f: nat, rc: Status)
    requires DbWf(goal) && f <= |Positions(goal)|
    requires p.svcs == Snapshot(goal, Dscs(f, 0)) && Separates(goal, f, p.cursor)
    ensures var ps, n := Positions(goal), NextRoom(goal, f);
      DiscDscs(p, rc) ==
      if n == |ps| then Complete(p, Ok)
      else
        var val := At(goal, ps[n]).decl.val;
        var p1 := Start(p, DscsIn(val, EndAt(goal, ps[n])), rc);
        (if rc.Ok? then p1 else Complete(p1, rc)).(cursor := val)
  {
    var ps, n := Positions(goal), NextRoom(goal, f);
    ScanStep(goal, f, p.cursor);
    if n < |ps| {
      SameAt(goal, f, 0, ps[n]);
    }
  }

  lemma {:induction false} PlanCarriedOut(goal: seq<Svc>, root: Request, p: Peer, l: Link)
    requires Populated(goal) && p.svcs == goal
    requires p.trace == Granted(Plan(goal, root)) && StartedWith(p.trace, root)
    ensures SoundAt(goal, root, Complete(p, Ok), Restarted(l, p, Complete(p, Ok)), Dscs(|Positions(goal)|, 0))
  {
    AllDone(goal);
  }

  /** A run that ends with a failure, reported or not, leaves the snapshot reached so far. */
  lemma {:induction false} AbortedSound(goal: seq<Svc>, root: Request, p: Peer, q: Peer, l: Link,
                                        status: Status, pr: Progress)
    requires InGoal(goal, pr) && p.svcs == Snapshot(goal, pr) == q.svcs && !status.Ok?
    requires StartedWith(p.trace, root) && q.trace == Complete(p, status).trace && l.pending.None?
    ensures SoundAt(goal, root, q, l, pr)
  {
  }

  lemma {:induction false} RefusedSound(goal: seq<Svc>, root: Request, p: Peer, q: Peer, l: Link, req: Request,
                                        rc: Status, pr: Progress)
    requires InGoal(goal, pr) && p.svcs == Snapshot(goal, pr) == q.svcs && !rc.Ok?
    requires StartedWith(p.trace, root)
    requires q.trace == Complete(Start(p, req, rc), rc).trace
    ensures SoundAt(goal, root, q, Restarted(l, p, q), pr)
  {
  }

  lemma {:induction false} NextDscsSound(goal: seq<Svc>, root: Request, p: Peer, q: Peer, l: Link, n: nat)
    requires Populated(goal) && n < |Positions(goal)| && RoomAt(goal, Positions(goal)[n])
    requires p.svcs == Snapshot(goal, Dscs(n, 0)) && StartedWith(p.trace, root)
    requires p.trace == Granted(DscPlan(goal, root, n))
    requires var pos := Positions(goal)[n];
      q == Start(p, DscsIn(At(goal, pos).decl.val, EndAt(goal, pos)), Ok).(cursor := At(goal, pos).decl.val)
    ensures SoundAt(goal, root, q, Restarted(l, p, q), Dscs(n, 0))
  {
    DscPlanNext(goal, root, n);
    hide DscPlan, Populated, Snapshot, Positions;
  }

  /** `peer_disc_dscs` with the first `f` characteristics complete: it starts the next procedure of
      the plan, reports the refusal, or reports success with the plan carried out. */
  lemma {:induction false} DiscDscsSound(goal: seq<Svc>, root: Request, p: Peer, l: Link, f: nat, rc: Status)
    returns (pr: Progress)
    requires DbWf(goal) && Populated(goal) && f <= |Positions(goal)|
    requires p.svcs == Snapshot(goal, Dscs(f, 0)) && Separates(goal, f, p.cursor)
    requires p.trace == Granted(DscPlan(goal, root, f)) && StartedWith(p.trace, root)
    ensures SoundAt(goal, root, DiscDscs(p, rc), Restarted(l, p, DiscDscs(p, rc)), pr)
    ensures pr.Dscs? && f <= pr.f
  {
    hide Populated, DbWf, SoundAt, Positions;
    var ps, n := Positions(goal), NextRoom(goal, f);
    pr := Dscs(n, 0);
    DiscDscsOn(goal, p, f, rc);
    assert p.svcs == Snapshot(goal, pr) by { ScanStep(goal, f, p.cursor); }
    assert DscPlan(goal, root, n) == DscPlan(goal, root, f) by { RoomReqsSkip(goal, f); }
    hide DscPlan, Separates;
    if n == |ps| {
      assert p.svcs == goal by { AllDone(goal); }
      PlanCarriedOut(goal, root, p, l);
    } else if rc.Ok? {
      NextDscsSound(goal, root, p, DiscDscs(p, rc), l, n);
    } else {
      RefusedSound(goal, root, p, DiscDscs(p, rc), l, DscsIn(At(goal, ps[n]).decl.val, EndAt(goal, ps[n])), rc, pr);
    }
  }

  lemma {:induction false} NextChrsSound(goal: seq<Svc>, root: Request, p: Peer, q: Peer, l: Link, n: nat)
    requires n < |goal| && NonEmpty(goal[n].decl) && NoneOpen(goal, n)
    requires p.svcs == Snapshot(goal, Chrs(n, 0)) && p.cursor == 1
    requires StartedWith(p.trace, root)
    requires goal[n].chrs != [] ==> p.trace == Granted(ChrPlan(goal, root, n))
    requires var g := goal[n].decl; q == Start(p.(cur := Some(g.start)), ChrsIn(g.start, g.end), Ok)
    ensures SoundAt(goal, root, q, Restarted(l, p, q), Chrs(n, 0))
  {
  }

  /** Every service complete: `peer_disc_chrs` moves on to the descriptor phase. */
  lemma {:induction false} ChrsOver(goal: seq<Svc>, root: Request, p: Peer, l: Link, rc: Status) returns (pr: Progress)
    requires DbWf(goal) && Populated(goal) && p.svcs == Snapshot(goal, Chrs(|goal|, 0)) && p.cursor == 1
    requires p.trace == Granted(ChrPlan(goal, root, |goal|)) && StartedWith(p.trace, root)
    ensures SoundAt(goal, root, DiscDscs(p, rc), Restarted(l, p, DiscDscs(p, rc)), pr)
    ensures pr.Dscs?
  {
    AllBare(goal);
    SeparatesFirst(goal);
    PlanStarts(goal, root);
    pr := DiscDscsSound(goal, root, p, l, 0, rc);
  }

  lemma {:induction false} DiscChrsOn(goal: seq<Svc>, p: Peer, i: nat, rc: Status)
    requires DbWf(goal) && i <= |goal| && NoneOpen(goal, i)
    requires p.svcs == Snapshot(goal, Chrs(i, 0))
    ensures var n := NextSvc(goal, i);
      DiscChrs(p, rc) ==
      if n == |goal| then DiscDscs(p, rc)
      else
        var g := goal[n].decl;
        var p1 := Start(p.(cur := Some(g.start)), ChrsIn(g.start, g.end), rc);
        if rc.Ok? then p1 else Complete(p1, rc)
    ensures p.svcs == Snapshot(goal, Chrs(NextSvc(goal, i), 0))
  {
    OpenStep(goal, i);
  }

  lemma {:induction false} NoneOpenUpTo(goal: seq<Svc>, i: nat)
    requires i <= |goal| && NoneOpen(goal, i)
    ensures NoneOpen(goal, NextSvc(goal, i))
  {
  }

  /** `peer_disc_chrs` with the services before `i` complete. If service `i` could hold
      characteristics but has none, its procedure is started again. */
  lemma {:induction false} DiscChrsSound(goal: seq<Svc>, root: Request, p: Peer, l: Link, i: nat, rc: Status)
    returns (pr: Progress)
    requires DbWf(goal) && i <= |goal| && NoneOpen(goal, i)
    requires p.svcs == Snapshot(goal, Chrs(i, 0)) && p.cursor == 1
    requires StartedWith(p.trace, root)
    requires (i < |goal| && Open(goal[i])) || p.trace == Granted(ChrPlan(goal, root, i))
    ensures SoundAt(goal, root, DiscChrs(p, rc), Restarted(l, p, DiscChrs(p, rc)), pr)
    ensures pr.Dscs? || (pr.Chrs? && i <= pr.i)
  {
    var n := NextSvc(goal, i);
    DiscChrsOn(goal, p, i, rc);
    SvcReqsSkip(goal, i);
    NoneOpenUpTo(goal, i);
    if n == |goal| {
      pr := ChrsOver(goal, root, p, l, rc);
    } else {
      pr := Chrs(n, 0);
      if rc.Ok? {
        NextChrsSound(goal, root, p, DiscChrs(p, rc), l, n);
      } else {
        var g := goal[n].decl;
        RefusedSound(goal, root, p, DiscChrs(p, rc), l, ChrsIn(g.start, g.end), rc, pr);
      }
    }
  }

  // ----- one callback

  lemma {:induction false} AnswerRoot(db: seq<Svc>, root: Request)
    requires IsRoot(root)
    ensures var a, goal := Answer(db, root), Goal(db, root);
      |a| == |goal| && forall k :: 0 <= k < |a| ==> a[k] == SvcItem(goal[k].decl)
  {
  }

  /** The answer to the outstanding procedure, in terms of the goal. */
  lemma {:induction false} AnswerAt(db: seq<Svc>, root: Request, p: Peer, l: Link, pr: Progress)
    requires DbWf(db) && l.db == db && IsRoot(root) && l.pending.Some?
    requires InGoal(Goal(db, root), pr) && InFlight(Goal(db, root), root, p, l, pr)
    ensures var goal, a := Goal(db, root), Answer(db, l.pending.value);
      match pr
      case Svcs(_) => |a| == |goal| && forall k :: 0 <= k < |a| ==> a[k] == SvcItem(goal[k].decl)
      case Chrs(i, _) => |a| == |goal[i].chrs| && forall k :: 0 <= k < |a| ==> a[k] == ChrItem(goal[i].chrs[k].decl)
      case Dscs(f, _) =>
        var c := At(goal, Positions(goal)[f]);
        |a| == |c.dscs| && forall k :: 0 <= k < |a| ==> a[k] == DscItem(c.dscs[k])
  {
    var goal := Goal(db, root);
    match pr
    case Svcs(_) => AnswerRoot(db, root);
    case Chrs(i, _) =>
      GoalSubset(db, root, i);
      AnswerChrs(db, goal[i]);
    case Dscs(f, _) =>
      var pos := Positions(goal)[f];
      GoalSubset(db, root, pos.i);
      AnswerDscs(db, goal[pos.i], pos.j);
  }

  function Advance(pr: Progress): Progress {
    match pr
    case Svcs(k) => Svcs(k + 1)
    case Chrs(i, m) => Chrs(i, m + 1)
    case Dscs(f, m) => Dscs(f, m + 1)
  }

  /** A later phase, a later procedure of the phase, or a later item of the procedure. */
  predicate Later(a: Progress, b: Progress) {
    match a
    case Svcs(k) => !b.Svcs? || k < b.k
    case Chrs(i, m) => b.Dscs? || (b.Chrs? && (i < b.i || (i == b.i && m < b.m)))
    case Dscs(f, m) => b.Dscs? && (f < b.f || (f == b.f && m < b.m))
  }

  // "Done" in each of the three phases

  lemma {:induction false} SvcsDoneSound(goal: seq<Svc>, root: Request, p: Peer, l: Link, rc: Status)
    returns (pr: Progress)
    requires DbWf(goal) && l.pending.Some? && SoundAt(goal, root, p, l, Svcs(|goal|))
    ensures SoundAt(goal, root, DiscChrs(p, rc), Restarted(l, p, DiscChrs(p, rc)), pr)
    ensures !pr.Svcs?
  {
    SvcsDone(goal);
    PlanStarts(goal, root);
    pr := DiscChrsSound(goal, root, p, l, 0, rc);
  }

  lemma {:induction false} ChrsDoneSound(goal: seq<Svc>, root: Request, p: Peer, l: Link, i: nat, rc: Status)
    returns (pr: Progress)
    requires DbWf(goal) && l.pending.Some? && i < |goal|
    requires SoundAt(goal, root, p, l, Chrs(i, |goal[i].chrs|))
    ensures SoundAt(goal, root, DiscChrs(p, rc), Restarted(l, p, DiscChrs(p, rc)), pr)
    ensures goal[i].chrs != [] ==> pr.Dscs? || (pr.Chrs? && i < pr.i)
  {
    if goal[i].chrs == [] {
      pr := DiscChrsSound(goal, root, p, l, i, rc);
    } else {
      ChrsFull(goal, i);
      pr := DiscChrsSound(goal, root, p, l, i + 1, rc);
    }
  }

  lemma {:induction false} ValPositive(db: seq<Svc>, pos: Pos)
    requires DbWf(db) && InTree(db, pos)
    ensures At(db, pos).decl.val > 0
  {
    assert ChrWf(db[pos.i], pos.j);
  }

  lemma {:induction false} DscsDoneSound(goal: seq<Svc>, root: Request, p: Peer, l: Link, f: nat, rc: Status)
    returns (pr: Progress)
    requires DbWf(goal) && Populated(goal) && f < |Positions(goal)|
    requires p.svcs == Snapshot(goal, Dscs(f, |At(goal, Positions(goal)[f]).dscs|))
    requires p.cursor == At(goal, Positions(goal)[f]).decl.val
    requires p.trace == Granted(DscPlan(goal, root, f + 1)) && StartedWith(p.trace, root)
    ensures p.cursor > 0
    ensures SoundAt(goal, root, DiscDscs(p, rc), Restarted(l, p, DiscDscs(p, rc)), pr)
    ensures pr.Dscs? && f < pr.f
  {
    assert p.svcs == Snapshot(goal, Dscs(f + 1, 0)) by { DscsFull(goal, f); }
    assert Separates(goal, f + 1, p.cursor) by { SeparatesNext(goal, f); }
    assert p.cursor > 0 by { ValPositive(goal, Positions(goal)[f]); }
    pr := DiscDscsSound(goal, root, p, l, f + 1, rc);
  }

  lemma {:induction false} DoneSound(root: Request, p: Peer, l: Link, pools: Pools, e: Event, rc: Status, pr: Progress)
    returns (pr': Progress)
    requires DbWf(l.db) && IsRoot(root) && l.pending.Some?
    requires SoundAt(Goal(l.db, root), root, p, l, pr)
    requires Truthful(l, e) && e.status.EDone?
    ensures var o := Callback(p, pools, l.pending.value, e, rc);
      SoundAt(Goal(l.db, root), root, o.peer, NextLink(l, p, e, o), pr')
    ensures Populated(Goal(l.db, root)) ==> Later(pr, pr')
  {
    hide ChrPlan, DscPlan, Plan, Snapshot, DbWf, Goal, Positions, RoomAt;
    var goal := Goal(l.db, root);
    GoalWf(l.db, root);
    AnswerAt(l.db, root, p, l, pr);
    match pr
    case Svcs(k) => pr' := SvcsDoneSound(goal, root, p, l, rc);
    case Chrs(i, m) => pr' := ChrsDoneSound(goal, root, p, l, i, rc);
    case Dscs(f, m) => pr' := DscsDoneSound(goal, root, p, l, f, rc);
  }

  // an item in each of the three phases

  /** The item is taken into the tree, or the pool is empty and discovery is aborted. */
  lemma {:induction false} AddedSound(goal: seq<Svc>, root: Request, p: Peer, l: Link, e: Event, o: Outcome,
                                      pr: Progress)
    returns (pr': Progress)
    requires l.pending.Some? && e.status.Ok? && SoundAt(goal, root, p, l, pr)
    requires
      || (o.rc.ENoMem? && o.peer == p)
      || (o.rc.Ok? && InGoal(goal, Advance(pr)) && o.peer == p.(svcs := Snapshot(goal, Advance(pr))))
    ensures SoundAt(goal, root, Finish(o).peer, NextLink(l, p, e, Finish(o)), pr')
    ensures o.rc.Ok? ==> pr' == Advance(pr)
  {
    hide Snapshot, ChrPlan, DscPlan, Positions, Exact;
    if o.rc.Ok? {
      pr' := Advance(pr);
    } else {
      pr' := pr;
      AbortedSound(goal, root, p, Finish(o).peer, NextLink(l, p, e, Finish(o)), ENoMem, pr);
    }
  }

  lemma {:induction false} SnapshotOf(goal: seq<Svc>, root: Request, p: Peer, l: Link, pr: Progress)
    requires SoundAt(goal, root, p, l, pr)
    ensures InGoal(goal, pr) && p.svcs == Snapshot(goal, pr)
  {
  }

  lemma {:induction false} SvcItemSound(goal: seq<Svc>, root: Request, p: Peer, l: Link, e: Event, pools: Pools, k: nat)
    returns (pr: Progress)
    requires DbWf(goal) && l.pending.Some? && e.status.Ok?
    requires SoundAt(goal, root, p, l, Svcs(k)) && k < |goal|
    ensures var o := Finish(SvcAdd(p, pools, goal[k].decl));
      SoundAt(goal, root, o.peer, NextLink(l, p, e, o), pr) && (o.rc.Ok? ==> pr == Svcs(k + 1))
  {
    SvcItemStep(goal, k, p, pools);
    pr := AddedSound(goal, root, p, l, e, SvcAdd(p, pools, goal[k].decl), Svcs(k));
  }

  lemma {:induction false} ChrItemSound(goal: seq<Svc>, root: Request, p: Peer, l: Link, e: Event,
                                        pools: Pools, i: nat, m: nat)
    returns (pr: Progress)
    requires DbWf(goal) && l.pending.Some? && e.status.Ok?
    requires SoundAt(goal, root, p, l, Chrs(i, m)) && i < |goal| && m < |goal[i].chrs|
    ensures var o := Finish(ChrAdd(p, pools, goal[i].decl.start, goal[i].chrs[m].decl));
      SoundAt(goal, root, o.peer, NextLink(l, p, e, o), pr) && (o.rc.Ok? ==> pr == Chrs(i, m + 1))
  {
    ChrItemStep(goal, i, m, p, pools);
    pr := AddedSound(goal, root, p, l, e, ChrAdd(p, pools, goal[i].decl.start, goal[i].chrs[m].decl), Chrs(i, m));
  }

  lemma {:induction false} DscItemSound(goal: seq<Svc>, root: Request, p: Peer, l: Link, e: Event,
                                        pools: Pools, f: nat, m: nat)
    returns (pr: Progress)
    requires DbWf(goal) && l.pending.Some? && e.status.Ok?
    requires SoundAt(goal, root, p, l, Dscs(f, m))
    requires f < |Positions(goal)| && m < |At(goal, Positions(goal)[f]).dscs|
    ensures var c := At(goal, Positions(goal)[f]);
      var o := Finish(DscAdd(p, pools, c.decl.val, c.dscs[m]));
      SoundAt(goal, root, o.peer, NextLink(l, p, e, o), pr) && (o.rc.Ok? ==> pr == Dscs(f, m + 1))
  {
    hide Snapshot, DbWf, DscPlan, ChrPlan, DscAdd, Positions, SoundAt;
    var c := At(goal, Positions(goal)[f]);
    var o := DscAdd(p, pools, c.decl.val, c.dscs[m]);
    assert InGoal(goal, Dscs(f, m + 1));
    assert p.svcs == Snapshot(goal, Dscs(f, m)) by {
      SnapshotOf(goal, root, p, l, Dscs(f, m));
    }
    assert (o.rc.ENoMem? && o.peer == p) || (o.rc.Ok? && o.peer == p.(svcs := Snapshot(goal, Dscs(f, m + 1)))) by {
      DscItemStep(goal, f, m, p, pools);
    }
    pr := AddedSound(goal, root, p, l, e, o, Dscs(f, m));
  }

  lemma {:induction false} ItemSound(root: Request, p: Peer, l: Link, pools: Pools, e: Event, rc: Status, pr: Progress)
    returns (pr': Progress)
    requires DbWf(l.db) && IsRoot(root) && l.pending.Some?
    requires SoundAt(Goal(l.db, root), root, p, l, pr)
    requires Truthful(l, e) && e.status.Ok?
    ensures Fits(l.pending.value, e) && (l.pending.value.ChrsIn? ==> p.cur.Some?)
    ensures var o := Callback(p, pools, l.pending.value, e, rc);
      && SoundAt(Goal(l.db, root), root, o.peer, NextLink(l, p, e, o), pr')
      && (o.rc.Ok? ==> pr' == Advance(pr))
  {
    hide ChrPlan, DscPlan, Plan, Snapshot, DbWf, Goal, SvcAdd, ChrAdd, DscAdd;
    var goal := Goal(l.db, root);
    GoalWf(l.db, root);
    AnswerAt(l.db, root, p, l, pr);
    match pr
    case Svcs(k) => pr' := SvcItemSound(goal, root, p, l, e, pools, k);
    case Chrs(i, m) => pr' := ChrItemSound(goal, root, p, l, e, pools, i, m);
    case Dscs(f, m) => pr' := DscItemSound(goal, root, p, l, e, pools, f, m);
  }

  lemma {:induction false} ErrorSound(goal: seq<Svc>, root: Request, p: Peer, l: Link, pools: Pools, e: Event,
                                      rc: Status, pr: Progress)
    requires l.pending.Some? && InGoal(goal, pr) && p.svcs == Snapshot(goal, pr) && StartedWith(p.trace, root)
    requires !e.status.Ok? && !e.status.EDone?
    ensures var o := Callback(p, pools, l.pending.value, e, rc);
      SoundAt(goal, root, o.peer, NextLink(l, p, e, o), pr)
  {
    hide Snapshot, InGoal, SoundAt;
    var o := Callback(p, pools, l.pending.value, e, rc);
    AbortedSound(goal, root, p, o.peer, NextLink(l, p, e, o), e.status, pr);
  }

  /** One callback of a truthful stack keeps a link sound, whatever the pools hold and whether or
      not the stack accepts the procedure started by the callback. */
  lemma {:induction false} CallbackSound(p: Peer, l: Link, pools: Pools, e: Event, rc: Status)
    requires Sound(l, p) && l.pending.Some? && Truthful(l, e)
    ensures Fits(l.pending.value, e)
    ensures l.pending.value.ChrsIn? && e.status.Ok? ==> p.cur.Some?
    ensures var o := Callback(p, pools, l.pending.value, e, rc);
      Sound(NextLink(l, p, e, o), o.peer)
  {
    var root := p.trace[0].req;
    var pr :| SoundAt(Goal(l.db, root), root, p, l, pr);
    var pr';
    if e.status.Ok? {
      pr' := ItemSound(root, p, l, pools, e, rc, pr);
    } else if e.status.EDone? {
      pr' := DoneSound(root, p, l, pools, e, rc, pr);
    } else {
      ErrorSound(Goal(l.db, root), root, p, l, pools, e, rc, pr);
      pr' := pr;
    }
    var o := Callback(p, pools, l.pending.value, e, rc);
    assert SoundAt(Goal(l.db, root), root, o.peer, NextLink(l, p, e, o), pr');
  }

  /** A started discovery is sound: nothing delivered yet, or refused. */
  lemma {:induction false} DiscoverSound(p: Peer, pools: Pools, db: seq<Svc>, root: Request, cb: bool, rc: Status)
    requires DbWf(db) && IsRoot(root)
    ensures Sound(Link(db, if rc.Ok? then Some(root) else None, 0), Discover(p, pools, root, cb, rc).peer)
  {
    var q, l := Discover(p, pools, root, cb, rc).peer, Link(db, if rc.Ok? then Some(root) else None, 0);
    assert q.trace[0] == Started(root, rc);
    assert SoundAt(Goal(db, root), root, q, l, Svcs(0));
  }

  /** The lookups whose failure the source asserts cannot happen never fail: the service of a
      delivered characteristic, and the service and the characteristic of a delivered descriptor,
      are always found. */
  lemma {:induction false} LookupsSucceed(p: Peer, l: Link, e: Event)
    requires Sound(l, p) && l.pending.Some? && Truthful(l, e) && e.status.Ok?
    ensures OwnersFound(p, l.pending.value)
  {
    var root := p.trace[0].req;
    var goal := Goal(l.db, root);
    var pr :| SoundAt(goal, root, p, l, pr);
    GoalWf(l.db, root);
    AnswerAt(l.db, root, p, l, pr);
    match pr
    case Svcs(_) =>
    case Chrs(i, m) => ChrItemStep(goal, i, m, p, Pools(0, 0, 0));
    case Dscs(f, m) => DscLookup(goal, f, m);
  }
}
