/** When does discovery come to an end? The stack accepts every procedure and reports no error, and
    the pools are large enough; the only question left is what the remote's database looks like. */
module Completion {
  import opened Gatt
  import opened SortedList
  import opened Discovery
  import opened Remote
  import opened Snapshots
  import opened Runs
  import opened Exactness
  import opened Accounting

  // ----- callbacks conserve blocks

  lemma {:induction false} ChrItemConserves(goal: seq<Svc>, i: nat, m: nat, p: Peer, pools: Pools)
    requires DbWf(goal) && i < |goal| && m < |goal[i].chrs| && p.svcs == Snapshot(goal, Chrs(i, m))
    ensures var o := ChrAdd(p, pools, goal[i].decl.start, goal[i].chrs[m].decl);
      Released(o.pools, o.peer.svcs) == Released(pools, p.svcs)
  {
    ChrItemStep(goal, i, m, p, pools);
    ChrAddAccount(p, pools, goal[i].decl.start, goal[i].chrs[m].decl);
    var s := p.svcs[i];
    forall j | 0 <= j < m ensures Vals(s.chrs)[j] < goal[i].chrs[m].decl.def {
      assert ChrWf(goal[i], j);
    }
    FindPastEnd(Vals(s.chrs), goal[i].chrs[m].decl.def);
  }

  lemma {:induction false} DscItemConserves(goal: seq<Svc>, f: nat, m: nat, p: Peer, pools: Pools)
    requires DbWf(goal) && f < |Positions(goal)| && m < |At(goal, Positions(goal)[f]).dscs|
    requires p.svcs == Snapshot(goal, Dscs(f, m))
    ensures var c := At(goal, Positions(goal)[f]);
      var o := DscAdd(p, pools, c.decl.val, c.dscs[m]);
      Released(o.pools, o.peer.svcs) == Released(pools, p.svcs)
  {
    hide Snapshot, Positions;
    var pos := Positions(goal)[f];
    var c := At(goal, pos);
    assert ChrWf(goal[pos.i], pos.j);
    DscLookup(goal, f, m);
    NextDscLast(c, m);
    DscAddAccount(p, pools, c.decl.val, c.dscs[m]);
  }

  lemma {:induction false} TerminatorKeeps(p: Peer, pools: Pools, req: Request, e: Event, rc: Status)
    requires !e.status.Ok?
    ensures var o := Callback(p, pools, req, e, rc); o.pools == pools && o.peer.svcs == p.svcs
  {
  }

  lemma {:induction false} FinishKeeps(o: Outcome)
    ensures Finish(o).pools == o.pools && Finish(o).peer.svcs == o.peer.svcs
  {
  }

  lemma {:induction false} ItemConserves(root: Request, p: Peer, l: Link, pools: Pools, e: Event, rc: Status,
                                        pr: Progress)
    requires DbWf(l.db) && IsRoot(root) && l.pending.Some? && SoundAt(Goal(l.db, root), root, p, l, pr)
    requires Truthful(l, e) && e.status.Ok? && Fits(l.pending.value, e) && (l.pending.value.ChrsIn? ==> p.cur.Some?)
    ensures var o := Callback(p, pools, l.pending.value, e, rc);
      Released(o.pools, o.peer.svcs) == Released(pools, p.svcs)
  {
    hide Released, Snapshot, Goal, DbWf, Positions, DscPlan, ChrPlan, Exact, SvcAdd, ChrAdd, DscAdd, Finish;
    var goal := Goal(l.db, root);
    GoalWf(l.db, root);
    AnswerAt(l.db, root, p, l, pr);
    match pr
    case Svcs(k) =>
      SvcAddConserves(p, pools, goal[k].decl);
      FinishKeeps(SvcAdd(p, pools, goal[k].decl));
    case Chrs(i, m) =>
      ChrItemConserves(goal, i, m, p, pools);
      FinishKeeps(ChrAdd(p, pools, goal[i].decl.start, goal[i].chrs[m].decl));
    case Dscs(f, m) =>
      DscItemConserves(goal, f, m, p, pools);
      var c := At(goal, Positions(goal)[f]);
      FinishKeeps(DscAdd(p, pools, c.decl.val, c.dscs[m]));
  }

  /** Every callback of a truthful stack on a sound link, whatever its outcome, leaves free blocks
      plus tree nodes as they were in each pool. */
  lemma {:induction false} CallbackConserves(p: Peer, l: Link, pools: Pools, e: Event, rc: Status)
    requires Sound(l, p) && l.pending.Some? && Truthful(l, e)
    requires Fits(l.pending.value, e) && (l.pending.value.ChrsIn? && e.status.Ok? ==> p.cur.Some?)
    ensures var o := Callback(p, pools, l.pending.value, e, rc);
      Released(o.pools, o.peer.svcs) == Released(pools, p.svcs)
  {
    hide SoundAt, Released, Truthful, Callback;
    if e.status.Ok? {
      var root := p.trace[0].req;
      var pr :| SoundAt(Goal(l.db, root), root, p, l, pr);
      ItemConserves(root, p, l, pools, e, rc, pr);
    } else {
      TerminatorKeeps(p, pools, l.pending.value, e, rc);
    }
  }

  // ----- an unfinished snapshot is smaller than the goal

  lemma {:induction false} ChrCountLess(a: seq<Svc>, b: seq<Svc>, i: nat)
    requires |a| == |b| && forall k :: 0 <= k < |a| ==> |a[k].chrs| <= |b[k].chrs|
    ensures ChrCount(a) <= ChrCount(b)
    ensures i < |a| && |a[i].chrs| < |b[i].chrs| ==> ChrCount(a) < ChrCount(b)
  {
    if a != [] {
      ChrCountLess(a[1..], b[1..], if i == 0 then |a| else i - 1);
    }
  }

  lemma {:induction false} DscsOfChrsLess(a: seq<Chr>, b: seq<Chr>, j: nat)
    requires |a| == |b| && forall k :: 0 <= k < |a| ==> |a[k].dscs| <= |b[k].dscs|
    ensures DscsOfChrs(a) <= DscsOfChrs(b)
    ensures j < |a| && |a[j].dscs| < |b[j].dscs| ==> DscsOfChrs(a) < DscsOfChrs(b)
  {
    if a != [] {
      DscsOfChrsLess(a[1..], b[1..], if j == 0 then |a| else j - 1);
    }
  }

  lemma {:induction false} DscCountLess(a: seq<Svc>, b: seq<Svc>, i: nat)
    requires |a| == |b| && forall k :: 0 <= k < |a| ==> DscsOfChrs(a[k].chrs) <= DscsOfChrs(b[k].chrs)
    ensures DscCount(a) <= DscCount(b)
    ensures i < |a| && DscsOfChrs(a[i].chrs) < DscsOfChrs(b[i].chrs) ==> DscCount(a) < DscCount(b)
  {
    if a != [] {
      DscCountLess(a[1..], b[1..], if i == 0 then |a| else i - 1);
    }
  }

  lemma {:induction false} ChrsMissing(goal: seq<Svc>, i: nat, m: nat)
    requires i < |goal| && m < |goal[i].chrs|
    ensures ChrCount(Snapshot(goal, Chrs(i, m))) < ChrCount(goal)
  {
    ChrCountLess(Snapshot(goal, Chrs(i, m)), goal, i);
  }

  lemma {:induction false} DscsMissing(goal: seq<Svc>, f: nat, m: nat)
    requires f < |Positions(goal)| && m < |At(goal, Positions(goal)[f]).dscs|
    ensures DscCount(Snapshot(goal, Dscs(f, m))) < DscCount(goal)
  {
    var svcs, pos := Snapshot(goal, Dscs(f, m)), Positions(goal)[f];
    forall k | 0 <= k < |goal|
      ensures DscsOfChrs(svcs[k].chrs) <= DscsOfChrs(goal[k].chrs)
      ensures k == pos.i ==> DscsOfChrs(svcs[k].chrs) < DscsOfChrs(goal[k].chrs)
    {
      assert svcs[k].chrs == KnownChrs(goal, Dscs(f, m), k);
      DscsOfChrsLess(svcs[k].chrs, goal[k].chrs, pos.j);
    }
    DscCountLess(svcs, goal, pos.i);
  }

  // ----- runs in which nothing goes wrong

  datatype Sys = Sys(p: Peer, pools: Pools, l: Link)

  function NextEvent(l: Link): (e: Event)
    requires l.pending.Some?
    ensures Fits(l.pending.value, e)
    ensures l.sent <= |Answer(l.db, l.pending.value)| ==> Truthful(l, e)
  {
    var a := Answer(l.db, l.pending.value);
    if l.sent < |a| then Event(Ok, Some(a[l.sent])) else Event(EDone, None)
  }

  /** The next callback of a stack that delivers every item and accepts every procedure. */
  function Next(s: Sys): Sys {
    if s.l.pending.None? || (s.l.pending.value.ChrsIn? && s.p.cur.None?) then s
    else
      var e := NextEvent(s.l);
      var o := Callback(s.p, s.pools, s.l.pending.value, e, Ok);
      Sys(o.peer, o.pools, NextLink(s.l, s.p, e, o))
  }

  function Steps(s: Sys, n: nat): Sys
    decreases n
  {
    if n == 0 then s else Steps(Next(s), n - 1)
  }

  /** Free blocks plus tree nodes suffice for the whole goal. */
  predicate Roomy(goal: seq<Svc>, pools: Pools, svcs: seq<Svc>) {
    var r := Released(pools, svcs);
    |goal| <= r.svcs && ChrCount(goal) <= r.chrs && DscCount(goal) <= r.dscs
  }

  predicate Going(root: Request, s: Sys, pr: Progress) {
    && DbWf(s.l.db) && IsRoot(root)
    && SoundAt(Goal(s.l.db, root), root, s.p, s.l, pr)
    && Roomy(Goal(s.l.db, root), s.pools, s.p.svcs)
    && s.p.cb && (s.l.pending.None? ==> Succeeded(s.p.trace))
  }

  lemma {:induction false} CursorPositive(goal: seq<Svc>, root: Request, p: Peer, l: Link, pr: Progress)
    requires DbWf(goal) && l.pending.Some? && SoundAt(goal, root, p, l, pr)
    ensures p.cursor > 0
    ensures l.pending.value.ChrsIn? && IsRoot(root) ==> p.cur.Some?
  {
    if pr.Dscs? {
      ValPositive(goal, Positions(goal)[pr.f]);
    }
  }

  lemma {:induction false} DiscKeeps(p: Peer, rc: Status)
    ensures var q := DiscDscs(p, rc); q.cb == p.cb && q.conn == p.conn && p.trace <= q.trace
    ensures var q := DiscChrs(p, rc); q.cb == p.cb && q.conn == p.conn && p.trace <= q.trace
  {
    hide Scan, FirstOpen, Positions;
  }

  lemma {:induction false} CallbackKeeps(p: Peer, pools: Pools, req: Request, e: Event, rc: Status)
    requires Fits(req, e) && (req.ChrsIn? && e.status.Ok? ==> p.cur.Some?)
    ensures var q := Callback(p, pools, req, e, rc).peer;
      q.cb == p.cb && q.conn == p.conn && p.trace <= q.trace
  {
    hide SvcAdd, ChrAdd, DscAdd, DiscDscs, DiscChrs;
    DiscKeeps(p, rc);
    if e.status.Ok? {
      match e.item.value
      case SvcItem(g) => AddsKeep(p, pools, 0, 0, g, GattChr(0, 0, 0, g.uuid), GattDsc(0, g.uuid));
      case ChrItem(g) => AddsKeep(p, pools, p.cur.value, 0, GattSvc(0, 0, g.uuid), g, GattDsc(0, g.uuid));
      case DscItem(g) => AddsKeep(p, pools, 0, req.val, GattSvc(0, 0, g.uuid), GattChr(0, 0, 0, g.uuid), g);
    }
  }

  /** With enough blocks no item is refused. */
  lemma {:induction false} ItemTaken(root: Request, s: Sys, pr: Progress, e: Event)
    requires Going(root, s, pr) && s.l.pending.Some? && Truthful(s.l, e) && e.status.Ok?
    requires Fits(s.l.pending.value, e) && (s.l.pending.value.ChrsIn? ==> s.p.cur.Some?)
    ensures Callback(s.p, s.pools, s.l.pending.value, e, Ok).rc.Ok?
  {
    hide Goal, DbWf, Positions, DscPlan, ChrPlan, Exact;
    var goal := Goal(s.l.db, root);
    GoalWf(s.l.db, root);
    AnswerAt(s.l.db, root, s.p, s.l, pr);
    match pr
    case Svcs(k) => SvcItemStep(goal, k, s.p, s.pools);
    case Chrs(i, m) =>
      ChrItemStep(goal, i, m, s.p, s.pools);
      ChrsMissing(goal, i, m);
    case Dscs(f, m) =>
      DscItemStep(goal, f, m, s.p, s.pools);
      DscsMissing(goal, f, m);
  }

  lemma {:induction false} SentWithin(root: Request, s: Sys, pr: Progress)
    requires Going(root, s, pr) && s.l.pending.Some?
    ensures s.l.sent <= |Answer(s.l.db, s.l.pending.value)|
    ensures s.l.pending.value.ChrsIn? ==> s.p.cur.Some?
    ensures s.p.cursor > 0
  {
    hide Goal, DbWf, DscPlan, ChrPlan, Exact, Roomy;
    GoalWf(s.l.db, root);
    AnswerAt(s.l.db, root, s.p, s.l, pr);
    CursorPositive(Goal(s.l.db, root), root, s.p, s.l, pr);
  }

  lemma {:induction false} DoneSucceeds(p: Peer, pools: Pools, req: Request, e: Event)
    requires p.cb && p.cursor > 0 && e.status.EDone?
    ensures var o := Callback(p, pools, req, e, Ok);
      NextPending(p, req, e, o).None? ==> Succeeded(o.peer.trace)
  {
  }

  /** One step of such a run: it gets further unless it is stuck at a service without
      characteristics, and it stops only with success. */
  lemma {:induction false} NextGoing(root: Request, s: Sys, pr: Progress) returns (pr': Progress)
    requires Going(root, s, pr) && s.l.pending.Some?
    ensures Going(root, Next(s), pr') && Next(s).l.db == s.l.db
    ensures Populated(Goal(s.l.db, root)) ==> Later(pr, pr')
  {
    hide Goal, DbWf, SoundAt, Callback, Released, Populated, Succeeded, Truthful;
    SentWithin(root, s, pr);
    var e, req := NextEvent(s.l), s.l.pending.value;
    assert Sound(s.l, s.p) by { GoingSound(root, s, pr); }
    CallbackConserves(s.p, s.l, s.pools, e, Ok);
    CallbackKeeps(s.p, s.pools, req, e, Ok);
    if e.status.Ok? {
      ItemTaken(root, s, pr, e);
      pr' := ItemSound(root, s.p, s.l, s.pools, e, Ok, pr);
    } else {
      DoneSucceeds(s.p, s.pools, req, e);
      pr' := DoneSound(root, s.p, s.l, s.pools, e, Ok, pr);
    }
  }

  lemma {:induction false} GoingSound(root: Request, s: Sys, pr: Progress)
    requires Going(root, s, pr) && s.l.pending.Some?
    ensures Sound(s.l, s.p)
  {
  }

  /** What a later progress leaves to be done. */
  function Bound(goal: seq<Svc>, pr: Progress): (r: (nat, nat, nat))
    requires InGoal(goal, pr)
  {
    match pr
    case Svcs(k) => (3, |goal| - k, 0)
    case Chrs(i, m) => (2, |goal| - i, if i < |goal| then |goal[i].chrs| - m else 0)
    case Dscs(f, m) =>
      (1, |Positions(goal)| - f, if f < |Positions(goal)| then |At(goal, Positions(goal)[f]).dscs| - m else 0)
  }

  predicate Less(a: (nat, nat, nat), b: (nat, nat, nat)) {
    a.0 < b.0 || (a.0 == b.0 && (a.1 < b.1 || (a.1 == b.1 && a.2 < b.2)))
  }

  lemma {:induction false} LaterIsLess(goal: seq<Svc>, pr: Progress, pr': Progress)
    requires InGoal(goal, pr) && InGoal(goal, pr') && Later(pr, pr')
    ensures Less(Bound(goal, pr'), Bound(goal, pr))
  {
  }

  lemma {:induction false} GoingWithin(root: Request, s: Sys, pr: Progress)
    requires Going(root, s, pr)
    ensures InGoal(Goal(s.l.db, root), pr)
  {
  }

  lemma {:induction false} Finishes(goal: seq<Svc>, root: Request, s: Sys, pr: Progress, bound: (nat, nat,
                                    nat)) returns (n: nat)
    requires Going(root, s, pr) && Populated(goal) && goal == Goal(s.l.db, root)
    requires InGoal(goal, pr) && bound == Bound(goal, pr)
    ensures Steps(s, n).l.pending.None?
    decreases bound.0, bound.1, bound.2
  {
    hide Going, Populated, Goal, InGoal, Bound, Next;
    if s.l.pending.None? {
      n := 0;
    } else {
      var pr' := NextGoing(root, s, pr);
      GoingWithin(root, Next(s), pr');
      LaterIsLess(goal, pr, pr');
      var rest := Finishes(goal, root, Next(s), pr', Bound(goal, pr'));
      n := rest + 1;
    }
  }

  lemma {:induction false} StepsGoing(root: Request, s: Sys, pr: Progress, n: nat) returns (pr': Progress)
    requires Going(root, s, pr)
    ensures Going(root, Steps(s, n), pr') && Steps(s, n).l.db == s.l.db
    decreases n
  {
    hide Going, Next;
    if n == 0 || s.l.pending.None? {
      pr' := pr;
      StepsStay(s, n);
    } else {
      var next := NextGoing(root, s, pr);
      pr' := StepsGoing(root, Next(s), next, n - 1);
    }
  }

  lemma {:induction false} StepsStay(s: Sys, n: nat)
    requires n == 0 || s.l.pending.None?
    ensures Steps(s, n) == s
    decreases n
  {
    if n > 0 {
      StepsStay(s, n - 1);
    }
  }

  /** The state right after an accepted `peer_disc_all` or `peer_disc_svc_by_uuid`. */
  function Begin(p: Peer, pools: Pools, db: seq<Svc>, root: Request): Sys {
    var o := Discover(p, pools, root, true, Ok);
    Sys(o.peer, o.pools, Link(db, Some(root), 0))
  }

  /** With a stack that delivers everything and pools that hold everything, discovery comes to an
      end exactly when every service that can hold a characteristic holds one; a service without
      any is asked about for ever. When it ends, the tree is the database, the report is success,
      and the procedures started were those of the plan. */
  lemma {:induction false} CompletesIffPopulated(p: Peer, pools: Pools, db: seq<Svc>, root: Request)
    requires DbWf(db) && IsRoot(root)
    requires Roomy(Goal(db, root), Released(pools, p.svcs), [])
    ensures (exists n :: Steps(Begin(p, pools, db, root), n).l.pending.None?) <==> Populated(Goal(db, root))
    ensures forall n :: Steps(Begin(p, pools, db, root), n).l.pending.None? ==>
      Exact(Goal(db, root), root, Steps(Begin(p, pools, db, root), n).p)
  {
    hide Snapshot, Goal, DbWf, Roomy, Steps, Populated;
    var s := Begin(p, pools, db, root);
    assert Going(root, s, Svcs(0)) by { BeginGoing(p, pools, db, root); }
    forall n | Steps(s, n).l.pending.None?
      ensures Exact(Goal(db, root), root, Steps(s, n).p) && Populated(Goal(db, root))
    {
      var pr := StepsGoing(root, s, Svcs(0), n);
    }
    if Populated(Goal(db, root)) {
      var n := Finishes(Goal(db, root), root, s, Svcs(0), Bound(Goal(db, root), Svcs(0)));
      assert Steps(s, n).l.pending.None?;
    }
  }

  lemma {:induction false} BeginGoing(p: Peer, pools: Pools, db: seq<Svc>, root: Request)
    requires DbWf(db) && IsRoot(root)
    requires Roomy(Goal(db, root), Released(pools, p.svcs), [])
    ensures Going(root, Begin(p, pools, db, root), Svcs(0))
  {
  }

  // ----- pools that are too small

  lemma {:induction false} SoundSent(l: Link, p: Peer)
    requires Sound(l, p) && l.pending.Some?
    ensures l.sent <= |Answer(l.db, l.pending.value)| && (l.pending.value.ChrsIn? ==> p.cur.Some?)
  {
    hide Goal, DbWf, DscPlan, ChrPlan, Exact, Snapshot;
    var root := p.trace[0].req;
    var pr :| SoundAt(Goal(l.db, root), root, p, l, pr);
    GoalWf(l.db, root);
    AnswerAt(l.db, root, p, l, pr);
    CursorPositive(Goal(l.db, root), root, p, l, pr);
  }

  /** What every step keeps, whatever the pools hold. */
  ghost predicate Held(s: Sys, db: seq<Svc>, root: Request, total: Pools) {
    && Sound(s.l, s.p) && s.l.db == db
    && |s.p.trace| > 0 && s.p.trace[0] == Started(root, Ok)
    && Released(s.pools, s.p.svcs) == total
  }

  lemma {:induction false} NextHeld(s: Sys, db: seq<Svc>, root: Request, total: Pools)
    requires Held(s, db, root, total)
    ensures Held(Next(s), db, root, total)
  {
    hide Sound, Callback, Released, Truthful, Answer;
    if s.l.pending.Some? {
      SoundSent(s.l, s.p);
      var e, req := NextEvent(s.l), s.l.pending.value;
      CallbackSound(s.p, s.l, s.pools, e, Ok);
      CallbackConserves(s.p, s.l, s.pools, e, Ok);
      CallbackKeeps(s.p, s.pools, req, e, Ok);
    }
  }

  lemma {:induction false} StepsHeld(s: Sys, n: nat, db: seq<Svc>, root: Request, total: Pools)
    requires Held(s, db, root, total)
    ensures Held(Steps(s, n), db, root, total)
    decreases n
  {
    hide Held, Next;
    if n > 0 {
      NextHeld(s, db, root, total);
      StepsHeld(Next(s), n - 1, db, root, total);
    }
  }

  lemma {:induction false} HeldSuccess(s: Sys, db: seq<Svc>, root: Request, total: Pools)
    requires Held(s, db, root, total) && Succeeded(s.p.trace)
    ensures Populated(Goal(db, root)) && Roomy(Goal(db, root), total, [])
  {
  }

  lemma {:induction false} BeginHeld(p: Peer, pools: Pools, db: seq<Svc>, root: Request)
    requires DbWf(db) && IsRoot(root)
    ensures Held(Begin(p, pools, db, root), db, root, Released(pools, p.svcs))
  {
    DiscoverSound(p, pools, db, root, true, Ok);
  }

  /** With a stack that delivers everything, discovery reports success if and only if every service
      that can hold a characteristic holds one and the pools, with the peer's old tree given back,
      have a block for every node of the database. */
  lemma {:induction false} SucceedsIff(p: Peer, pools: Pools, db: seq<Svc>, root: Request)
    requires DbWf(db) && IsRoot(root)
    ensures (exists n :: Succeeded(Steps(Begin(p, pools, db, root), n).p.trace))
      <==> Populated(Goal(db, root)) && Roomy(Goal(db, root), Released(pools, p.svcs), [])
  {
    hide Goal, DbWf, Roomy, Steps, Populated, Held, Begin, Succeeded, Released;
    var s := Begin(p, pools, db, root);
    BeginHeld(p, pools, db, root);
    forall n | Succeeded(Steps(s, n).p.trace)
      ensures Populated(Goal(db, root)) && Roomy(Goal(db, root), Released(pools, p.svcs), [])
    {
      StepsHeld(s, n, db, root, Released(pools, p.svcs));
      HeldSuccess(Steps(s, n), db, root, Released(pools, p.svcs));
    }
    if Populated(Goal(db, root)) && Roomy(Goal(db, root), Released(pools, p.svcs), []) {
      CompletesIffPopulated(p, pools, db, root);
      var n :| Steps(s, n).l.pending.None?;
      ExactSucceeded(Goal(db, root), root, Steps(s, n).p);
    }
  }

  lemma {:induction false} ExactSucceeded(goal: seq<Svc>, root: Request, p: Peer)
    requires Exact(goal, root, p)
    ensures Succeeded(p.trace)
  {
  }
}
