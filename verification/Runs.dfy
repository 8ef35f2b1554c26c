/** Runs of discovery on one link: which callbacks the stack may deliver, and what every sequence of
    them leads to. Between two callbacks of this link other links may use the pools, so each
    callback comes with its own, arbitrary, number of free blocks. The program may be built with
    assertions, and then stops where one fails, or without. */
module Runs {
  import opened Gatt
  import opened SortedList
  import opened Discovery
  import opened Remote

  /** One callback of the outstanding procedure: status 0 comes with an item. */
  datatype Event = Event(status: Status, item: Option<Item>)

  /** The stack's side of a link: the remote's database, the procedure in progress and how many of
      its items have been delivered. */
  datatype Link = Link(db: seq<Svc>, pending: Option<Request>, sent: nat)

  predicate IsRoot(req: Request) {
    req.AllSvcs? || req.SvcsByUuid?
  }

  /** The item has the type the procedure's callback expects. */
  predicate Fits(req: Request, e: Event) {
    e.status.Ok? ==>
      && e.item.Some?
      && match req
         case ChrsIn(_, _) => e.item.value.ChrItem?
         case DscsIn(_, _) => e.item.value.DscItem?
         case _ => e.item.value.SvcItem?
  }

  /** The callback registered for `req`, with the stack's answer `rc` to what it may start. */
  function Callback(p: Peer, pools: Pools, req: Request, e: Event, rc: Status): Outcome
    requires Fits(req, e)
    requires req.ChrsIn? && e.status.Ok? ==> p.cur.Some?
  {
    match req
    case ChrsIn(_, _) =>
      ChrDisced(p, pools, e.status, if e.status.Ok? then Some(e.item.value.chr) else None, rc)
    case DscsIn(val, _) =>
      DscDisced(p, pools, e.status, val, if e.status.Ok? then Some(e.item.value.dsc) else None, rc)
    case _ =>
      SvcDisced(p, pools, e.status, if e.status.Ok? then Some(e.item.value.svc) else None, rc)
  }

  /** The procedure accepted while `p` became `q`. */
  function NewlyAccepted(p: Peer, q: Peer): Option<Request> {
    var n := |p.trace|;
    if n < |q.trace| && q.trace[n].Started? && q.trace[n].rc.Ok? then Some(q.trace[n].req) else None
  }

  /** A terminator ends the procedure; an item ends it if the callback returned non-zero. */
  function NextPending(p: Peer, req: Request, e: Event, o: Outcome): Option<Request> {
    if !e.status.Ok? then NewlyAccepted(p, o.peer) else if o.rc.Ok? then Some(req) else None
  }

  function NextLink(l: Link, p: Peer, e: Event, o: Outcome): Link
    requires l.pending.Some?
  {
    Link(l.db, NextPending(p, l.pending.value, e, o), if e.status.Ok? then l.sent + 1 else 0)
  }

  // ----- completion is reported once, whatever the stack delivers

  /** Exactly one report, as the last thing that happens, and only once nothing is outstanding. */
  predicate ReportedOnce(p: Peer, pending: Option<Request>) {
    && (p.cb && pending.None? ==> |p.trace| > 0)
    && forall k :: 0 <= k < |p.trace| ==>
         (p.trace[k].Reported? <==> p.cb && pending.None? && k == |p.trace| - 1)
  }

  /** A descriptor procedure for value handle 0, which is not a handle of ATT (Bluetooth Core
      Specification, Vol 3, Part F, section 3.2.2) but is stored unchecked. */
  predicate Unmarked(req: Request) {
    req.DscsIn? && req.val == 0
  }

  /** While a procedure is outstanding nothing has been reported, every start was accepted, and the
      cursor says that discovery goes on, unless it holds value handle 0. */
  predicate Flying(p: Peer, req: Request) {
    && AllAccepted(p.trace)
    && (p.cursor > 0 <==> !Unmarked(req))
    && (req.ChrsIn? ==> p.cur.Some?)
  }

  predicate AllAccepted(trace: seq<Obs>) {
    forall k :: 0 <= k < |trace| ==> trace[k].Started? && trace[k].rc.Ok?
  }

  /** What a finished discovery leaves: accepted starts, then at most one refused start, then the
      report. A refused start is reported with the stack's answer. */
  predicate Closed(trace: seq<Obs>) {
    || AllAccepted(trace)
    || (|trace| >= 1 && AllAccepted(trace[..|trace| - 1]))
    || (|trace| >= 2 && AllAccepted(trace[..|trace| - 2])
        && trace[|trace| - 2].Started? && trace[|trace| - 1] == Reported(trace[|trace| - 2].rc))
  }

  datatype Input = Input(e: Event, rc: Status, pools: Pools)

  predicate Deliverable(p: Peer, req: Request, e: Event) {
    Fits(req, e) && (req.ChrsIn? && e.status.Ok? ==> p.cur.Some?)
  }

  /** What the source asserts about an item delivered for `p` in answer to `req`. */
  predicate OwnersFound(p: Peer, req: Request) {
    match req
    case ChrsIn(_, _) => p.cur.Some? && Find(Starts(p.svcs), p.cur.value).Some?
    case DscsIn(val, _) =>
      && FindRange(p.svcs, val).Some?
      && Find(Vals(p.svcs[FindRange(p.svcs, val).value].chrs), val).Some?
    case _ => true
  }

  /** The callback comes to an assertion that fails, before it changes anything. */
  predicate Fails(p: Peer, req: Request, e: Event) {
    e.status.Ok? && !OwnersFound(p, req)
  }

  /** Without assertions such a callback answers, and reports, that something is unknown; no other
      item leads to that answer. */
  lemma {:induction false} UnknownIff(p: Peer, pools: Pools, req: Request, e: Event, rc: Status)
    requires Deliverable(p, req, e) && e.status.Ok?
    ensures Callback(p, pools, req, e, rc).rc == EUnknown <==> Fails(p, req, e)
  {
  }

  /** The peer and the outstanding procedure after a sequence of callbacks; `None` if the sequence
      is not one the stack may produce: a callback with nothing outstanding or of the wrong type.
      A program built with assertions stops at the first that fails: nothing is outstanding then,
      and nothing follows. */
  function Run(asserts: bool, p: Peer, pending: Option<Request>, ins: seq<Input>): Option<(Peer, Option<Request>)> {
    if ins == [] then Some((p, pending))
    else
      var last := ins[|ins| - 1];
      match Run(asserts, p, pending, ins[..|ins| - 1])
      case Some((q, Some(req))) =>
        if !Deliverable(q, req, last.e) then None
        else if asserts && Fails(q, req, last.e) then Some((q, None))
        else
          var o := Callback(q, last.pools, req, last.e, last.rc);
          Some((o.peer, NextPending(q, req, last.e, o)))
      case _ => None
  }

  /** The terminator of a procedure for value handle 0: the callback takes it for the end of a
      discovery that is already over. */
  predicate Stalls(req: Request, e: Event) {
    e.status.EDone? && Unmarked(req)
  }

  /** The descriptor procedure the peer would start next. */
  function NextDscs(p: Peer): Option<Request> {
    match Scan(p.svcs, Positions(p.svcs), p.cursor)
    case None => None
    case Some(k) =>
      var pos := Positions(p.svcs)[k];
      Some(DscsIn(At(p.svcs, pos).decl.val, EndAt(p.svcs, pos)))
  }

  /** The stack refuses to start a descriptor procedure, other than one for value handle 0. */
  predicate RefusesDscs(p: Peer, req: Request, e: Event, rc: Status) {
    && e.status.EDone? && !Unmarked(req) && !rc.Ok?
    && (req.DscsIn? || FirstOpen(p.svcs).None?)
    && NextDscs(p).Some? && !Unmarked(NextDscs(p).value)
  }

  // ----- the ways a callback can go

  /** A trace that goes on with an accepted procedure, or ends with the report. */
  lemma {:induction false} GrantedStart(p: Peer, q: Peer, req: Request)
    requires AllAccepted(p.trace) && q.cb == p.cb && q.trace == Start(p, req, Ok).trace
    ensures AllAccepted(q.trace) && NewlyAccepted(p, q) == Some(req)
  {
  }

  lemma {:induction false} CompletedRun(p: Peer, q: Peer, status: Status)
    requires AllAccepted(p.trace) && q.cb == p.cb && q.trace == Complete(p, status).trace
    ensures ReportedOnce(q, None) && Closed(q.trace) && NewlyAccepted(p, q) == None
  {
  }

  lemma {:induction false} RefusedStart(p: Peer, q: Peer, req: Request, rc: Status)
    requires AllAccepted(p.trace) && !rc.Ok? && q.cb == p.cb
    requires q.trace == Complete(Start(p, req, rc), rc).trace
    ensures ReportedOnce(q, None) && Closed(q.trace) && NewlyAccepted(p, q) == None
  {
  }

  /** What holds after a callback, `stalls` and `refuses` telling the two exceptions. */
  predicate Landed(q: Peer, pending: Option<Request>, stalls: bool, refuses: bool) {
    && (pending.Some? ==> Flying(q, pending.value) && !stalls && !refuses)
    && (pending.None? ==>
          && Closed(q.trace)
          && (ReportedOnce(q, None) <==> !(q.cb && stalls))
          && (q.cursor == 0 <==> !refuses))
  }

  lemma {:induction false} DiscDscsLands(p: Peer, rc: Status)
    requires AllAccepted(p.trace)
    ensures var q := DiscDscs(p, rc);
      Landed(q, NewlyAccepted(p, q), false, !rc.Ok? && NextDscs(p).Some? && !Unmarked(NextDscs(p).value))
  {
    hide ReportedOnce, NewlyAccepted, AllAccepted, Closed;
    var q := DiscDscs(p, rc);
    match NextDscs(p)
    case None => CompletedRun(p, q, Ok);
    case Some(req) =>
      if rc.Ok? {
        GrantedStart(p, q, req);
      } else {
        RefusedStart(p, q, req, rc);
      }
  }

  lemma {:induction false} DiscChrsLands(p: Peer, rc: Status)
    requires AllAccepted(p.trace) && p.cursor > 0
    ensures var q := DiscChrs(p, rc);
      Landed(q, NewlyAccepted(p, q), false,
             !rc.Ok? && FirstOpen(p.svcs).None? && NextDscs(p).Some? && !Unmarked(NextDscs(p).value))
  {
    hide ReportedOnce, NewlyAccepted, AllAccepted, Closed, DiscDscs, NextDscs;
    var q := DiscChrs(p, rc);
    match FirstOpen(p.svcs)
    case None => DiscDscsLands(p, rc);
    case Some(i) =>
      var g := p.svcs[i].decl;
      if rc.Ok? {
        GrantedStart(p, q, ChrsIn(g.start, g.end));
      } else {
        RefusedStart(p, q, ChrsIn(g.start, g.end), rc);
      }
  }

  lemma {:induction false} AddsKeep(p: Peer, pools: Pools, start: uint16, val: uint16, s: GattSvc, c: GattChr,
                                    d: GattDsc)
    ensures var q := SvcAdd(p, pools, s).peer; q == p.(svcs := q.svcs)
    ensures var q := ChrAdd(p, pools, start, c).peer; q == p.(svcs := q.svcs)
    ensures var q := DscAdd(p, pools, val, d).peer; q == p.(svcs := q.svcs)
  {
    hide Find, FindRange, LinkAfter;
  }

  lemma {:induction false} AddLands(p: Peer, req: Request, o: Outcome)
    requires Flying(p, req) && o.peer == p.(svcs := o.peer.svcs)
    ensures Landed(Finish(o).peer, if o.rc.Ok? then Some(req) else None, false, false)
  {
    hide Closed;
    if !o.rc.Ok? {
      CompletedRun(p, Finish(o).peer, o.rc);
    }
  }

  lemma {:induction false} ItemLands(p: Peer, pools: Pools, req: Request, e: Event, rc: Status)
    requires Flying(p, req) && Deliverable(p, req, e) && e.status.Ok?
    ensures var o := Callback(p, pools, req, e, rc); Landed(o.peer, NextPending(p, req, e, o), false, false)
  {
    hide Landed, Flying, SvcAdd, ChrAdd, DscAdd;
    match e.item.value
    case SvcItem(g) =>
      AddsKeep(p, pools, 0, 0, g, GattChr(0, 0, 0, g.uuid), GattDsc(0, g.uuid));
      AddLands(p, req, SvcAdd(p, pools, g));
    case ChrItem(g) =>
      AddsKeep(p, pools, p.cur.value, 0, GattSvc(0, 0, g.uuid), g, GattDsc(0, g.uuid));
      AddLands(p, req, ChrAdd(p, pools, p.cur.value, g));
    case DscItem(g) =>
      AddsKeep(p, pools, 0, req.val, GattSvc(0, 0, g.uuid), GattChr(0, 0, 0, g.uuid), g);
      AddLands(p, req, DscAdd(p, pools, req.val, g));
  }

  lemma {:induction false} StallLands(p: Peer, req: Request)
    requires Flying(p, req) && Unmarked(req)
    ensures NewlyAccepted(p, p) == None && Landed(p, None, true, false)
  {
    assert p.trace != [] ==> p.trace[|p.trace| - 1].Started?;
  }

  lemma {:induction false} CallbackLands(p: Peer, pools: Pools, req: Request, e: Event, rc: Status)
    requires Flying(p, req) && Deliverable(p, req, e)
    ensures var o := Callback(p, pools, req, e, rc);
      Landed(o.peer, NextPending(p, req, e, o), Stalls(req, e), RefusesDscs(p, req, e, rc))
  {
    hide Landed, DiscDscs, DiscChrs, NextDscs, FirstOpen, SvcAdd, ChrAdd, DscAdd, NewlyAccepted, AllAccepted;
    if e.status.Ok? {
      ItemLands(p, pools, req, e, rc);
    } else if !e.status.EDone? {
      FailureLands(p, req, e.status);
    } else if Unmarked(req) {
      StallLands(p, req);
    } else {
      DiscDscsLands(p, rc);
      DiscChrsLands(p, rc);
    }
  }

  lemma {:induction false} FailureLands(p: Peer, req: Request, status: Status)
    requires Flying(p, req)
    ensures NewlyAccepted(p, Complete(p, status)) == None && Landed(Complete(p, status), None, false, false)
  {
    hide Closed;
    CompletedRun(p, Complete(p, status), status);
  }

  // ----- runs

  /** The last callback of a run, and the state it found. */
  predicate LastStalls(asserts: bool, p: Peer, root: Request, ins: seq<Input>) {
    ins != [] && match Run(asserts, p, Some(root), ins[..|ins| - 1])
      case Some((_, Some(req))) => Stalls(req, ins[|ins| - 1].e)
      case _ => false
  }

  predicate LastFails(asserts: bool, p: Peer, root: Request, ins: seq<Input>) {
    asserts && ins != [] && match Run(asserts, p, Some(root), ins[..|ins| - 1])
      case Some((q, Some(req))) => Fails(q, req, ins[|ins| - 1].e)
      case _ => false
  }

  predicate LastRefusesDscs(asserts: bool, p: Peer, root: Request, ins: seq<Input>) {
    ins != [] && match Run(asserts, p, Some(root), ins[..|ins| - 1])
      case Some((q, Some(req))) => RefusesDscs(q, req, ins[|ins| - 1].e, ins[|ins| - 1].rc)
      case _ => false
  }

  /** The program has stopped at an assertion: the starts so far were accepted, nothing was reported. */
  predicate Stopped(q: Peer, pending: Option<Request>) {
    pending.None? && AllAccepted(q.trace)
  }

  lemma {:induction false} RunLands(asserts: bool, p: Peer, root: Request, ins: seq<Input>)
    requires Flying(p, root) && Run(asserts, p, Some(root), ins).Some?
    ensures var (q, pending) := Run(asserts, p, Some(root), ins).value;
      if LastFails(asserts, p, root, ins) then Stopped(q, pending)
      else Landed(q, pending, LastStalls(asserts, p, root, ins), LastRefusesDscs(asserts, p, root, ins))
    decreases |ins|
  {
    hide Flying, Landed, Stalls, Fails, RefusesDscs, Callback, NextPending, Stopped;
    if ins == [] {
      StillFlying(p, root);
    } else {
      var front, last := ins[..|ins| - 1], ins[|ins| - 1];
      RunLands(asserts, p, root, front);
      var (q, pending) := Run(asserts, p, Some(root), front).value;
      NotStopped(q, pending.value);
      LandedFlying(q, pending.value, LastStalls(asserts, p, root, front), LastRefusesDscs(asserts, p, root, front));
      if LastFails(asserts, p, root, ins) {
        FlyingStopped(q, pending.value);
      } else {
        CallbackLands(q, last.pools, pending.value, last.e, last.rc);
      }
    }
  }

  lemma {:induction false} NotStopped(q: Peer, req: Request)
    ensures !Stopped(q, Some(req))
  {
  }

  lemma {:induction false} FlyingStopped(q: Peer, req: Request)
    requires Flying(q, req)
    ensures Stopped(q, None)
  {
  }

  lemma {:induction false} StillFlying(p: Peer, req: Request)
    requires Flying(p, req)
    ensures Landed(p, Some(req), false, false)
  {
  }

  lemma {:induction false} LandedFlying(q: Peer, req: Request, stalls: bool, refuses: bool)
    requires Landed(q, Some(req), stalls, refuses)
    ensures Flying(q, req)
  {
  }

  /** Every run of an accepted discovery, with arbitrary items, errors, refusals and exhausted pools:
      while a procedure is outstanding nothing has been reported; once none is there is exactly one
      report, after which no procedure was started, if and only if the run did not end with "done"
      for a descriptor procedure of value handle 0 and was not stopped by an assertion. Then there
      is none. */
  lemma {:induction false} CompletionReportedOnce(asserts: bool, p0: Peer, pools: Pools, root: Request, cb: bool,
                                                  ins: seq<Input>)
    requires IsRoot(root)
    ensures var p := Discover(p0, pools, root, cb, Ok).peer;
      var silent := LastStalls(asserts, p, root, ins) || LastFails(asserts, p, root, ins);
      match Run(asserts, p, Some(root), ins)
      case None => true
      case Some((q, pending)) =>
        && (ReportedOnce(q, pending) <==> !(q.cb && silent))
        && (silent ==> pending.None? && AllAccepted(q.trace))
  {
    hide Run, Landed, LastStalls, LastFails, LastRefusesDscs, ReportedOnce, Stopped, AllAccepted;
    var p := Discover(p0, pools, root, cb, Ok).peer;
    match Run(asserts, p, Some(root), ins)
    case None =>
    case Some((q, pending)) =>
      BegunFlying(p0, pools, root, cb);
      RunLands(asserts, p, root, ins);
      if LastFails(asserts, p, root, ins) {
        StoppedSilent(q, pending);
      } else {
        LandedReported(q, pending, LastStalls(asserts, p, root, ins), LastRefusesDscs(asserts, p, root, ins));
        if LastStalls(asserts, p, root, ins) {
          StalledSilent(asserts, p, root, ins);
        }
      }
  }

  lemma {:induction false} BegunFlying(p0: Peer, pools: Pools, root: Request, cb: bool)
    requires IsRoot(root)
    ensures var p := Discover(p0, pools, root, cb, Ok).peer; Flying(p, root)
  {
  }

  lemma {:induction false} StoppedSilent(q: Peer, pending: Option<Request>)
    requires Stopped(q, pending)
    ensures pending.None? && AllAccepted(q.trace) && (ReportedOnce(q, pending) <==> !q.cb)
  {
    assert q.trace != [] ==> q.trace[|q.trace| - 1].Started?;
  }

  lemma {:induction false} LandedReported(q: Peer, pending: Option<Request>, stalls: bool, refuses: bool)
    requires Landed(q, pending, stalls, refuses)
    ensures ReportedOnce(q, pending) <==> !(q.cb && stalls)
  {
  }

  lemma {:induction false} StalledSilent(asserts: bool, p: Peer, root: Request, ins: seq<Input>)
    requires Flying(p, root) && Run(asserts, p, Some(root), ins).Some?
    requires LastStalls(asserts, p, root, ins)
    ensures var (q, pending) := Run(asserts, p, Some(root), ins).value; pending.None? && AllAccepted(q.trace)
  {
    hide Landed, Stopped;
    var front, last := ins[..|ins| - 1], ins[|ins| - 1];
    RunLands(asserts, p, root, front);
    var (q, pending) := Run(asserts, p, Some(root), front).value;
    NotStopped(q, pending.value);
    LandedFlying(q, pending.value, LastStalls(asserts, p, root, front), LastRefusesDscs(asserts, p, root, front));
    StallLands(q, pending.value);
  }

  /** When such a discovery ends the cursor is 0 if and only if it did not end because the stack
      refused to start a descriptor procedure: then the cursor is set again after the report. */
  lemma {:induction false} CursorZeroIff(asserts: bool, p0: Peer, pools: Pools, root: Request, cb: bool,
                                         ins: seq<Input>)
    requires IsRoot(root)
    ensures var p := Discover(p0, pools, root, cb, Ok).peer;
      match Run(asserts, p, Some(root), ins)
      case Some((q, None)) =>
        LastFails(asserts, p, root, ins) || (q.cursor == 0 <==> !LastRefusesDscs(asserts, p, root, ins))
      case _ => true
  {
    hide Run, LastStalls, LastFails, LastRefusesDscs, Closed, Flying, Stopped;
    var p := Discover(p0, pools, root, cb, Ok).peer;
    if Run(asserts, p, Some(root), ins).Some? {
      BegunFlying(p0, pools, root, cb);
      RunLands(asserts, p, root, ins);
    }
  }

  // ----- with valid handles no run stalls

  predicate ValsPositive(svcs: seq<Svc>) {
    forall i, j :: 0 <= i < |svcs| && 0 <= j < |svcs[i].chrs| ==> svcs[i].chrs[j].decl.val > 0
  }

  predicate ValidHandles(ins: seq<Input>) {
    forall k :: 0 <= k < |ins| && ins[k].e.item.Some? && ins[k].e.item.value.ChrItem? ==>
      ins[k].e.item.value.chr.val > 0
  }

  predicate Marked(q: Peer, pending: Option<Request>) {
    ValsPositive(q.svcs) && (pending.Some? ==> !Unmarked(pending.value))
  }

  lemma {:induction false} SvcAddPositive(p: Peer, pools: Pools, g: GattSvc)
    requires ValsPositive(p.svcs)
    ensures ValsPositive(SvcAdd(p, pools, g).peer.svcs)
  {
  }

  lemma {:induction false} ChrAddPositive(p: Peer, pools: Pools, start: uint16, g: GattChr)
    requires ValsPositive(p.svcs) && g.val > 0
    ensures ValsPositive(ChrAdd(p, pools, start, g).peer.svcs)
  {
  }

  lemma {:induction false} DscAddPositive(p: Peer, pools: Pools, val: uint16, g: GattDsc)
    requires ValsPositive(p.svcs)
    ensures ValsPositive(DscAdd(p, pools, val, g).peer.svcs)
  {
  }

  lemma {:induction false} DiscMarked(p: Peer, rc: Status)
    requires ValsPositive(p.svcs)
    ensures var q := DiscDscs(p, rc); Marked(q, NewlyAccepted(p, q))
    ensures var q := DiscChrs(p, rc); Marked(q, NewlyAccepted(p, q))
  {
    hide ValsPositive, FirstOpen, NextDscs, DiscDscs;
    NextMarked(p);
    DscsMarked(p, rc);
  }

  lemma {:induction false} DscsMarked(p: Peer, rc: Status)
    requires NextDscs(p).Some? ==> !Unmarked(NextDscs(p).value)
    ensures var q := DiscDscs(p, rc);
      q.svcs == p.svcs && (NewlyAccepted(p, q).Some? ==> !Unmarked(NewlyAccepted(p, q).value))
  {
  }

  lemma {:induction false} NextMarked(p: Peer)
    requires ValsPositive(p.svcs)
    ensures NextDscs(p).Some? ==> !Unmarked(NextDscs(p).value)
  {
  }

  lemma {:induction false} CallbackMarked(p: Peer, pools: Pools, req: Request, e: Event, rc: Status)
    requires Marked(p, Some(req)) && Deliverable(p, req, e) && ValidHandles([Input(e, rc, pools)])
    ensures var o := Callback(p, pools, req, e, rc); Marked(o.peer, NextPending(p, req, e, o))
  {
    hide ValsPositive, DiscDscs, DiscChrs, SvcAdd, ChrAdd, DscAdd;
    var here := [Input(e, rc, pools)];
    assert here[0].e == e;
    DiscMarked(p, rc);
    if e.status.Ok? {
      match e.item.value
      case SvcItem(g) => SvcAddPositive(p, pools, g);
      case ChrItem(g) => ChrAddPositive(p, pools, p.cur.value, g);
      case DscItem(g) => DscAddPositive(p, pools, req.val, g);
    }
  }

  lemma {:induction false} RunMarked(asserts: bool, p: Peer, root: Request, ins: seq<Input>)
    requires Marked(p, Some(root)) && ValidHandles(ins) && Run(asserts, p, Some(root), ins).Some?
    ensures var (q, pending) := Run(asserts, p, Some(root), ins).value; Marked(q, pending)
    decreases |ins|
  {
    hide Marked, Callback, NextPending, Fails;
    if ins != [] {
      var front, last := ins[..|ins| - 1], ins[|ins| - 1];
      RunMarked(asserts, p, root, front);
      var (q, pending) := Run(asserts, p, Some(root), front).value;
      MarkedAnyway(q, pending);
      CallbackMarked(q, last.pools, pending.value, last.e, last.rc);
    }
  }

  lemma {:induction false} MarkedAnyway(q: Peer, pending: Option<Request>)
    requires Marked(q, pending)
    ensures Marked(q, None)
  {
  }

  /** As long as no characteristic with value handle 0 is delivered, every run that no assertion stops
      reports exactly once. */
  lemma {:induction false} ReportedOnceOnValidHandles(asserts: bool, p0: Peer, pools: Pools, root: Request, cb: bool,
                                                      ins: seq<Input>)
    requires IsRoot(root) && ValidHandles(ins)
    requires Run(asserts, Discover(p0, pools, root, cb, Ok).peer, Some(root), ins).Some?
    ensures var p := Discover(p0, pools, root, cb, Ok).peer;
      var (q, pending) := Run(asserts, p, Some(root), ins).value;
      ReportedOnce(q, pending) <==> !(q.cb && LastFails(asserts, p, root, ins))
  {
    hide ReportedOnce, AllAccepted, Fails;
    var p := Discover(p0, pools, root, cb, Ok).peer;
    CompletionReportedOnce(asserts, p0, pools, root, cb, ins);
    if ins != [] {
      RunMarked(asserts, p, root, ins[..|ins| - 1]);
    }
  }
}
