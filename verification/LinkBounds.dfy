/** How many callbacks one discovery takes while any number of other links go about theirs. */
module LinkBounds {
  import opened Gatt
  import opened Discovery
  import opened Remote
  import opened Snapshots
  import opened Runs
  import opened Exactness
  import opened PeerTable
  import opened Procedures
  import opened Termination

  /** The callbacks delivered on the link of `h`. */
  function Deliveries(acts: seq<Action>, h: uint16): nat
    decreases |acts|
  {
    if acts == [] then 0
    else (if acts[0].Deliver? && acts[0].h == h then 1 else 0) + Deliveries(acts[1..], h)
  }

  predicate NoneBegins(acts: seq<Action>, h: uint16) {
    forall k :: 0 <= k < |acts| ==> !(acts[k].Begin? && acts[k].h == h)
  }

  /** At most `left` more callbacks, at the stage `pr` of discovering `goal`. */
  predicate LeftAt(goal: seq<Svc>, root: Request, p: Peer, l: Link, pr: Progress, left: nat) {
    SoundAt(goal, root, p, l, pr) && Left(goal, pr) <= left
  }

  /** While a procedure is outstanding on the link of `h`, discovery has at most `left` callbacks to go. */
  ghost predicate Remaining(w: World, h: uint16, left: nat) {
    h in w.links && w.links[h].pending.Some? ==>
      && Lookup(w.t, h).Some? && DbWf(w.links[h].db)
      && exists root, pr :: LeftOn(w.links[h], Lookup(w.t, h).value, root, pr, left)
  }

  predicate LeftOn(l: Link, p: Peer, root: Request, pr: Progress, left: nat) {
    IsRoot(root) && Populated(Goal(l.db, root)) && LeftAt(Goal(l.db, root), root, p, l, pr, left)
  }

  lemma {:induction false} DeliverCounts(w: World, caps: Caps, h: uint16, e: Event, rc: Status, left: nat)
    requires Inv(w, caps) && Enabled(w, Deliver(h, e, rc)) && Remaining(w, h, left)
    ensures left >= 1 && Remaining(Exec(w, Deliver(h, e, rc)), h, left - 1)
  {
    hide Inv, Exec, SoundAt, Callback, Truthful, Goal, Populated, DbWf, Left, Sound;
    var i := Delivered(w, caps, h, e, rc);
    var l, p := w.links[h], w.t.peers[i];
    var root, pr :| LeftOn(l, p, root, pr, left);
    var pr' := DeliveryProgress(root, p, l, w.t.pools, e, rc, pr);
    var o := Callback(p, w.t.pools, l.pending.value, e, rc);
    if NextPending(p, l.pending.value, e, o).Some? {
      assert LeftOn(NextLink(l, p, e, o), o.peer, root, pr', left - 1);
    }
  }

  lemma {:induction false} ActionKeeps(w: World, caps: Caps, a: Action, h: uint16, left: nat)
    requires Inv(w, caps) && Enabled(w, a) && Remaining(w, h, left)
    requires !(a.Begin? && a.h == h) && !(a.Deliver? && a.h == h)
    ensures Remaining(Exec(w, a), h, left)
  {
    hide LeftOn, DbWf, Sound, Callback, Truthful, NextLink;
    InvFacts(w, caps);
    if a.h != h {
      OthersUntouched(w, a, h);
      if h in Exec(w, a).links {
        LinkUntouched(w, a, h);
      }
    } else if a.Add? {
      LookupAfterAdd(w.t, h, h);
    }
  }

  lemma {:induction false} RunCounts(w: World, caps: Caps, acts: seq<Action>, h: uint16, left: nat)
    requires Inv(w, caps) && PeerTable.Legal(w, acts) && NoneBegins(acts, h) && Remaining(w, h, left)
    ensures Deliveries(acts, h) <= left
    decreases |acts|
  {
    hide Inv, Exec, Enabled, Remaining;
    if acts != [] {
      var a, rest := acts[0], acts[1..];
      InvStep(w, caps, a);
      if a.Deliver? && a.h == h {
        DeliverCounts(w, caps, h, a.e, a.rc, left);
        RunCounts(Exec(w, a), caps, rest, h, left - 1);
      } else {
        ActionKeeps(w, caps, a, h, left);
        RunCounts(Exec(w, a), caps, rest, h, left);
      }
    }
  }

  lemma {:induction false} BeginRemaining(w: World, caps: Caps, h: uint16, root: Request, cb: bool, rc: Status)
    requires Inv(w, caps) && Enabled(w, Begin(h, root, cb, rc))
    requires h in w.links && Populated(Goal(w.links[h].db, root))
    ensures Remaining(Exec(w, Begin(h, root, cb, rc)), h, Callbacks(Goal(w.links[h].db, root)))
  {
    hide DbWf, Goal, Populated, Released, Left, SoundAt;
    InvFacts(w, caps);
    var l, i := w.links[h], IndexOfPeer(w.t.peers, h).value;
    var o := Discover(w.t.peers[i], w.t.pools, root, cb, rc);
    LookupAfterUpdate(w.t, i, o.peer, h, o.pools);
    if rc.Ok? {
      BegunAt(w.t.peers[i], w.t.pools, l.db, root, cb);
      AllLeft(Goal(l.db, root));
      assert LeftOn(Link(l.db, Some(root), 0), o.peer, root, Svcs(0), Callbacks(Goal(l.db, root)));
    }
  }

  lemma {:induction false} AllLeft(goal: seq<Svc>)
    ensures InGoal(goal, Svcs(0)) && Left(goal, Svcs(0)) == Callbacks(goal)
  {
  }

  /** Between the start of a discovery on a link and the next on it, whatever happens on this link and
      on the others, there are at most as many callbacks on it as the discovery has items and
      procedures. */
  lemma {:induction false} DeliveriesOnLink(caps: Caps, acts: seq<Action>, h: uint16, root: Request, cb: bool,
                                            rc: Status, more: seq<Action>)
    requires PeerTable.Legal(Empty(caps), acts)
    requires PeerTable.Legal(ExecAll(Empty(caps), acts), [Begin(h, root, cb, rc)] + more)
    requires NoneBegins(more, h)
    requires var w := ExecAll(Empty(caps), acts);
      h in w.links && Populated(Goal(w.links[h].db, root))
    ensures Deliveries(more, h) <= Callbacks(Goal(ExecAll(Empty(caps), acts).links[h].db, root))
  {
    hide Inv, Exec, Enabled, Remaining, Goal, Populated, ExecAll;
    var w, all := ExecAll(Empty(caps), acts), [Begin(h, root, cb, rc)] + more;
    assert all[0] == Begin(h, root, cb, rc) && all[1..] == more;
    RunsKeepInv(caps, acts);
    InvStep(w, caps, all[0]);
    BeginRemaining(w, caps, h, root, cb, rc);
    RunCounts(Exec(w, all[0]), caps, more, h, Callbacks(Goal(w.links[h].db, root)));
  }
}
