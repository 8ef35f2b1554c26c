/** The writes over whole runs: which events they follow, and what they are. */
module WriteLog {
  import opened Gatt
  import opened SortedList
  import opened Remote
  import opened PeerTable
  import opened Subscription
  import opened Gap

  /** What the completion callback writes if the event leads to a success report: the descriptors of
      the tree as it is then. */
  function EventWrites(c: Central, ev: GapEvent): seq<Write> {
    if !ev.GattEvent? then []
    else
      var p, q := Lookup(c.w.t, ev.h), Lookup(Handle(c, ev).w.t, ev.h);
      if p.Some? && q.Some? && NewReport(p.value, q.value) == Some(Ok)
      then WritesTo(q.value.conn, Writes(q.value.svcs))
      else []
  }

  /** The writes that should follow the `k`-th event: if it is the callback after which discovery on
      its link has succeeded, those the database of the remote asks for. */
  function SuccessWrites(caps: Caps, camera: Pair, evs: seq<GapEvent>, k: nat): seq<Write>
    requires k < |evs|
  {
    var c, h := Moment(caps, camera, evs, k + 1), evs[k].h;
    if evs[k].GattEvent? && SucceededOn(c, h) then WritesTo(h, Writes(c.w.links[h].db)) else []
  }

  /** The writes that should be made during the first `n` events. */
  function SuccessLog(caps: Caps, camera: Pair, evs: seq<GapEvent>, n: nat): seq<Write>
    requires n <= |evs|
  {
    if n == 0 then [] else SuccessLog(caps, camera, evs, n - 1) + SuccessWrites(caps, camera, evs, n - 1)
  }

  /** In every run an event leads to writes if and only if discovery on its link has succeeded with
      it; then the handles written to are those of the remote's database, in ascending order. */
  lemma {:induction false} WritesFollowSuccess(caps: Caps, camera: Pair, evs: seq<GapEvent>, k: nat)
    requires AllAllowed(Start(caps, camera), evs) && k < |evs|
    ensures EventWrites(Moment(caps, camera, evs, k), evs[k]) == SuccessWrites(caps, camera, evs, k)
    ensures var c, h := Moment(caps, camera, evs, k + 1), evs[k].h;
      SucceededOn(c, h) ==> Ascending(Writes(c.w.links[h].db))
    ensures forall a :: 0 <= a < |SuccessWrites(caps, camera, evs, k)| ==>
      && SuccessWrites(caps, camera, evs, k)[a].conn == evs[k].h
      && SuccessWrites(caps, camera, evs, k)[a].value == 0x10
  {
    hide Allowed, Handle, Orderly, Moment, NewReport, SucceededOn;
    var c, ev := Moment(caps, camera, evs, k), evs[k];
    var c' := Moment(caps, camera, evs, k + 1);
    NextMoment(caps, camera, evs, k);
    HandleOrderly(c, caps, ev);
    SucceededIs(c', caps, ev.h);
    if ev.GattEvent? {
      NewSuccess(c, caps, ev);
    }
  }

  lemma {:induction false} SucceededIs(c: Central, caps: Caps, h: uint16)
    requires Orderly(c, caps)
    ensures SucceededOn(c, h) ==>
      && h in c.w.links && Lookup(c.w.t, h).Some? && Lookup(c.w.t, h).value.conn == h
      && Lookup(c.w.t, h).value.svcs == c.w.links[h].db && DbWf(c.w.links[h].db)
      && Ascending(Writes(c.w.links[h].db))
  {
    hide Inv, Ascending;
    if SucceededOn(c, h) {
      SuccessIsDatabase(c, caps, h);
      WritesAscend(c.w.links[h].db);
    }
  }

  /** A callback reports success if and only if discovery has succeeded after it: it had not before. */
  lemma {:induction false} NewSuccess(c: Central, caps: Caps, ev: GapEvent)
    requires Orderly(c, caps) && ev.GattEvent? && Allowed(c, ev)
    ensures var p, q := Lookup(c.w.t, ev.h), Lookup(Handle(c, ev).w.t, ev.h);
      && p.Some? && q.Some?
      && (NewReport(p.value, q.value) == Some(Ok) <==> SucceededOn(Handle(c, ev), ev.h))
  {
    hide Inv, Exec, Lookup;
    LinksAfter(c.w, caps, ActionOf(ev));
    PeerAfter(c.w, caps, ActionOf(ev));
    var p, q := Lookup(c.w.t, ev.h).value, Lookup(Handle(c, ev).w.t, ev.h).value;
    assert |p.trace| == |q.trace| ==> p.trace == q.trace;
  }
}
