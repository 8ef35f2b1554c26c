/** What every event does to the camera record, and what the record holds after every run. */
module CameraRecord {
  import opened Gatt
  import opened PeerTable
  import opened Subscription
  import opened Gap
  import opened WriteLog

  /** The event was a callback, discovery on its link has succeeded in the state `c` after it, and the
      remote's database has a command characteristic. */
  ghost predicate FindsCommand(c: Central, ev: GapEvent) {
    && ev.GattEvent? && SucceededOn(c, ev.h)
    && exists pos :: InTree(c.w.links[ev.h].db, pos) && IsCommand(c.w.links[ev.h].db, pos)
  }

  /** The connection handle changes with a link that is established, and with nothing else. The command
      handle becomes the least of the database with an event that finds one, and changes with nothing
      else: not with a link that comes up or goes down, a discovery that starts or fails, or one that
      succeeds without a command characteristic. */
  lemma {:induction false} RecordAfter(c: Central, caps: Caps, ev: GapEvent)
    requires Orderly(c, caps) && Allowed(c, ev)
    ensures var c' := Handle(c, ev);
      && c'.camera.connection == (if ev.LinkEstab? && ev.status.Ok? then ev.h else c.camera.connection)
      && (FindsCommand(c', ev) ==> LeastCommand(c'.w.links[ev.h].db, c'.camera.command))
      && (!FindsCommand(c', ev) ==> c'.camera.command == c.camera.command)
  {
    hide Inv, Exec, Orderly, Allowed, Lookup, CommandHandle, LeastCommand, IsCommand, SucceededOn;
    if ev.GattEvent? {
      GattRecord(c, caps, ev);
    }
  }

  lemma {:induction false} GattRecord(c: Central, caps: Caps, ev: GapEvent)
    requires Orderly(c, caps) && Allowed(c, ev) && ev.GattEvent?
    ensures var c' := Handle(c, ev);
      && c'.camera.connection == c.camera.connection
      && (FindsCommand(c', ev) ==> LeastCommand(c'.w.links[ev.h].db, c'.camera.command))
      && (!FindsCommand(c', ev) ==> c'.camera.command == c.camera.command)
  {
    hide Inv, Exec, Orderly, Allowed, Lookup, CommandHandle, LeastCommand, IsCommand, SucceededOn, NewReport;
    var c' := Handle(c, ev);
    HandleOrderly(c, caps, ev);
    NewSuccess(c, caps, ev);
    if SucceededOn(c', ev.h) {
      SucceededIs(c', caps, ev.h);
      var db := c'.w.links[ev.h].db;
      CommandHandleIsLeast(db, if CommandHandle(db).Some? then CommandHandle(db).value else 0);
    }
  }

  // ----- over whole runs

  ghost predicate FindsCommandAt(caps: Caps, camera: Pair, evs: seq<GapEvent>, k: nat)
    requires k < |evs|
  {
    FindsCommand(Moment(caps, camera, evs, k + 1), evs[k])
  }

  lemma {:induction false} CommandStays(caps: Caps, camera: Pair, evs: seq<GapEvent>, m: nat, n: nat)
    requires AllAllowed(Start(caps, camera), evs) && m <= n <= |evs|
    requires forall j :: m <= j < n ==> !FindsCommandAt(caps, camera, evs, j)
    ensures Moment(caps, camera, evs, n).camera.command == Moment(caps, camera, evs, m).camera.command
  {
    hide Moment, Handle, Orderly, Allowed, FindsCommand;
    if m < n {
      CommandStays(caps, camera, evs, m, n - 1);
      NextMoment(caps, camera, evs, n - 1);
      assert !FindsCommandAt(caps, camera, evs, n - 1);
      RecordAfter(Moment(caps, camera, evs, n - 1), caps, evs[n - 1]);
    }
  }

  /** After every run the command handle is the one found by the last event that found one, for the
      database that event was about, and the first value there was if none did. */
  lemma {:induction false} CommandIsLastFound(caps: Caps, camera: Pair, evs: seq<GapEvent>, k: nat)
    requires AllAllowed(Start(caps, camera), evs)
    ensures var c := Run(Start(caps, camera), evs);
      && (k < |evs| && FindsCommandAt(caps, camera, evs, k)
          && (forall j :: k < j < |evs| ==> !FindsCommandAt(caps, camera, evs, j)) ==>
            LeastCommand(Moment(caps, camera, evs, k + 1).w.links[evs[k].h].db, c.camera.command))
      && ((forall j :: 0 <= j < |evs| ==> !FindsCommandAt(caps, camera, evs, j)) ==>
            c.camera.command == camera.command)
  {
    hide Moment, Handle, Orderly, Allowed, FindsCommand, LeastCommand, AllAllowed, Run, FindsCommandAt;
    AtTheEnd(caps, camera, evs);
    if forall j :: 0 <= j < |evs| ==> !FindsCommandAt(caps, camera, evs, j) {
      CommandStays(caps, camera, evs, 0, |evs|);
      FirstMoment(caps, camera, evs);
    }
    if k < |evs| && FindsCommandAt(caps, camera, evs, k)
       && forall j :: k < j < |evs| ==> !FindsCommandAt(caps, camera, evs, j) {
      CommandStays(caps, camera, evs, k + 1, |evs|);
      NextMoment(caps, camera, evs, k);
      RecordAfter(Moment(caps, camera, evs, k), caps, evs[k]);
      assert FindsCommand(Moment(caps, camera, evs, k + 1), evs[k]) by { FoundAt(caps, camera, evs, k); }
    }
  }

  lemma {:induction false} FoundAt(caps: Caps, camera: Pair, evs: seq<GapEvent>, k: nat)
    requires k < |evs| && FindsCommandAt(caps, camera, evs, k)
    ensures FindsCommand(Moment(caps, camera, evs, k + 1), evs[k])
  {
  }

  lemma {:induction false} AtTheEnd(caps: Caps, camera: Pair, evs: seq<GapEvent>)
    ensures Moment(caps, camera, evs, |evs|) == Run(Start(caps, camera), evs)
  {
    assert evs[..|evs|] == evs;
  }
}
