/** What the GoPro client reads out of a discovered tree: the configuration descriptors it writes to
    and the handle it sends commands to. */
module Subscription {
  import opened Gatt
  import opened SortedList
  import opened Remote
  import opened Snapshots

  const GOPRO_SERVICE_UUID := Uuid16(0xFEA6)
  /** Client Characteristic Configuration descriptor. */
  const CCCD_UUID := Uuid16(0x2902)
  const GOPRO_COMMAND_UUID :=
    Uuid128([0x1b, 0xc5, 0xd5, 0xa5, 0x02, 0x00, 0x46, 0x90, 0xe3, 0x11, 0x8d, 0xaa, 0x72, 0x00, 0xf9, 0xb5])
  /** The notify bit of the characteristic properties; also the value the client writes. */
  const PROP_NOTIFY: bv8 := 0x10

  predicate Notifies(g: GattChr) {
    g.props & PROP_NOTIFY != 0
  }

  // ----- the handles written, in the order of the three nested loops

  function CccdHandles(dscs: seq<GattDsc>): seq<uint16> {
    if dscs == [] then []
    else
      var n := |dscs| - 1;
      CccdHandles(dscs[..n]) + if dscs[n].uuid == CCCD_UUID then [dscs[n].handle] else []
  }

  function ChrWrites(c: Chr): seq<uint16> {
    if Notifies(c.decl) then CccdHandles(c.dscs) else []
  }

  function ChrsWrites(chrs: seq<Chr>): seq<uint16> {
    if chrs == [] then [] else ChrsWrites(chrs[..|chrs| - 1]) + ChrWrites(chrs[|chrs| - 1])
  }

  function SvcWrites(s: Svc): seq<uint16> {
    if s.decl.uuid == GOPRO_SERVICE_UUID then ChrsWrites(s.chrs) else []
  }

  function Writes(svcs: seq<Svc>): seq<uint16> {
    if svcs == [] then [] else Writes(svcs[..|svcs| - 1]) + SvcWrites(svcs[|svcs| - 1])
  }

  /** An attempted write to a descriptor; what the stack answers is only logged. */
  datatype Write = Write(conn: uint16, handle: uint16, value: bv16)

  function WritesTo(conn: uint16, hs: seq<uint16>): (r: seq<Write>)
    ensures |r| == |hs| && forall k :: 0 <= k < |r| ==> r[k] == Write(conn, hs[k], 0x10)
  {
    seq(|hs|, k requires 0 <= k < |hs| => Write(conn, hs[k], 0x10))
  }

  // ----- exactly the wanted descriptors

  /** A client configuration descriptor, of a characteristic with the notify bit, of a GoPro service. */
  predicate WantsWrite(svcs: seq<Svc>, pos: Pos, k: nat)
    requires InTree(svcs, pos) && k < |At(svcs, pos).dscs|
  {
    && svcs[pos.i].decl.uuid == Uuid16(0xFEA6)
    && At(svcs, pos).decl.props & 0x10 != 0
    && At(svcs, pos).dscs[k].uuid == Uuid16(0x2902)
  }

  lemma {:induction false} FromDsc(dscs: seq<GattDsc>, h: uint16) returns (k: nat)
    requires h in CccdHandles(dscs)
    ensures k < |dscs| && dscs[k] == GattDsc(h, CCCD_UUID)
  {
    var n := |dscs| - 1;
    k := n;
    if h in CccdHandles(dscs[..n]) {
      k := FromDsc(dscs[..n], h);
    }
  }

  lemma {:induction false} DscIn(dscs: seq<GattDsc>, k: nat)
    requires k < |dscs| && dscs[k].uuid == CCCD_UUID
    ensures dscs[k].handle in CccdHandles(dscs)
  {
    if k < |dscs| - 1 {
      DscIn(dscs[..|dscs| - 1], k);
    }
  }

  lemma {:induction false} FromChr(chrs: seq<Chr>, h: uint16) returns (j: nat)
    requires h in ChrsWrites(chrs)
    ensures j < |chrs| && h in ChrWrites(chrs[j])
  {
    var n := |chrs| - 1;
    j := n;
    if h in ChrsWrites(chrs[..n]) {
      j := FromChr(chrs[..n], h);
    }
  }

  lemma {:induction false} ChrIn(chrs: seq<Chr>, j: nat, h: uint16)
    requires j < |chrs| && h in ChrWrites(chrs[j])
    ensures h in ChrsWrites(chrs)
  {
    if j < |chrs| - 1 {
      ChrIn(chrs[..|chrs| - 1], j, h);
    }
  }

  lemma {:induction false} FromSvc(svcs: seq<Svc>, h: uint16) returns (i: nat)
    requires h in Writes(svcs)
    ensures i < |svcs| && h in SvcWrites(svcs[i])
  {
    var n := |svcs| - 1;
    i := n;
    if h in Writes(svcs[..n]) {
      i := FromSvc(svcs[..n], h);
    }
  }

  lemma {:induction false} SvcIn(svcs: seq<Svc>, i: nat, h: uint16)
    requires i < |svcs| && h in SvcWrites(svcs[i])
    ensures h in Writes(svcs)
  {
    if i < |svcs| - 1 {
      SvcIn(svcs[..|svcs| - 1], i, h);
    }
  }

  /** A handle is written to if and only if it is that of a configuration descriptor of a
      characteristic that can notify, in a GoPro service. */
  lemma {:induction false} WritesAre(svcs: seq<Svc>, h: uint16)
    ensures h in Writes(svcs) <==>
      exists pos, k :: InTree(svcs, pos) && 0 <= k < |At(svcs, pos).dscs|
                       && WantsWrite(svcs, pos, k) && At(svcs, pos).dscs[k].handle == h
  {
    if h in Writes(svcs) {
      var i := FromSvc(svcs, h);
      var j := FromChr(svcs[i].chrs, h);
      var k := FromDsc(svcs[i].chrs[j].dscs, h);
      assert InTree(svcs, Pos(i, j)) && WantsWrite(svcs, Pos(i, j), k);
    }
    forall pos, k: nat | InTree(svcs, pos) && k < |At(svcs, pos).dscs|
                         && WantsWrite(svcs, pos, k) && At(svcs, pos).dscs[k].handle == h
      ensures h in Writes(svcs)
    {
      DscIn(At(svcs, pos).dscs, k);
      ChrIn(svcs[pos.i].chrs, pos.j, h);
      SvcIn(svcs, pos.i, h);
    }
  }

  // ----- each once, in ascending order

  predicate Inside(hs: seq<uint16>, lo: int, hi: int) {
    Ascending(hs) && forall a :: 0 <= a < |hs| ==> lo < hs[a] <= hi
  }

  lemma {:induction false} InsideJoin(a: seq<uint16>, b: seq<uint16>, lo: int, mid: int, mid': int, hi: int)
    requires Inside(a, lo, mid) && Inside(b, mid', hi) && mid <= mid' <= hi && lo <= mid'
    ensures Inside(a + b, lo, hi)
  {
  }

  lemma {:induction false} CccdHandlesInside(dscs: seq<GattDsc>, lo: int, hi: int)
    requires Ascending(Handles(dscs)) && lo <= hi
    requires forall k :: 0 <= k < |dscs| ==> lo < dscs[k].handle <= hi
    ensures Inside(CccdHandles(dscs), lo, hi)
  {
    if dscs != [] {
      var n := |dscs| - 1;
      forall a, b | 0 <= a < b < n ensures Handles(dscs[..n])[a] < Handles(dscs[..n])[b] {
        assert Handles(dscs)[a] < Handles(dscs)[b];
      }
      forall k | 0 <= k < n ensures lo < dscs[..n][k].handle <= dscs[n].handle - 1 {
        assert Handles(dscs)[k] < Handles(dscs)[n];
      }
      CccdHandlesInside(dscs[..n], lo, if n == 0 then lo else dscs[n].handle - 1);
    }
  }

  lemma {:induction false} ChrsWritesInside(s: Svc, n: nat)
    requires SvcWf(s) && n <= |s.chrs|
    ensures Inside(ChrsWrites(s.chrs[..n]), s.decl.start, if n == 0 then s.decl.start else ChrEnd(s, n - 1))
  {
    if n > 0 {
      var c := s.chrs[n - 1];
      assert ChrWf(s, n - 1);
      ChrsWritesInside(s, n - 1);
      assert s.chrs[..n][..n - 1] == s.chrs[..n - 1];
      CccdHandlesInside(c.dscs, c.decl.val, ChrEnd(s, n - 1));
      InsideJoin(ChrsWrites(s.chrs[..n - 1]), ChrWrites(c), s.decl.start,
                 if n == 1 then s.decl.start else ChrEnd(s, n - 2), c.decl.val, ChrEnd(s, n - 1));
    }
  }

  lemma {:induction false} WritesInside(svcs: seq<Svc>, n: nat)
    requires DbWf(svcs) && n <= |svcs|
    ensures Inside(Writes(svcs[..n]), -1, if n == 0 then -1 else svcs[n - 1].decl.end)
  {
    if n > 0 {
      var s := svcs[n - 1];
      WritesInside(svcs, n - 1);
      assert svcs[..n][..n - 1] == svcs[..n - 1];
      ChrsWritesInside(s, |s.chrs|);
      assert s.chrs[..|s.chrs|] == s.chrs;
      if s.chrs != [] {
        assert ChrWf(s, |s.chrs| - 1);
      }
      assert Inside(SvcWrites(s), s.decl.start, s.decl.end);
      InsideJoin(Writes(svcs[..n - 1]), SvcWrites(s), -1,
                 if n == 1 then -1 else svcs[n - 2].decl.end, s.decl.start, s.decl.end);
    }
  }

  /** On a tree in order no descriptor is written twice, and the writes go up the handles. */
  lemma {:induction false} WritesAscend(svcs: seq<Svc>)
    requires DbWf(svcs)
    ensures Ascending(Writes(svcs))
  {
    WritesInside(svcs, |svcs|);
    assert svcs[..|svcs|] == svcs;
  }

  // ----- the command handle

  predicate IsCommand(svcs: seq<Svc>, pos: Pos)
    requires InTree(svcs, pos)
  {
    At(svcs, pos).decl.uuid
    == Uuid128([0x1b, 0xc5, 0xd5, 0xa5, 0x02, 0x00, 0x46, 0x90, 0xe3, 0x11, 0x8d, 0xaa, 0x72, 0x00, 0xf9, 0xb5])
  }

  predicate FirstAt(chrs: seq<Chr>, j: nat)
    requires j < |chrs|
  {
    && chrs[j].decl.uuid == GOPRO_COMMAND_UUID
    && forall k :: 0 <= k < j ==> chrs[k].decl.uuid != GOPRO_COMMAND_UUID
  }

  function FirstCommand(chrs: seq<Chr>): (r: Option<uint16>)
    ensures r.Some? ==> exists j :: 0 <= j < |chrs| && FirstAt(chrs, j) && chrs[j].decl.val == r.value
    ensures r.None? ==> forall j :: 0 <= j < |chrs| ==> chrs[j].decl.uuid != GOPRO_COMMAND_UUID
  {
    if chrs == [] then None
    else if chrs[0].decl.uuid == GOPRO_COMMAND_UUID then
      assert FirstAt(chrs, 0);
      Some(chrs[0].decl.val)
    else
      var r := FirstCommand(chrs[1..]);
      assert forall j :: 0 <= j < |chrs| - 1 ==> chrs[1..][j] == chrs[j + 1];
      assert forall j :: 0 <= j < |chrs| - 1 && FirstAt(chrs[1..], j) ==> FirstAt(chrs, j + 1);
      r
  }

  /** The first characteristic, in list order, with the command UUID. */
  function CommandHandle(svcs: seq<Svc>): Option<uint16> {
    if svcs == [] then None
    else match FirstCommand(svcs[0].chrs)
      case Some(v) => Some(v)
      case None => CommandHandle(svcs[1..])
  }

  /** The smallest value handle that belongs to a characteristic with the command UUID. */
  ghost predicate LeastCommand(svcs: seq<Svc>, v: uint16) {
    && (exists pos :: InTree(svcs, pos) && IsCommand(svcs, pos) && At(svcs, pos).decl.val == v)
    && (forall pos :: InTree(svcs, pos) && IsCommand(svcs, pos) ==> v <= At(svcs, pos).decl.val)
  }

  lemma {:induction false} CommandPosition(svcs: seq<Svc>) returns (pos: Pos)
    requires CommandHandle(svcs).Some?
    ensures InTree(svcs, pos) && IsCommand(svcs, pos) && At(svcs, pos).decl.val == CommandHandle(svcs).value
    ensures forall q :: InTree(svcs, q) && Before(q, pos) ==> !IsCommand(svcs, q)
  {
    match FirstCommand(svcs[0].chrs)
    case Some(v) =>
      var j :| 0 <= j < |svcs[0].chrs| && FirstAt(svcs[0].chrs, j) && svcs[0].chrs[j].decl.val == v;
      pos := Pos(0, j);
    case None =>
      var q := CommandPosition(svcs[1..]);
      pos := Pos(q.i + 1, q.j);
      forall q' | InTree(svcs, q') && Before(q', pos) ensures !IsCommand(svcs, q') {
        if q'.i > 0 {
          assert InTree(svcs[1..], Pos(q'.i - 1, q'.j)) && Before(Pos(q'.i - 1, q'.j), q);
          assert At(svcs[1..], Pos(q'.i - 1, q'.j)) == At(svcs, q');
        }
      }
  }

  lemma {:induction false} NoCommand(svcs: seq<Svc>, pos: Pos)
    requires CommandHandle(svcs).None? && InTree(svcs, pos)
    ensures !IsCommand(svcs, pos)
  {
    if pos.i > 0 {
      NoCommand(svcs[1..], Pos(pos.i - 1, pos.j));
    }
  }

  /** On a tree in order the command handle is the least one, and there is none exactly if no
      characteristic has the UUID. */
  lemma {:induction false} CommandHandleIsLeast(svcs: seq<Svc>, v: uint16)
    requires DbWf(svcs)
    ensures CommandHandle(svcs) == Some(v) <==> LeastCommand(svcs, v)
    ensures CommandHandle(svcs).None? <==> forall pos :: InTree(svcs, pos) ==> !IsCommand(svcs, pos)
  {
    if CommandHandle(svcs).Some? {
      var pos := CommandPosition(svcs);
      forall q | InTree(svcs, q) && IsCommand(svcs, q)
        ensures At(svcs, pos).decl.val <= At(svcs, q).decl.val
      {
        if q != pos {
          assert Before(pos, q);
          HandlesAscend(svcs, pos, q);
          assert ChrWf(svcs[q.i], q.j);
        }
      }
      assert LeastCommand(svcs, At(svcs, pos).decl.val);
    } else {
      forall pos | InTree(svcs, pos) ensures !IsCommand(svcs, pos) {
        NoCommand(svcs, pos);
      }
    }
  }

  // ----- one tree

  /** A GoPro service with a characteristic that notifies, one that only indicates, and the command
      characteristic, which does both; and another service with one that notifies. */
  const CONSOLE := [
    Svc(GattSvc(1, 11, Uuid16(0xFEA6)),
        [Chr(GattChr(2, 3, 0x10, Uuid16(0x2A19)), [GattDsc(4, Uuid16(0x2902))]),
         Chr(GattChr(5, 6, 0x20, Uuid16(0x2A19)), [GattDsc(7, Uuid16(0x2902))]),
         Chr(GattChr(8, 9, 0x30, Uuid128([0x1b, 0xc5, 0xd5, 0xa5, 0x02, 0x00, 0x46, 0x90,
                                          0xe3, 0x11, 0x8d, 0xaa, 0x72, 0x00, 0xf9, 0xb5])),
             [GattDsc(10, Uuid16(0x2901)), GattDsc(11, Uuid16(0x2902))])]),
    Svc(GattSvc(12, 20, Uuid16(0x180F)),
        [Chr(GattChr(13, 14, 0x10, Uuid16(0x2A19)), [GattDsc(15, Uuid16(0x2902))])])]

  lemma {:induction false} ConsoleWrites(conn: uint16)
    ensures WritesTo(conn, Writes(CONSOLE)) == [Write(conn, 4, 0x10), Write(conn, 11, 0x10)]
    ensures CommandHandle(CONSOLE) == Some(9)
  {
    var s, t := CONSOLE[0], CONSOLE[1];
    assert CccdHandles(s.chrs[0].dscs) == [4] && ChrWrites(s.chrs[1]) == [];
    assert CccdHandles(s.chrs[2].dscs[..1]) == [] && CccdHandles(s.chrs[2].dscs) == [11];
    assert ChrsWrites(s.chrs[..1]) == [4] && s.chrs[..2][..1] == s.chrs[..1] && s.chrs[..2][1] == s.chrs[1];
    assert ChrsWrites(s.chrs[..2]) == ChrsWrites(s.chrs[..1]) + ChrWrites(s.chrs[1]);
    assert ChrsWrites(s.chrs) == [4, 11] && CONSOLE[..1][..0] == [];
    assert Writes(CONSOLE[..1]) == [4, 11] && Writes(CONSOLE) == [4, 11];
    assert FirstCommand(s.chrs[1..]) == FirstCommand(s.chrs[1..][1..]) == Some(9);
  }
}
