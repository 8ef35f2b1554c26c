/** The records a GATT client receives from its stack and the tree it builds out of them. */
module Gatt {

  type uint8 = n: int | 0 <= n < 0x100
  type uint16 = n: int | 0 <= n < 0x1_0000
  type Bytes16 = b: seq<uint8> | |b| == 16 witness seq(16, _ => 0)

  datatype Option<+T> = None | Some(value: T)

  /** `Ok` is status 0; `Stack` is any other code the BLE stack may hand over. */
  datatype Status = Ok | EAlready | ENoMem | ENotConn | EDone | EUnknown | EOs | Stack(code: int)

  /** Equality is that of `ble_uuid_cmp`: two UUIDs of different widths always differ. */
  datatype Uuid = Uuid16(u: uint16) | Uuid128(bytes: Bytes16)

  const PRIMARY_SERVICE_UUID := Uuid16(0x2800)
  const CHARACTERISTIC_UUID := Uuid16(0x2803)

  datatype GattSvc = GattSvc(start: uint16, end: uint16, uuid: Uuid)
  datatype GattChr = GattChr(def: uint16, val: uint16, props: bv8, uuid: Uuid)
  datatype GattDsc = GattDsc(handle: uint16, uuid: Uuid)

  /** A characteristic with its descriptors, and a service with its characteristics. */
  datatype Chr = Chr(decl: GattChr, dscs: seq<GattDsc>)
  datatype Svc = Svc(decl: GattSvc, chrs: seq<Chr>)

  function Starts(svcs: seq<Svc>): (r: seq<uint16>)
    ensures |r| == |svcs| && forall i :: 0 <= i < |svcs| ==> r[i] == svcs[i].decl.start
  {
    seq(|svcs|, i requires 0 <= i < |svcs| => svcs[i].decl.start)
  }

  function Vals(chrs: seq<Chr>): (r: seq<uint16>)
    ensures |r| == |chrs| && forall i :: 0 <= i < |chrs| ==> r[i] == chrs[i].decl.val
  {
    seq(|chrs|, i requires 0 <= i < |chrs| => chrs[i].decl.val)
  }

  function Handles(dscs: seq<GattDsc>): (r: seq<uint16>)
    ensures |r| == |dscs| && forall i :: 0 <= i < |dscs| ==> r[i] == dscs[i].handle
  {
    seq(|dscs|, i requires 0 <= i < |dscs| => dscs[i].handle)
  }

  function ChrCount(svcs: seq<Svc>): nat {
    if svcs == [] then 0 else |svcs[0].chrs| + ChrCount(svcs[1..])
  }

  function DscsOfChrs(chrs: seq<Chr>): nat {
    if chrs == [] then 0 else |chrs[0].dscs| + DscsOfChrs(chrs[1..])
  }

  function DscCount(svcs: seq<Svc>): nat {
    if svcs == [] then 0 else DscsOfChrs(svcs[0].chrs) + DscCount(svcs[1..])
  }

  // ----- where a service or characteristic ends

  /** 16-bit decrement, as the C arithmetic on `uint16_t` performs it. */
  function Dec(n: uint16): uint16 {
    if n == 0 then 0xFFFF else n - 1
  }

  /** `chr_end_handle`: the last handle that belongs to characteristic `j` of `s`. */
  function ChrEnd(s: Svc, j: nat): uint16
    requires j < |s.chrs|
  {
    if j + 1 < |s.chrs| then Dec(s.chrs[j + 1].decl.def) else s.decl.end
  }

  /** The negation of `chr_is_empty`. */
  predicate HasRoom(s: Svc, j: nat)
    requires j < |s.chrs|
  {
    s.chrs[j].decl.val < ChrEnd(s, j)
  }

  /** The negation of `peer_svc_is_empty`. */
  predicate NonEmpty(g: GattSvc) {
    g.start < g.end
  }

  // ----- positions of characteristics, in list order

  datatype Pos = Pos(i: nat, j: nat)

  predicate InTree(svcs: seq<Svc>, pos: Pos) {
    pos.i < |svcs| && pos.j < |svcs[pos.i].chrs|
  }

  predicate Before(a: Pos, b: Pos) {
    a.i < b.i || (a.i == b.i && a.j < b.j)
  }

  function At(svcs: seq<Svc>, pos: Pos): Chr
    requires InTree(svcs, pos)
  {
    svcs[pos.i].chrs[pos.j]
  }

  function EndAt(svcs: seq<Svc>, pos: Pos): uint16
    requires InTree(svcs, pos)
  {
    ChrEnd(svcs[pos.i], pos.j)
  }

  predicate RoomAt(svcs: seq<Svc>, pos: Pos)
    requires InTree(svcs, pos)
  {
    HasRoom(svcs[pos.i], pos.j)
  }

  function PosOfSvc(s: Svc, i: nat): (r: seq<Pos>)
    ensures |r| == |s.chrs| && forall k :: 0 <= k < |r| ==> r[k] == Pos(i, k)
  {
    seq(|s.chrs|, j requires 0 <= j => Pos(i, j))
  }

  /** All characteristics of the first `n` services, outer loop over services. */
  function PositionsUpTo(svcs: seq<Svc>, n: nat): (r: seq<Pos>)
    requires n <= |svcs|
    ensures forall k :: 0 <= k < |r| ==> InTree(svcs, r[k]) && r[k].i < n
  {
    if n == 0 then [] else PositionsUpTo(svcs, n - 1) + PosOfSvc(svcs[n - 1], n - 1)
  }

  function Positions(svcs: seq<Svc>): (r: seq<Pos>)
    ensures forall k :: 0 <= k < |r| ==> InTree(svcs, r[k])
  {
    PositionsUpTo(svcs, |svcs|)
  }
}
