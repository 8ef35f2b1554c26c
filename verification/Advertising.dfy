/** Advertising payloads: a sequence of length-type-value structures (Bluetooth Core Specification,
    Vol 3, Part C, section 11) and the two loops of the GAP event handler that walk it. */
module Advertising {
  import opened Gatt

  datatype AdStruct = AdStruct(kind: uint8, data: seq<uint8>)

  // ----- the format

  /** The length byte counts the type byte and the data. */
  predicate Encodable(ss: seq<AdStruct>) {
    forall i :: 0 <= i < |ss| ==> |ss[i].data| <= 254
  }

  function Encode(s: AdStruct): seq<uint8>
    requires |s.data| <= 254
  {
    [|s.data| + 1, s.kind] + s.data
  }

  function EncodeAll(ss: seq<AdStruct>): seq<uint8>
    requires Encodable(ss)
  {
    if ss == [] then [] else Encode(ss[0]) + EncodeAll(ss[1..])
  }

  /** What may follow the last structure. */
  predicate Padding(bytes: seq<uint8>) {
    bytes == [] || bytes[0] == 0
  }

  /** The structures of a payload; `None` if one overruns it. */
  function Decode(bytes: seq<uint8>): Option<seq<AdStruct>>
    decreases |bytes|
  {
    if Padding(bytes) then Some([])
    else if |bytes| <= bytes[0] then None
    else match Decode(bytes[bytes[0] + 1..])
      case None => None
      case Some(ss) => Some([AdStruct(bytes[1], bytes[2..bytes[0] + 1])] + ss)
  }

  lemma {:induction false} DecodeOne(s: AdStruct, rest: seq<uint8>)
    requires |s.data| <= 254
    ensures Decode(Encode(s) + rest) == match Decode(rest) case None => None case Some(ss) => Some([s] + ss)
  {
  }

  lemma {:induction false} DecodeEncode(ss: seq<AdStruct>, padding: seq<uint8>)
    requires Encodable(ss) && Padding(padding)
    ensures Decode(EncodeAll(ss) + padding) == Some(ss)
  {
    hide Decode, Encode;
    if ss == [] {
      assert EncodeAll(ss) + padding == padding;
      DecodePadding(padding);
    } else {
      var rest := EncodeAll(ss[1..]) + padding;
      assert EncodeAll(ss) + padding == Encode(ss[0]) + rest;
      DecodeOne(ss[0], rest);
      DecodeEncode(ss[1..], padding);
      assert [ss[0]] + ss[1..] == ss;
    }
  }

  lemma {:induction false} DecodePadding(padding: seq<uint8>)
    requires Padding(padding)
    ensures Decode(padding) == Some([])
  {
  }

  /** A payload that decodes to something starts with that structure. */
  lemma {:induction false} FirstOf(bytes: seq<uint8>)
    requires !Padding(bytes) && Decode(bytes).Some?
    ensures var n: int := bytes[0] as int + 1;
      && n <= |bytes| && Decode(bytes).value != [] && |Decode(bytes).value[0].data| == n - 2
      && bytes == Encode(Decode(bytes).value[0]) + bytes[n..]
      && Decode(bytes[n..]) == Some(Decode(bytes).value[1..])
  {
  }

  /** A payload that decodes is an encoding followed by padding. */
  lemma {:induction false} EncodeDecode(bytes: seq<uint8>) returns (padding: seq<uint8>)
    requires Decode(bytes).Some?
    ensures Encodable(Decode(bytes).value) && Padding(padding)
    ensures bytes == EncodeAll(Decode(bytes).value) + padding
    decreases |bytes|
  {
    hide Decode, Encode;
    if Padding(bytes) {
      DecodePadding(bytes);
      padding := bytes;
    } else {
      FirstOf(bytes);
      var n: int := bytes[0] as int + 1;
      padding := EncodeDecode(bytes[n..]);
      EncodableJoin(Decode(bytes).value);
    }
  }

  lemma {:induction false} EncodableJoin(ss: seq<AdStruct>)
    requires ss != [] && |ss[0].data| <= 254 && Encodable(ss[1..])
    ensures Encodable(ss)
  {
  }

  // ----- service UUIDs (Core Specification Supplement, Part A, section 1.1)

  predicate IsUuidList(s: AdStruct) {
    s.kind == 0x02 || s.kind == 0x03
  }

  /** The `k`-th entry of the list is 0xFEA6, low byte first. */
  predicate GoProEntry(data: seq<uint8>, k: nat) {
    2 * k + 1 < |data| && data[2 * k] == 0xA6 && data[2 * k + 1] == 0xFE
  }

  predicate ListsGoPro(s: AdStruct) {
    IsUuidList(s) && exists k :: 0 <= k < |s.data| && GoProEntry(s.data, k)
  }

  predicate AdvertisesGoPro(ss: seq<AdStruct>) {
    exists i :: 0 <= i < |ss| && ListsGoPro(ss[i])
  }

  // ----- what the loops read, structure by structure, on any payload

  /** What the loops go on with after a structure: nothing, if it overruns the payload. */
  function Rest(bytes: seq<uint8>): (r: seq<uint8>)
    requires !Padding(bytes)
    ensures |r| < |bytes|
  {
    if |bytes| <= bytes[0] then [] else bytes[bytes[0] + 1..]
  }

  predicate IsUuidType(kind: uint8) {
    kind == 0x02 || kind == 0x03
  }

  function Min(a: nat, b: nat): nat {
    if a < b then a else b
  }

  function Max(a: nat, b: nat): nat {
    if a < b then b else a
  }

  /** One past the last byte the entries of the UUID list at the start are read from, if it has any:
      the last one is completed with the byte that follows if the list has an odd number of bytes. */
  function EntriesEnd(bytes: seq<uint8>): nat
    requires !Padding(bytes)
  {
    if bytes[0] == 1 then 0 else bytes[0] as int + 2 - bytes[0] % 2
  }

  /** One past the highest index the first loop looks at, on any payload. */
  function Looked(bytes: seq<uint8>): nat
    decreases |bytes|
  {
    if bytes == [] then 0
    else if bytes[0] == 0 then 1
    else if |bytes| == 1 then 2
    else
      Max(Max(2, if IsUuidType(bytes[1]) then EntriesEnd(bytes) else 0),
          if Rest(bytes) == [] then 0 else bytes[0] as int + 1 + Looked(Rest(bytes)))
  }

  /** The first loop reads nothing beyond the payload: neither for the type of a structure nor for the
      entries of a UUID list. */
  predicate Readable(bytes: seq<uint8>)
    decreases |bytes|
  {
    || Padding(bytes)
    || (&& |bytes| >= 2
        && (IsUuidType(bytes[1]) ==> EntriesEnd(bytes) <= |bytes|)
        && Readable(Rest(bytes)))
  }

  /** The payloads on which the loop stays inside. */
  lemma {:induction false} ReadableIff(bytes: seq<uint8>)
    ensures Readable(bytes) <==> Looked(bytes) <= |bytes|
    decreases |bytes|
  {
    if |bytes| >= 2 && bytes[0] != 0 && bytes[0] as int < |bytes| {
      ReadableIff(Rest(bytes));
    }
  }

  /** The `k`-th entry of the structure at the start is 0xFEA6, low byte first. */
  predicate EntryAt(bytes: seq<uint8>, k: nat) {
    && bytes != [] && 2 * k + 2 <= bytes[0] && 2 * k + 3 < |bytes|
    && bytes[2 * k + 2] == 0xA6 && bytes[2 * k + 3] == 0xFE
  }

  predicate FirstFinds(bytes: seq<uint8>) {
    |bytes| >= 2 && IsUuidType(bytes[1]) && exists k :: 0 <= k < |bytes| && EntryAt(bytes, k)
  }

  /** Some list has the entry 0xFEA6. */
  predicate FindsGoPro(bytes: seq<uint8>)
    decreases |bytes|
  {
    !Padding(bytes) && (FirstFinds(bytes) || FindsGoPro(Rest(bytes)))
  }

  /** The loop over the entries of the structure at `pos`. The two bytes of an entry share no bits,
      so that `|` adds them. */
  method HasGoPro(bytes: seq<uint8>, pos: nat) returns (found: bool, ghost top: nat)
    requires pos + 1 < |bytes| && bytes[pos] > 0 && IsUuidType(bytes[pos + 1])
    requires pos + EntriesEnd(bytes[pos..]) <= |bytes|
    ensures found <==> FirstFinds(bytes[pos..])
    ensures top == ListTop(bytes, pos)
  {
    ghost var rest := bytes[pos..];
    found, top := false, 0;
    var fieldLen: int := bytes[pos];
    var i: int := 2;
    while i < fieldLen + 1
      invariant 2 <= i <= fieldLen + 2 && i % 2 == 0
      invariant found <==> exists k :: 0 <= k < i / 2 - 1 && EntryAt(rest, k)
      invariant top == if i == 2 then 0 else pos + i
      decreases fieldLen + 1 - i
    {
      var k := i / 2 - 1;
      assert rest[2 * k + 2] == bytes[pos + i] && rest[2 * k + 3] == bytes[pos + i + 1];
      var uuid: int := bytes[pos + i] as int + bytes[pos + i + 1] as int * 0x100;
      if uuid == 0xFEA6 {
        assert EntryAt(rest, k);
        found := true;
      }
      top := pos + i + 2;
      i := i + 2;
    }
    assert forall k: nat :: EntryAt(rest, k) ==> k < i / 2 - 1;
  }

  /** The bytes from `pos` on, none if that is past the end. */
  function From(bytes: seq<uint8>, pos: nat): seq<uint8> {
    if pos <= |bytes| then bytes[pos..] else []
  }

  lemma {:induction false} FromNext(bytes: seq<uint8>, pos: nat)
    requires pos < |bytes| && bytes[pos] != 0
    ensures !Padding(From(bytes, pos)) && Rest(From(bytes, pos)) == From(bytes, pos + bytes[pos] as int + 1)
  {
  }

  function LookedFrom(bytes: seq<uint8>, pos: nat): nat {
    if pos >= |bytes| then 0 else pos + Looked(bytes[pos..])
  }

  /** One past the last byte the entries of the structure at `pos` are read from. */
  function ListTop(bytes: seq<uint8>, pos: nat): nat
    requires pos + 1 < |bytes| && bytes[pos] != 0
  {
    if IsUuidType(bytes[pos + 1]) && EntriesEnd(bytes[pos..]) > 0 then pos + EntriesEnd(bytes[pos..]) else 0
  }

  lemma {:induction false} LookedNext(bytes: seq<uint8>, pos: nat)
    requires pos + 1 < |bytes| && bytes[pos] != 0
    ensures LookedFrom(bytes, pos) ==
      Max(Max(pos + 2, ListTop(bytes, pos)), LookedFrom(bytes, pos + bytes[pos] as int + 1))
  {
  }

  /** What one round of the first loop goes by. */
  lemma {:induction false} FindsNext(bytes: seq<uint8>, pos: nat)
    requires pos < |bytes| && bytes[pos] != 0 && Readable(From(bytes, pos))
    ensures From(bytes, pos) == bytes[pos..] && pos + 1 < |bytes|
    ensures IsUuidType(bytes[pos + 1]) ==> pos + EntriesEnd(bytes[pos..]) <= |bytes|
    ensures !IsUuidType(bytes[pos + 1]) ==> !FirstFinds(bytes[pos..]) && ListTop(bytes, pos) == 0
    ensures var next := From(bytes, pos + bytes[pos] as int + 1);
      Readable(next) && (FindsGoPro(From(bytes, pos)) <==> FirstFinds(bytes[pos..]) || FindsGoPro(next))
  {
  }

  lemma {:induction false} FindsEnd(bytes: seq<uint8>, pos: nat)
    requires pos >= |bytes| || bytes[pos] == 0
    ensures !FindsGoPro(From(bytes, pos))
    ensures LookedFrom(bytes, pos) == if pos < |bytes| then pos + 1 else 0
  {
  }

  lemma {:induction false} FindsStart(bytes: seq<uint8>)
    ensures From(bytes, 0) == bytes && LookedFrom(bytes, 0) == Looked(bytes)
  {
  }

  /** The first loop, on every payload it does not read beyond. The ghost result is one past the
      highest index it looked at. */
  method IsGoPro(bytes: seq<uint8>) returns (isGoPro: bool, ghost looked: nat)
    requires Readable(bytes)
    ensures isGoPro <==> FindsGoPro(bytes)
    ensures looked == Looked(bytes)
  {
    hide FirstFinds, Looked, FindsGoPro, Readable, From, LookedFrom, EntriesEnd, ListTop;
    isGoPro, looked := false, 0;
    var pos: int := 0;
    FindsStart(bytes);
    while pos < |bytes|
      invariant pos >= 0 && Readable(From(bytes, pos))
      invariant FindsGoPro(bytes) <==> isGoPro || FindsGoPro(From(bytes, pos))
      invariant Looked(bytes) == Max(looked, LookedFrom(bytes, pos))
      decreases |bytes| - pos
    {
      var fieldLen: int := bytes[pos];
      looked := Max(looked, pos + 1);
      if fieldLen == 0 {
        FindsEnd(bytes, pos);
        break;
      }
      FindsNext(bytes, pos);
      LookedNext(bytes, pos);
      var fieldType := bytes[pos + 1];
      looked := Max(looked, pos + 2);
      if fieldType == 0x02 || fieldType == 0x03 {
        ghost var top;
        var found;
        found, top := HasGoPro(bytes, pos);
        looked := Max(looked, top);
        isGoPro := isGoPro || found;
      }
      pos := pos + fieldLen + 1;
    }
    FindsEnd(bytes, pos);
  }

  // ----- on the structures of a payload

  /** A list with an odd number of bytes whose last one is 0xA6, before a structure whose length byte
      is 0xFE. */
  predicate Straddles(ss: seq<AdStruct>, i: nat)
    requires i < |ss|
  {
    && IsUuidList(ss[i]) && |ss[i].data| % 2 == 1 && ss[i].data[|ss[i].data| - 1] == 0xA6
    && i + 1 < |ss| && |ss[i + 1].data| + 1 == 0xFE
  }

  lemma {:induction false} DataAt(bytes: seq<uint8>, ss: seq<AdStruct>)
    requires Decode(bytes) == Some(ss) && ss != [] && !Padding(bytes)
    ensures var n := |ss[0].data|;
      && bytes[0] as int == n + 1 && n + 2 <= |bytes| && bytes[1] == ss[0].kind && bytes[2..n + 2] == ss[0].data
  {
  }

  /** An entry of the bytes is one of the list, or straddles. */
  lemma {:induction false} EntryIs(bytes: seq<uint8>, ss: seq<AdStruct>, k: nat)
    requires Decode(bytes) == Some(ss) && ss != [] && !Padding(bytes) && EntryAt(bytes, k) && IsUuidList(ss[0])
    ensures GoProEntry(ss[0].data, k) || Straddles(ss, 0)
  {
  }

  lemma {:induction false} IsEntry(bytes: seq<uint8>, ss: seq<AdStruct>, k: nat)
    requires Decode(bytes) == Some(ss) && ss != [] && !Padding(bytes) && GoProEntry(ss[0].data, k)
    ensures k < |bytes| && EntryAt(bytes, k)
  {
  }

  lemma {:induction false} StraddleEntry(bytes: seq<uint8>, ss: seq<AdStruct>) returns (k: nat)
    requires Decode(bytes) == Some(ss) && ss != [] && !Padding(bytes) && Straddles(ss, 0)
    ensures k < |bytes| && EntryAt(bytes, k)
  {
    hide Decode;
    DataAt(bytes, ss);
    NextLength(bytes, ss);
    var n := |ss[0].data|;
    k := (n - 1) / 2;
    var data := bytes[2..n + 2];
    assert data[n - 1] == bytes[n + 1];
  }

  lemma {:induction false} FirstFindsIff(bytes: seq<uint8>, ss: seq<AdStruct>)
    requires Decode(bytes) == Some(ss) && ss != [] && !Padding(bytes)
    ensures FirstFinds(bytes) <==> ListsGoPro(ss[0]) || Straddles(ss, 0)
  {
    hide Decode, EntryAt, GoProEntry, Straddles;
    DataAt(bytes, ss);
    if FirstFinds(bytes) {
      var k :| 0 <= k < |bytes| && EntryAt(bytes, k);
      EntryIs(bytes, ss, k);
      EntryInside(ss[0].data, k);
    }
    if ListsGoPro(ss[0]) {
      var k :| 0 <= k < |ss[0].data| && GoProEntry(ss[0].data, k);
      IsEntry(bytes, ss, k);
    }
    if Straddles(ss, 0) {
      var k := StraddleEntry(bytes, ss);
      StraddleList(ss);
    }
  }

  lemma {:induction false} EntryInside(data: seq<uint8>, k: nat)
    ensures GoProEntry(data, k) ==> k < |data|
  {
  }

  lemma {:induction false} StraddleList(ss: seq<AdStruct>)
    requires ss != [] && Straddles(ss, 0)
    ensures IsUuidList(ss[0])
  {
  }

  /** The byte after the first structure is the length of the next, or 0. */
  lemma {:induction false} NextLength(bytes: seq<uint8>, ss: seq<AdStruct>)
    requires Decode(bytes) == Some(ss) && ss != [] && !Padding(bytes)
    ensures var n: int := bytes[0] as int + 1;
      && (n < |bytes| && bytes[n] != 0 ==> |ss| > 1 && bytes[n] as int == |ss[1].data| + 1)
      && (|ss| > 1 ==> n < |bytes| && bytes[n] as int == |ss[1].data| + 1)
  {
  }

  /** Some list has the entry, or straddles. */
  predicate Shows(ss: seq<AdStruct>) {
    AdvertisesGoPro(ss) || exists i :: 0 <= i < |ss| && Straddles(ss, i)
  }

  lemma {:induction false} ShowsFirst(ss: seq<AdStruct>)
    requires ss != []
    ensures Shows(ss) <==> ListsGoPro(ss[0]) || Straddles(ss, 0) || Shows(ss[1..])
  {
    hide ListsGoPro;
    var rest := ss[1..];
    if AdvertisesGoPro(rest) {
      var i :| 0 <= i < |rest| && ListsGoPro(rest[i]);
      assert ListsGoPro(ss[i + 1]);
    } else if exists i :: 0 <= i < |rest| && Straddles(rest, i) {
      var i :| 0 <= i < |rest| && Straddles(rest, i);
      assert Straddles(ss, i + 1);
    }
    if AdvertisesGoPro(ss) {
      var i :| 0 <= i < |ss| && ListsGoPro(ss[i]);
      assert i > 0 ==> ListsGoPro(rest[i - 1]);
    } else if exists i :: 0 <= i < |ss| && Straddles(ss, i) {
      var i :| 0 <= i < |ss| && Straddles(ss, i);
      assert i > 0 ==> Straddles(rest, i - 1);
    }
  }

  /** On a payload that decodes the loop finds the service if and only if some list has it as an
      entry, or a list with an odd number of bytes runs into the length of what follows. */
  lemma {:induction false} FindsGoProIff(bytes: seq<uint8>, ss: seq<AdStruct>)
    requires Decode(bytes) == Some(ss)
    ensures FindsGoPro(bytes) <==> Shows(ss)
    decreases |bytes|
  {
    hide Decode, FirstFinds, ListsGoPro, Straddles, Encode, Shows;
    if Padding(bytes) {
      DecodePadding(bytes);
      ShowsNothing();
    } else {
      FirstOf(bytes);
      FirstFindsIff(bytes, ss);
      FindsGoProIff(Rest(bytes), ss[1..]);
      ShowsFirst(ss);
    }
  }

  lemma {:induction false} ShowsNothing()
    ensures !Shows([])
  {
  }

  /** The last structure is a UUID list with an odd number of bytes, and nothing follows it. */
  predicate EndsOdd(ss: seq<AdStruct>, padding: seq<uint8>) {
    && ss != [] && padding == []
    && IsUuidList(ss[|ss| - 1]) && |ss[|ss| - 1].data| % 2 == 1
  }

  predicate IsOddList(s: AdStruct) {
    IsUuidList(s) && |s.data| % 2 == 1
  }

  lemma {:induction false} ReadableOne(s: AdStruct, rest: seq<uint8>)
    requires |s.data| <= 254
    ensures Readable(Encode(s) + rest) <==> !(IsOddList(s) && rest == []) && Readable(rest)
  {
  }

  lemma {:induction false} EndsOddStep(ss: seq<AdStruct>, padding: seq<uint8>)
    requires ss != []
    ensures EndsOdd(ss, padding) <==>
      EndsOdd(ss[1..], padding) || (IsOddList(ss[0]) && ss[1..] == [] && padding == [])
  {
  }

  /** Of the well-formed payloads the loop reads beyond those that end in an odd list, and no others. */
  lemma {:induction false} ReadsInsideIff(ss: seq<AdStruct>, padding: seq<uint8>)
    requires Encodable(ss) && Padding(padding)
    ensures Readable(EncodeAll(ss) + padding) <==> !EndsOdd(ss, padding)
    decreases |ss|
  {
    hide Readable, EndsOdd, Encode;
    if ss == [] {
      assert EncodeAll(ss) + padding == padding;
      PaddingReadable(padding);
    } else {
      var rest := EncodeAll(ss[1..]) + padding;
      assert EncodeAll(ss) + padding == Encode(ss[0]) + rest;
      ReadableOne(ss[0], rest);
      ReadsInsideIff(ss[1..], padding);
      EncodeNothing(ss[1..], padding);
      EndsOddStep(ss, padding);
    }
  }

  lemma {:induction false} PaddingReadable(padding: seq<uint8>)
    requires Padding(padding)
    ensures Readable(padding) && !EndsOdd([], padding)
  {
  }

  lemma {:induction false} EncodeNothing(ss: seq<AdStruct>, padding: seq<uint8>)
    requires Encodable(ss)
    ensures EncodeAll(ss) + padding == [] <==> ss == [] && padding == []
  {
  }

  /** A well-formed structure with one byte of UUID data: the loop looks at a fourth byte, which the
      payload does not have. */
  lemma {:induction false} OddListReadBeyond()
    ensures EncodeAll([AdStruct(0x03, [0xA6])]) == [2, 3, 0xA6]
    ensures !Readable([2, 3, 0xA6]) && Looked([2, 3, 0xA6]) == 4
  {
  }

  /** Payloads with one list of UUIDs: the type is one of two, and the bytes of an entry are in order. */
  lemma {:induction false} OneList(kind: uint8, low: uint8, high: uint8)
    ensures FindsGoPro([3, kind, low, high]) <==> (kind == 2 || kind == 3) && low == 0xA6 && high == 0xFE
  {
    var bytes: seq<uint8> := [3, kind, low, high];
    assert Rest(bytes) == [];
    assert EntryAt(bytes, 0) <==> low == 0xA6 && high == 0xFE;
  }

  lemma {:induction false} PairFits(bytes: seq<uint8>, ss: seq<AdStruct>, i: nat)
    requires Decode(bytes) == Some(ss) && i < |ss|
    ensures |ss[i].data| + 2 + (if i + 1 < |ss| then |ss[i + 1].data| + 2 else 0) <= |bytes|
    decreases |bytes|
  {
    if Padding(bytes) {
      DecodePadding(bytes);
    } else {
      FirstOf(bytes);
      if i > 0 {
        PairFits(Rest(bytes), ss[1..], i - 1);
      } else if |ss| > 1 {
        PairFits(Rest(bytes), ss[1..], 0);
      }
    }
  }

  /** Any list of structures, encoded, padded and short enough for its length to be one byte: the loop
      answers whether some list has the entry 0xFEA6, and it stays inside the payload unless that ends
      in a list with an odd number of bytes. */
  lemma {:induction false} AdvertisedIff(ss: seq<AdStruct>, padding: seq<uint8>)
    requires Encodable(ss) && Padding(padding) && |EncodeAll(ss) + padding| < 0x100
    ensures FindsGoPro(EncodeAll(ss) + padding) <==> AdvertisesGoPro(ss)
    ensures Looked(EncodeAll(ss) + padding) <= |EncodeAll(ss) + padding| <==> !EndsOdd(ss, padding)
  {
    hide EncodeAll, FindsGoPro, Decode, Readable, AdvertisesGoPro, Looked;
    var bytes := EncodeAll(ss) + padding;
    DecodeEncode(ss, padding);
    ReadableIff(bytes);
    ReadsInsideIff(ss, padding);
    FindsGoProIff(bytes, ss);
    forall i | 0 <= i < |ss| ensures !Straddles(ss, i) {
      PairFits(bytes, ss, i);
    }
  }

  // ----- local names (Core Specification Supplement, Part A, section 1.2)

  const COMPLETE_LOCAL_NAME: uint8 := 0x09
  const SHORTENED_LOCAL_NAME: uint8 := 0x08

  /** What a name does to the buffer: up to 30 bytes, then a NUL; the rest stays. */
  function Overlay(buffer: seq<uint8>, name: seq<uint8>): (r: seq<uint8>)
    requires |buffer| == 31
    ensures |r| == 31
  {
    var n := Min(|name|, 30);
    name[..n] + [0] + buffer[n + 1..]
  }

  const BLANK: seq<uint8> := seq(31, _ => 0)

  function Names(ss: seq<AdStruct>, kind: uint8, buffer: seq<uint8>): (r: seq<uint8>)
    requires |buffer| == 31
    ensures |r| == 31
    decreases |ss|
  {
    if ss == [] then buffer
    else Names(ss[1..], kind, if ss[0].kind == kind then Overlay(buffer, ss[0].data) else buffer)
  }

  /** The text of a NUL-terminated buffer. */
  function CString(bytes: seq<uint8>): seq<uint8> {
    if bytes == [] || bytes[0] == 0 then [] else [bytes[0]] + CString(bytes[1..])
  }

  lemma {:induction false} CStringCut(a: seq<uint8>, b: seq<uint8>)
    ensures CString(a + [0] + b) == CString(a)
  {
    if a != [] {
      assert (a + [0] + b)[1..] == a[1..] + [0] + b;
      CStringCut(a[1..], b);
    } else {
      assert (a + [0] + b)[0] == 0;
    }
  }

  lemma {:induction false} NoName(ss: seq<AdStruct>, kind: uint8, buffer: seq<uint8>)
    requires |buffer| == 31 && forall i :: 0 <= i < |ss| ==> ss[i].kind != kind
    ensures Names(ss, kind, buffer) == buffer
    decreases |ss|
  {
    if ss != [] {
      NoName(ss[1..], kind, buffer);
    }
  }

  /** The name read from the buffer is the last structure of its type cut to 30 bytes, with a NUL
      inside the buffer; without such a structure the buffer stays as it was. */
  lemma {:induction false} NameIsLast(ss: seq<AdStruct>, kind: uint8, buffer: seq<uint8>, k: nat)
    requires |buffer| == 31
    requires k < |ss| && ss[k].kind == kind && forall i :: k < i < |ss| ==> ss[i].kind != kind
    ensures var n := Min(|ss[k].data|, 30);
      && Names(ss, kind, buffer)[..n] == ss[k].data[..n] && Names(ss, kind, buffer)[n] == 0
      && CString(Names(ss, kind, buffer)) == CString(ss[k].data[..n])
    decreases |ss|
  {
    var next := if ss[0].kind == kind then Overlay(buffer, ss[0].data) else buffer;
    if k > 0 {
      NameIsLast(ss[1..], kind, next, k - 1);
    } else {
      var n := Min(|ss[0].data|, 30);
      NoName(ss[1..], kind, next);
      assert next[..n] == ss[0].data[..n];
      CStringCut(ss[0].data[..n], buffer[n + 1..]);
    }
  }

  /** The buffer holds the name of the last structure of the type, cut to 30 bytes and terminated
      inside its 31 bytes, and is blank if there is no such structure. */
  predicate HoldsLast(buffer: seq<uint8>, ss: seq<AdStruct>, kind: uint8) {
    && |buffer| == 31
    && (forall k :: 0 <= k < |ss| && ss[k].kind == kind && (forall i :: k < i < |ss| ==> ss[i].kind != kind) ==>
          var n := if |ss[k].data| < 30 then |ss[k].data| else 30;
          buffer[..n] == ss[k].data[..n] && buffer[n] == 0 && CString(buffer) == CString(ss[k].data[..n]))
    && ((forall i :: 0 <= i < |ss| ==> ss[i].kind != kind) ==> forall j :: 0 <= j < 31 ==> buffer[j] == 0)
  }

  lemma {:induction false} NamesHoldLast(ss: seq<AdStruct>, kind: uint8)
    ensures HoldsLast(Names(ss, kind, BLANK), ss, kind)
  {
    hide Names, CString;
    forall k | 0 <= k < |ss| && ss[k].kind == kind && forall i :: k < i < |ss| ==> ss[i].kind != kind
      ensures var n := if |ss[k].data| < 30 then |ss[k].data| else 30;
        && Names(ss, kind, BLANK)[..n] == ss[k].data[..n] && Names(ss, kind, BLANK)[n] == 0
        && CString(Names(ss, kind, BLANK)) == CString(ss[k].data[..n])
    {
      NameIsLast(ss, kind, BLANK, k);
    }
    if forall i :: 0 <= i < |ss| ==> ss[i].kind != kind {
      NoName(ss, kind, BLANK);
    }
  }

  /** On a payload that decodes the first buffer holds the complete local name, type 0x09, and the
      second the shortened one, type 0x08. */
  lemma {:induction false} NamesByType(bytes: seq<uint8>, ss: seq<AdStruct>)
    requires Decode(bytes) == Some(ss)
    ensures NamesReadable(bytes)
    ensures HoldsLast(NamesIn(bytes, COMPLETE_LOCAL_NAME, BLANK), ss, 0x09)
    ensures HoldsLast(NamesIn(bytes, SHORTENED_LOCAL_NAME, BLANK), ss, 0x08)
  {
    hide NamesReadable, NamesIn, HoldsLast, Decode, Names;
    NamesInAre(bytes, ss, COMPLETE_LOCAL_NAME, BLANK);
    NamesInAre(bytes, ss, SHORTENED_LOCAL_NAME, BLANK);
    NamesHoldLast(ss, COMPLETE_LOCAL_NAME);
    NamesHoldLast(ss, SHORTENED_LOCAL_NAME);
  }

  lemma {:induction false} TextAbc()
    ensures CString([65, 66, 67]) == [65, 66, 67]
  {
    var t: seq<uint8> := [65, 66, 67];
    assert t[1..] == [66, 67] && t[1..][1..] == [67] && t[1..][1..][1..] == [];
  }

  /** The payload of a device that advertises its complete name, "ABC". */
  lemma {:induction false} CompleteNameAbc()
    ensures var bytes := [4, 0x09, 65, 66, 67];
      && Decode(bytes) == Some([AdStruct(0x09, [65, 66, 67])]) && NamesReadable(bytes)
      && CString(NamesIn(bytes, COMPLETE_LOCAL_NAME, BLANK)) == [65, 66, 67]
      && CString(NamesIn(bytes, SHORTENED_LOCAL_NAME, BLANK)) == []
  {
    hide NamesIn, NamesReadable;
    var s := AdStruct(0x09, [65, 66, 67]);
    var bytes: seq<uint8> := [4, 0x09, 65, 66, 67];
    assert bytes == Encode(s) + [] && Decode([]) == Some([]) && [s] + [] == [s];
    DecodeOne(s, []);
    NamesByType(bytes, [s]);
    assert s.data[..3] == [65, 66, 67];
    TextAbc();
    assert [s][0].kind == 0x09;
  }

  predicate IsNameType(kind: uint8) {
    kind == COMPLETE_LOCAL_NAME || kind == SHORTENED_LOCAL_NAME
  }

  /** The number of name bytes the structure at the start gives the buffer. */
  function NameLen(bytes: seq<uint8>): nat
    requires !Padding(bytes)
  {
    Min(bytes[0] as int - 1, 30)
  }

  /** One past the highest index the second loop looks at for types and names, on any payload. */
  function NamesLooked(bytes: seq<uint8>): nat
    decreases |bytes|
  {
    if bytes == [] then 0
    else if bytes[0] == 0 then 1
    else if |bytes| == 1 then 2
    else
      Max(if IsNameType(bytes[1]) then 2 + NameLen(bytes) else 2,
          if Rest(bytes) == [] then 0 else bytes[0] as int + 1 + NamesLooked(Rest(bytes)))
  }

  lemma {:induction false} NamesReadableIff(bytes: seq<uint8>)
    ensures NamesReadable(bytes) <==> NamesLooked(bytes) <= |bytes|
    decreases |bytes|
  {
    if |bytes| >= 2 && bytes[0] != 0 && bytes[0] as int < |bytes| {
      NamesReadableIff(Rest(bytes));
    }
  }

  /** The second loop copies nothing from beyond the payload. */
  predicate NamesReadable(bytes: seq<uint8>)
    decreases |bytes|
  {
    || Padding(bytes)
    || (|bytes| >= 2 && (IsNameType(bytes[1]) ==> 2 + NameLen(bytes) <= |bytes|) && NamesReadable(Rest(bytes)))
  }

  function NamesIn(bytes: seq<uint8>, kind: uint8, buffer: seq<uint8>): (r: seq<uint8>)
    requires NamesReadable(bytes) && IsNameType(kind) && |buffer| == 31
    ensures |r| == 31
    decreases |bytes|
  {
    if Padding(bytes) then buffer
    else
      NamesIn(Rest(bytes), kind,
              if bytes[1] == kind then Overlay(buffer, bytes[2..2 + NameLen(bytes)]) else buffer)
  }

  /** On a payload that decodes the second loop visits the structures the first one does. */
  lemma {:induction false} NamesInAre(bytes: seq<uint8>, ss: seq<AdStruct>, kind: uint8, buffer: seq<uint8>)
    requires Decode(bytes) == Some(ss) && IsNameType(kind) && |buffer| == 31
    ensures NamesReadable(bytes) && NamesIn(bytes, kind, buffer) == Names(ss, kind, buffer)
    decreases |bytes|
  {
    hide Decode;
    if Padding(bytes) {
      DecodePadding(bytes);
    } else {
      FirstOf(bytes);
      var s := ss[0];
      assert bytes[1] == s.kind && forall k :: 0 <= k < |s.data| ==> bytes[k + 2] == s.data[k];
      assert bytes[2..2 + NameLen(bytes)] == s.data[..NameLen(bytes)];
      assert Overlay(buffer, bytes[2..2 + NameLen(bytes)]) == Overlay(buffer, s.data);
      NamesInAre(Rest(bytes), ss[1..], kind, if s.kind == kind then Overlay(buffer, s.data) else buffer);
    }
  }

  /** `memcpy` of at most 30 bytes and the terminator. */
  method CopyName(buffer: array<uint8>, bytes: seq<uint8>, start: nat, len: nat)
    requires buffer.Length == 31 && start + Min(len, 30) <= |bytes|
    modifies buffer
    ensures buffer[..] == Overlay(old(buffer[..]), bytes[start..start + Min(len, 30)])
  {
    var nameLen := len;
    if nameLen > 30 {
      nameLen := 30;
    }
    for k := 0 to nameLen
      invariant forall j :: 0 <= j < k ==> buffer[j] == bytes[start + j]
      invariant forall j :: k <= j < 31 ==> buffer[j] == old(buffer[j])
    {
      buffer[k] := bytes[start + k];
    }
    buffer[nameLen] := 0;
    assert buffer[..nameLen] == bytes[start..start + nameLen];
    assert buffer[nameLen + 1..] == old(buffer[..])[nameLen + 1..];
    assert buffer[..] == buffer[..nameLen] + [0] + buffer[nameLen + 1..];
  }

  /** The second loop, on every payload it does not copy from beyond; of a payload that decodes it takes
      the complete name, type 0x09, and the shortened one, type 0x08. The ghost result is one past the
      highest index it looked at for types and names. */
  method LocalNames(bytes: seq<uint8>)
    returns (complete: array<uint8>, shortened: array<uint8>, ghost looked: nat)
    requires NamesReadable(bytes)
    ensures fresh(complete) && fresh(shortened) && complete != shortened
    ensures complete[..] == NamesIn(bytes, COMPLETE_LOCAL_NAME, BLANK)
    ensures shortened[..] == NamesIn(bytes, SHORTENED_LOCAL_NAME, BLANK)
    ensures looked == NamesLooked(bytes)
    ensures forall ss :: Decode(bytes) == Some(ss) ==>
      HoldsLast(complete[..], ss, 0x09) && HoldsLast(shortened[..], ss, 0x08)
  {
    hide Overlay, NamesIn, NamesReadable, NamesLooked, NamesLookedFrom, From, HoldsLast, Decode;
    FromStart(bytes);
    looked := 0;
    complete := new uint8[31](_ => 0);
    shortened := new uint8[31](_ => 0);
    var pos: int := 0;
    assert complete[..] == BLANK && shortened[..] == BLANK;
    while pos < |bytes|
      invariant pos >= 0 && NamesReadable(From(bytes, pos))
      invariant fresh(complete) && fresh(shortened) && complete != shortened
      invariant complete.Length == shortened.Length == 31
      invariant NamesIn(bytes, COMPLETE_LOCAL_NAME, BLANK)
             == NamesIn(From(bytes, pos), COMPLETE_LOCAL_NAME, complete[..])
      invariant NamesIn(bytes, SHORTENED_LOCAL_NAME, BLANK)
             == NamesIn(From(bytes, pos), SHORTENED_LOCAL_NAME, shortened[..])
      invariant NamesLooked(bytes) == Max(looked, NamesLookedFrom(bytes, pos))
      decreases |bytes| - pos
    {
      var fieldLen: int := bytes[pos];
      looked := Max(looked, pos + 1);
      if fieldLen == 0 {
        break;
      }
      NamesNext(bytes, pos, COMPLETE_LOCAL_NAME, complete[..]);
      NamesNext(bytes, pos, SHORTENED_LOCAL_NAME, shortened[..]);
      NamesLookedNext(bytes, pos);
      var fieldType := bytes[pos + 1];
      looked := Max(looked, pos + 2);
      if fieldType == 0x09 {
        CopyName(complete, bytes, pos + 2, fieldLen - 1);
        looked := Max(looked, pos + 2 + Min(fieldLen - 1, 30));
      }
      if fieldType == 0x08 {
        CopyName(shortened, bytes, pos + 2, fieldLen - 1);
        looked := Max(looked, pos + 2 + Min(fieldLen - 1, 30));
      }
      pos := pos + fieldLen + 1;
    }
    NamesEnd(bytes, pos, COMPLETE_LOCAL_NAME, complete[..]);
    NamesEnd(bytes, pos, SHORTENED_LOCAL_NAME, shortened[..]);
    if Decode(bytes).Some? {
      NamesByType(bytes, Decode(bytes).value);
    }
  }

  function NamesLookedFrom(bytes: seq<uint8>, pos: nat): nat {
    if pos >= |bytes| then 0 else pos + NamesLooked(bytes[pos..])
  }

  lemma {:induction false} NamesLookedNext(bytes: seq<uint8>, pos: nat)
    requires pos + 1 < |bytes| && bytes[pos] != 0
    ensures NamesLookedFrom(bytes, pos) ==
      Max(if IsNameType(bytes[pos + 1]) then pos + 2 + Min(bytes[pos] as int - 1, 30) else pos + 2,
          NamesLookedFrom(bytes, pos + bytes[pos] as int + 1))
  {
  }

  lemma {:induction false} FromStart(bytes: seq<uint8>)
    ensures From(bytes, 0) == bytes && NamesLookedFrom(bytes, 0) == NamesLooked(bytes)
  {
  }

  lemma {:induction false} NamesStep(bytes: seq<uint8>, kind: uint8, buffer: seq<uint8>)
    requires !Padding(bytes) && NamesReadable(bytes) && IsNameType(kind) && |buffer| == 31
    ensures |bytes| >= 2 && NamesReadable(Rest(bytes))
    ensures IsNameType(bytes[1]) ==> 2 + NameLen(bytes) <= |bytes|
    ensures NamesIn(bytes, kind, buffer)
         == NamesIn(Rest(bytes), kind,
                    if bytes[1] == kind then Overlay(buffer, bytes[2..2 + NameLen(bytes)]) else buffer)
  {
    hide Overlay;
  }

  lemma {:induction false} NamesNext(bytes: seq<uint8>, pos: nat, kind: uint8, buffer: seq<uint8>)
    requires pos < |bytes| && bytes[pos] != 0 && NamesReadable(From(bytes, pos)) && IsNameType(kind) && |buffer| == 31
    ensures pos + 1 < |bytes| && NamesReadable(From(bytes, pos + bytes[pos] as int + 1))
    ensures var n := Min(bytes[pos] as int - 1, 30);
      && (IsNameType(bytes[pos + 1]) ==> pos + 2 + n <= |bytes|)
      && NamesIn(From(bytes, pos), kind, buffer)
         == NamesIn(From(bytes, pos + bytes[pos] as int + 1), kind,
                    if bytes[pos + 1] == kind then Overlay(buffer, bytes[pos + 2..pos + 2 + n]) else buffer)
  {
    hide Overlay, NamesIn, NamesReadable;
    FromNext(bytes, pos);
    var rest := From(bytes, pos);
    NamesStep(rest, kind, buffer);
    if IsNameType(bytes[pos + 1]) {
      assert rest[2..2 + NameLen(rest)] == bytes[pos + 2..pos + 2 + NameLen(rest)];
    }
  }

  lemma {:induction false} NamesEnd(bytes: seq<uint8>, pos: nat, kind: uint8, buffer: seq<uint8>)
    requires pos >= |bytes| || bytes[pos] == 0
    requires NamesReadable(From(bytes, pos)) && IsNameType(kind) && |buffer| == 31
    ensures NamesIn(From(bytes, pos), kind, buffer) == buffer
    ensures NamesLookedFrom(bytes, pos) == if pos < |bytes| then pos + 1 else 0
  {
  }
}
