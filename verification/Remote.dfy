/** The attribute database of a remote device and what its GATT server answers.

    A database is a flat, handle-ordered attribute table; the answers to "discover all
    characteristics" and "find information" are read off that table by handle range alone, so that
    nothing here presupposes which ranges the client will ask for. */
module Remote {
  import opened Gatt
  import opened SortedList
  import opened Discovery

  // ----- well-formed databases (Bluetooth Core Specification, Vol 3, Part G, section 2.5)

  predicate ChrWf(s: Svc, j: nat)
    requires j < |s.chrs|
  {
    var c := s.chrs[j];
    && s.decl.start < c.decl.def < c.decl.val <= ChrEnd(s, j)
    && ChrEnd(s, j) <= s.decl.end
    && Ascending(Handles(c.dscs))
    && forall k :: 0 <= k < |c.dscs| ==> c.decl.val < c.dscs[k].handle <= ChrEnd(s, j)
  }

  predicate SvcWf(s: Svc) {
    && 1 <= s.decl.start <= s.decl.end
    && (forall j :: 0 <= j < |s.chrs| ==> ChrWf(s, j))
    && (forall j, k :: 0 <= j < k < |s.chrs| ==> ChrEnd(s, j) < s.chrs[k].decl.def)
  }

  predicate DbWf(db: seq<Svc>) {
    && (forall i :: 0 <= i < |db| ==> SvcWf(db[i]))
    && (forall i, j :: 0 <= i < j < |db| ==> db[i].decl.end < db[j].decl.start)
  }

  /** Every service without characteristics is its declaration alone, and cannot hold any. */
  predicate Populated(db: seq<Svc>) {
    forall i :: 0 <= i < |db| && db[i].chrs == [] ==> db[i].decl.start == db[i].decl.end
  }

  // ----- the attribute table; an attribute is shown as find-information shows it

  function OwnAttrs(c: Chr): seq<GattDsc> {
    [GattDsc(c.decl.def, CHARACTERISTIC_UUID), GattDsc(c.decl.val, c.decl.uuid)]
  }

  function ChrAttrs(c: Chr): seq<GattDsc> {
    OwnAttrs(c) + c.dscs
  }

  function ChrsAttrs(chrs: seq<Chr>): seq<GattDsc> {
    if chrs == [] then [] else ChrAttrs(chrs[0]) + ChrsAttrs(chrs[1..])
  }

  function SvcAttrs(s: Svc): seq<GattDsc> {
    [GattDsc(s.decl.start, PRIMARY_SERVICE_UUID)] + ChrsAttrs(s.chrs)
  }

  function Attrs(db: seq<Svc>): seq<GattDsc> {
    if db == [] then [] else SvcAttrs(db[0]) + Attrs(db[1..])
  }

  /** Find information: every attribute with `lo < handle <= hi`. */
  function FindInfo(attrs: seq<GattDsc>, lo: uint16, hi: uint16): seq<GattDsc> {
    if attrs == [] then []
    else (if lo < attrs[0].handle <= hi then [attrs[0]] else []) + FindInfo(attrs[1..], lo, hi)
  }

  function Decls(chrs: seq<Chr>): (r: seq<GattChr>)
    ensures |r| == |chrs| && forall k :: 0 <= k < |r| ==> r[k] == chrs[k].decl
  {
    seq(|chrs|, k requires 0 <= k < |chrs| => chrs[k].decl)
  }

  function AllDecls(db: seq<Svc>): seq<GattChr> {
    if db == [] then [] else Decls(db[0].chrs) + AllDecls(db[1..])
  }

  /** Read by type over the characteristic declarations in `[lo, hi]`. */
  function ReadDecls(decls: seq<GattChr>, lo: uint16, hi: uint16): seq<GattChr> {
    if decls == [] then []
    else (if lo <= decls[0].def <= hi then [decls[0]] else []) + ReadDecls(decls[1..], lo, hi)
  }

  predicate Selected(root: Request, s: Svc) {
    match root
    case SvcsByUuid(u) => s.decl.uuid == u
    case _ => true
  }

  /** The part of the database a discovery rooted at `root` is after. */
  function Goal(db: seq<Svc>, root: Request): seq<Svc> {
    if db == [] then []
    else (if Selected(root, db[0]) then [db[0]] else []) + Goal(db[1..], root)
  }

  // ----- the server's answers

  datatype Item = SvcItem(svc: GattSvc) | ChrItem(chr: GattChr) | DscItem(dsc: GattDsc)

  function Answer(db: seq<Svc>, req: Request): seq<Item> {
    match req
    case ChrsIn(start, end) =>
      var r := ReadDecls(AllDecls(db), start, end);
      seq(|r|, k requires 0 <= k < |r| => ChrItem(r[k]))
    case DscsIn(val, end) =>
      var r := FindInfo(Attrs(db), val, end);
      seq(|r|, k requires 0 <= k < |r| => DscItem(r[k]))
    case _ =>
      var r := Goal(db, req);
      seq(|r|, k requires 0 <= k < |r| => SvcItem(r[k].decl))
  }

  // ----- a goal is a well-formed database made of the remote's services

  lemma {:induction false} GoalSubset(db: seq<Svc>, root: Request, k: nat)
    requires k < |Goal(db, root)|
    ensures Goal(db, root)[k] in db
  {
    var skip := if Selected(root, db[0]) then 1 else 0;
    if k >= skip {
      GoalSubset(db[1..], root, k - skip);
    }
  }

  lemma {:induction false} GoalWf(db: seq<Svc>, root: Request)
    requires DbWf(db)
    ensures DbWf(Goal(db, root))
  {
    if db != [] {
      var rest := Goal(db[1..], root);
      assert DbWf(db[1..]);
      GoalWf(db[1..], root);
      if Selected(root, db[0]) {
        forall k | 0 <= k < |rest|
          ensures db[0].decl.end < rest[k].decl.start
        {
          GoalSubset(db[1..], root, k);
          var i :| 0 <= i < |db[1..]| && db[1..][i] == rest[k];
          assert db[i + 1] == rest[k];
        }
        PrependWf(db[0], rest);
      }
    }
  }

  lemma {:induction false} PrependWf(s: Svc, rest: seq<Svc>)
    requires SvcWf(s) && DbWf(rest)
    requires forall k :: 0 <= k < |rest| ==> s.decl.end < rest[k].decl.start
    ensures DbWf([s] + rest)
  {
  }

  lemma {:induction false} GoalOfAll(db: seq<Svc>)
    ensures Goal(db, AllSvcs) == db
  {
    if db != [] {
      GoalOfAll(db[1..]);
    }
  }

  // ----- answers by range, on the ranges that belong to one service or characteristic

  predicate AllWithin(attrs: seq<GattDsc>, lo: int, hi: int) {
    forall k :: 0 <= k < |attrs| ==> lo <= attrs[k].handle <= hi
  }

  lemma {:induction false} FindInfoAppend(a: seq<GattDsc>, b: seq<GattDsc>, lo: uint16, hi: uint16)
    ensures FindInfo(a + b, lo, hi) == FindInfo(a, lo, hi) + FindInfo(b, lo, hi)
  {
    if a == [] {
      assert a + b == b;
    } else {
      assert (a + b)[1..] == a[1..] + b;
      FindInfoAppend(a[1..], b, lo, hi);
    }
  }

  lemma {:induction false} FindInfoNone(attrs: seq<GattDsc>, lo: uint16, hi: uint16)
    requires AllWithin(attrs, 0, lo) || AllWithin(attrs, hi + 1, 0xFFFF)
    ensures FindInfo(attrs, lo, hi) == []
  {
    if attrs != [] {
      FindInfoNone(attrs[1..], lo, hi);
    }
  }

  lemma {:induction false} FindInfoAll(attrs: seq<GattDsc>, lo: uint16, hi: uint16)
    requires AllWithin(attrs, lo + 1, hi)
    ensures FindInfo(attrs, lo, hi) == attrs
  {
    if attrs != [] {
      FindInfoAll(attrs[1..], lo, hi);
    }
  }

  /** The attributes of the characteristics `chrs` lie between `lo` and `hi` when each one's do. */
  lemma {:induction false} ChrsAttrsWithin(chrs: seq<Chr>, lo: int, hi: int)
    requires forall j :: 0 <= j < |chrs| ==> AllWithin(ChrAttrs(chrs[j]), lo, hi)
    ensures AllWithin(ChrsAttrs(chrs), lo, hi)
  {
    if chrs != [] {
      assert AllWithin(ChrAttrs(chrs[0]), lo, hi);
      ChrsAttrsWithin(chrs[1..], lo, hi);
    }
  }

  lemma {:induction false} ChrAttrsWithin(s: Svc, j: nat)
    requires SvcWf(s) && j < |s.chrs|
    ensures AllWithin(ChrAttrs(s.chrs[j]), s.chrs[j].decl.def, ChrEnd(s, j))
  {
    assert ChrWf(s, j);
  }

  lemma {:induction false} SvcAttrsWithin(s: Svc)
    requires SvcWf(s)
    ensures AllWithin(SvcAttrs(s), s.decl.start, s.decl.end)
  {
    forall j | 0 <= j < |s.chrs|
      ensures AllWithin(ChrAttrs(s.chrs[j]), s.decl.start, s.decl.end)
    {
      ChrAttrsWithin(s, j);
      assert ChrWf(s, j);
    }
    ChrsAttrsWithin(s.chrs, s.decl.start, s.decl.end);
  }

  lemma {:induction false} AttrsWithin(db: seq<Svc>, lo: int, hi: int)
    requires forall i :: 0 <= i < |db| ==> AllWithin(SvcAttrs(db[i]), lo, hi)
    ensures AllWithin(Attrs(db), lo, hi)
  {
    if db != [] {
      assert AllWithin(SvcAttrs(db[0]), lo, hi);
      AttrsWithin(db[1..], lo, hi);
    }
  }

  lemma {:induction false} ChrsAttrsSplit(a: seq<Chr>, b: seq<Chr>)
    ensures ChrsAttrs(a + b) == ChrsAttrs(a) + ChrsAttrs(b)
  {
    if a == [] {
      assert a + b == b;
    } else {
      assert (a + b)[1..] == a[1..] + b;
      ChrsAttrsSplit(a[1..], b);
    }
  }

  lemma {:induction false} AttrsSplit(a: seq<Svc>, b: seq<Svc>)
    ensures Attrs(a + b) == Attrs(a) + Attrs(b)
  {
    if a == [] {
      assert a + b == b;
    } else {
      assert (a + b)[1..] == a[1..] + b;
      AttrsSplit(a[1..], b);
    }
  }

  lemma {:induction false} FindInfoMiddle(pre: seq<GattDsc>, mid: seq<GattDsc>, post: seq<GattDsc>, lo: uint16,
                                        hi: uint16)
    requires AllWithin(pre, 0, lo)
    requires AllWithin(post, hi as int + 1, 0xFFFF)
    ensures FindInfo(pre + (mid + post), lo, hi) == FindInfo(mid, lo, hi)
  {
    FindInfoAppend(pre, mid + post, lo, hi);
    FindInfoAppend(mid, post, lo, hi);
    FindInfoNone(pre, lo, hi);
    FindInfoNone(post, lo, hi);
  }

  /** Inside one service, the other characteristics' attributes lie outside `(val, end]`. */
  lemma {:induction false} ChrNeighbours(s: Svc, j: nat)
    requires SvcWf(s) && j < |s.chrs|
    ensures AllWithin(ChrsAttrs(s.chrs[..j]), 0, s.chrs[j].decl.val)
    ensures AllWithin(ChrsAttrs(s.chrs[j + 1..]), ChrEnd(s, j) as int + 1, 0xFFFF)
  {
    assert ChrWf(s, j);
    forall k | 0 <= k < j ensures AllWithin(ChrAttrs(s.chrs[..j][k]), 0, s.chrs[j].decl.val) {
      ChrAttrsWithin(s, k);
    }
    ChrsAttrsWithin(s.chrs[..j], 0, s.chrs[j].decl.val);
    var post := s.chrs[j + 1..];
    forall k | 0 <= k < |post| ensures AllWithin(ChrAttrs(post[k]), ChrEnd(s, j) as int + 1, 0xFFFF) {
      ChrAttrsWithin(s, j + 1 + k);
    }
    ChrsAttrsWithin(post, ChrEnd(s, j) as int + 1, 0xFFFF);
  }

  function BeforeDscs(s: Svc, j: nat): seq<GattDsc>
    requires j < |s.chrs|
  {
    [GattDsc(s.decl.start, PRIMARY_SERVICE_UUID)] + (ChrsAttrs(s.chrs[..j]) + OwnAttrs(s.chrs[j]))
  }

  /** The attribute table of a service, cut around the descriptors of one characteristic. */
  lemma {:induction false} SvcAttrsCut(s: Svc, j: nat)
    requires j < |s.chrs|
    ensures SvcAttrs(s) == BeforeDscs(s, j) + (s.chrs[j].dscs + ChrsAttrs(s.chrs[j + 1..]))
  {
    var c := s.chrs[j];
    var head := [GattDsc(s.decl.start, PRIMARY_SERVICE_UUID)];
    var before, own, after := ChrsAttrs(s.chrs[..j]), OwnAttrs(c), ChrsAttrs(s.chrs[j + 1..]);
    assert s.chrs == s.chrs[..j] + ([c] + s.chrs[j + 1..]);
    ChrsAttrsSplit(s.chrs[..j], [c] + s.chrs[j + 1..]);
    Regroup(head, before, own, c.dscs, after);
  }

  lemma {:induction false} Regroup<T>(a: seq<T>, b: seq<T>, c: seq<T>, d: seq<T>, e: seq<T>)
    ensures a + (b + ((c + d) + e)) == (a + (b + c)) + (d + e)
  {
  }

  lemma {:induction false} FindInfoInSvc(s: Svc, j: nat)
    requires SvcWf(s) && j < |s.chrs|
    ensures FindInfo(SvcAttrs(s), s.chrs[j].decl.val, ChrEnd(s, j)) == s.chrs[j].dscs
  {
    var lo, hi, dscs := s.chrs[j].decl.val, ChrEnd(s, j), s.chrs[j].dscs;
    assert ChrWf(s, j);
    ChrNeighbours(s, j);
    SvcAttrsCut(s, j);
    FindInfoMiddle(BeforeDscs(s, j), dscs, ChrsAttrs(s.chrs[j + 1..]), lo, hi);
    FindInfoAll(dscs, lo, hi);
  }

  lemma {:induction false} SvcNeighbours(db: seq<Svc>, i: nat)
    requires DbWf(db) && i < |db|
    ensures AllWithin(Attrs(db[..i]), 0, db[i].decl.start as int - 1)
    ensures AllWithin(Attrs(db[i + 1..]), db[i].decl.end as int + 1, 0xFFFF)
  {
    forall k | 0 <= k < i ensures AllWithin(SvcAttrs(db[..i][k]), 0, db[i].decl.start as int - 1) {
      SvcAttrsWithin(db[k]);
    }
    AttrsWithin(db[..i], 0, db[i].decl.start as int - 1);
    var post := db[i + 1..];
    forall k | 0 <= k < |post| ensures AllWithin(SvcAttrs(post[k]), db[i].decl.end as int + 1, 0xFFFF) {
      SvcAttrsWithin(db[i + 1 + k]);
    }
    AttrsWithin(post, db[i].decl.end as int + 1, 0xFFFF);
  }

  /** The range `(val, end]` of a characteristic holds its descriptors and no other attribute of
      the whole table: that is what the answer to a descriptor procedure over it consists of. */
  lemma {:induction false} DscAnswer(db: seq<Svc>, i: nat, j: nat)
    requires DbWf(db) && i < |db| && j < |db[i].chrs|
    ensures FindInfo(Attrs(db), db[i].chrs[j].decl.val, ChrEnd(db[i], j)) == db[i].chrs[j].dscs
  {
    var s := db[i];
    assert ChrWf(s, j);
    SvcNeighbours(db, i);
    assert Attrs(db) == Attrs(db[..i]) + (SvcAttrs(s) + Attrs(db[i + 1..])) by {
      assert db == db[..i] + ([s] + db[i + 1..]);
      AttrsSplit(db[..i], [s] + db[i + 1..]);
    }
    FindInfoMiddle(Attrs(db[..i]), SvcAttrs(s), Attrs(db[i + 1..]), s.chrs[j].decl.val, ChrEnd(s, j));
    FindInfoInSvc(s, j);
  }

  lemma {:induction false} ReadDeclsAppend(a: seq<GattChr>, b: seq<GattChr>, lo: uint16, hi: uint16)
    ensures ReadDecls(a + b, lo, hi) == ReadDecls(a, lo, hi) + ReadDecls(b, lo, hi)
  {
    if a == [] {
      assert a + b == b;
    } else {
      assert (a + b)[1..] == a[1..] + b;
      ReadDeclsAppend(a[1..], b, lo, hi);
    }
  }

  lemma {:induction false} ReadDeclsAll(a: seq<GattChr>, lo: uint16, hi: uint16)
    requires forall k :: 0 <= k < |a| ==> lo <= a[k].def <= hi
    ensures ReadDecls(a, lo, hi) == a
  {
    if a != [] {
      ReadDeclsAll(a[1..], lo, hi);
    }
  }

  lemma {:induction false} ReadDeclsNone(a: seq<GattChr>, lo: uint16, hi: uint16)
    requires forall k :: 0 <= k < |a| ==> !(lo <= a[k].def <= hi)
    ensures ReadDecls(a, lo, hi) == []
  {
    if a != [] {
      ReadDeclsNone(a[1..], lo, hi);
    }
  }

  /** The answer to a characteristic procedure over a service's range is that service's
      declarations. */
  lemma {:induction false} ChrAnswer(db: seq<Svc>, i: nat)
    requires DbWf(db) && i < |db|
    ensures ReadDecls(AllDecls(db), db[i].decl.start, db[i].decl.end) == Decls(db[i].chrs)
  {
    var lo, hi := db[i].decl.start, db[i].decl.end;
    ReadDeclsAppend(Decls(db[0].chrs), AllDecls(db[1..]), lo, hi);
    forall k | 0 <= k < |db[0].chrs| ensures db[0].decl.start < db[0].chrs[k].decl.def <= db[0].decl.end {
      assert ChrWf(db[0], k);
    }
    if i == 0 {
      ReadDeclsAll(Decls(db[0].chrs), lo, hi);
      OtherDecls(db[1..], lo, hi);
    } else {
      ReadDeclsNone(Decls(db[0].chrs), lo, hi);
      ChrAnswer(db[1..], i - 1);
    }
  }

  lemma {:induction false} OtherDecls(db: seq<Svc>, lo: uint16, hi: uint16)
    requires DbWf(db) && forall i :: 0 <= i < |db| ==> hi < db[i].decl.start
    ensures ReadDecls(AllDecls(db), lo, hi) == []
  {
    if db != [] {
      forall k | 0 <= k < |db[0].chrs| ensures hi < db[0].chrs[k].decl.def {
        assert ChrWf(db[0], k);
      }
      ReadDeclsNone(Decls(db[0].chrs), lo, hi);
      ReadDeclsAppend(Decls(db[0].chrs), AllDecls(db[1..]), lo, hi);
      OtherDecls(db[1..], lo, hi);
    }
  }

  /** The two range answers, for any service of the database. */
  lemma {:induction false} AnswerChrs(db: seq<Svc>, s: Svc)
    requires DbWf(db) && s in db
    ensures var a := Answer(db, ChrsIn(s.decl.start, s.decl.end));
      |a| == |s.chrs| && forall k :: 0 <= k < |a| ==> a[k] == ChrItem(s.chrs[k].decl)
  {
    var i :| 0 <= i < |db| && db[i] == s;
    ChrAnswer(db, i);
  }

  lemma {:induction false} AnswerDscs(db: seq<Svc>, s: Svc, j: nat)
    requires DbWf(db) && s in db && j < |s.chrs|
    ensures var a := Answer(db, DscsIn(s.chrs[j].decl.val, ChrEnd(s, j)));
      |a| == |s.chrs[j].dscs| && forall k :: 0 <= k < |a| ==> a[k] == DscItem(s.chrs[j].dscs[k])
  {
    var i :| 0 <= i < |db| && db[i] == s;
    DscAnswer(db, i, j);
  }
}
