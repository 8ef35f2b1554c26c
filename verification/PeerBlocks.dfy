/** The blocks of the four pools: each is free or sits at exactly one position of one list, exactly
    when the counts add up. */
module PeerBlocks {
  import opened Gatt
  import opened PeerHeap
  import D = Discovery
  import T = PeerTable

  // ----- all list positions, level by level

  ghost function SvcsOf(ps: seq<PeerRec>): seq<PeerSvc>
    reads ps`svcSeq
  {
    if ps == [] then [] else ps[0].svcSeq + SvcsOf(ps[1..])
  }

  ghost function ChrsOf(ss: seq<PeerSvc>): seq<PeerChr>
    reads ss`chrSeq
  {
    if ss == [] then [] else ss[0].chrSeq + ChrsOf(ss[1..])
  }

  ghost function DscsOf(cs: seq<PeerChr>): seq<PeerDsc>
    reads cs`dscSeq
  {
    if cs == [] then [] else cs[0].dscSeq + DscsOf(cs[1..])
  }

  lemma {:induction false} ChrsOfAppend(a: seq<PeerSvc>, b: seq<PeerSvc>)
    ensures ChrsOf(a + b) == ChrsOf(a) + ChrsOf(b)
  {
    if a == [] {
      assert a + b == b;
    } else {
      ChrsOfAppend(a[1..], b);
      assert (a + b)[1..] == a[1..] + b;
    }
  }

  lemma {:induction false} DscsOfAppend(a: seq<PeerChr>, b: seq<PeerChr>)
    ensures DscsOf(a + b) == DscsOf(a) + DscsOf(b)
  {
    if a == [] {
      assert a + b == b;
    } else {
      DscsOfAppend(a[1..], b);
      assert (a + b)[1..] == a[1..] + b;
    }
  }

  // ----- no block sits at two positions: its owner tells the list

  lemma {:induction false} DistinctJoin<X>(a: seq<X>, b: seq<X>)
    requires Distinct(a) && Distinct(b) && forall x :: x in a ==> x !in b
    ensures Distinct(a + b)
  {
    var ab := a + b;
    forall i, j | 0 <= i < j < |ab| ensures ab[i] != ab[j] {
      if j < |a| {
        assert ab[i] == a[i] && ab[j] == a[j];
      } else if i < |a| {
        assert ab[i] in a && ab[j] == b[j - |a|];
      } else {
        assert ab[i] == b[i - |a|] && ab[j] == b[j - |a|];
      }
    }
  }

  lemma {:induction false} SvcsOfOnce(ps: seq<PeerRec>)
    requires Distinct(ps) && forall p :: p in ps ==> OkPeer(p)
    ensures Distinct(SvcsOf(ps)) && forall s :: s in SvcsOf(ps) ==> s.owner in ps
  {
    if ps != [] {
      DistinctTail(ps);
      SvcsOfOnce(ps[1..]);
      assert OkPeer(ps[0]);
      DistinctJoin(ps[0].svcSeq, SvcsOf(ps[1..]));
    }
  }

  lemma {:induction false} ChrsOfOnce(ss: seq<PeerSvc>)
    requires Distinct(ss) && forall s :: s in ss ==> OkSvc(s)
    ensures Distinct(ChrsOf(ss)) && forall c :: c in ChrsOf(ss) ==> c.owner in ss
  {
    if ss != [] {
      DistinctTail(ss);
      ChrsOfOnce(ss[1..]);
      assert OkSvc(ss[0]);
      DistinctJoin(ss[0].chrSeq, ChrsOf(ss[1..]));
    }
  }

  lemma {:induction false} DscsOfOnce(cs: seq<PeerChr>)
    requires Distinct(cs) && forall c :: c in cs ==> OkChr(c)
    ensures Distinct(DscsOf(cs)) && forall d :: d in DscsOf(cs) ==> d.owner in cs
  {
    if cs != [] {
      DistinctTail(cs);
      DscsOfOnce(cs[1..]);
      assert OkChr(cs[0]);
      DistinctJoin(cs[0].dscSeq, DscsOf(cs[1..]));
    }
  }

  // ----- the counts of the trees are the numbers of positions

  lemma {:induction false} DscsCounted(cs: seq<PeerChr>, chrs: seq<Chr>)
    requires |cs| == |chrs| && forall k :: 0 <= k < |cs| ==> OkChr(cs[k]) && cs[k].view == chrs[k]
    ensures |DscsOf(cs)| == DscsOfChrs(chrs)
  {
    hide Distinct;
    if cs != [] {
      DscsCounted(cs[1..], chrs[1..]);
      assert OkChr(cs[0]);
    }
  }

  lemma {:induction false} TreeCounted(ss: seq<PeerSvc>, svcs: seq<Svc>)
    requires |ss| == |svcs| && forall k :: 0 <= k < |ss| ==> OkSvc(ss[k]) && ss[k].view == svcs[k]
    requires forall c :: c in ChrsOf(ss) ==> OkChr(c)
    ensures |ChrsOf(ss)| == ChrCount(svcs) && |DscsOf(ChrsOf(ss))| == DscCount(svcs)
  {
    hide Distinct, OkChr;
    if ss != [] {
      var s := ss[0];
      assert OkSvc(s);
      TreeCounted(ss[1..], svcs[1..]);
      DscsOfAppend(s.chrSeq, ChrsOf(ss[1..]));
      DscsCounted(s.chrSeq, svcs[0].chrs);
    }
  }

  lemma {:induction false} PeerRows(p: PeerRec)
    requires OkPeer(p)
    ensures |p.svcSeq| == |p.view| && forall k :: 0 <= k < |p.svcSeq| ==> p.svcSeq[k].view == p.view[k]
  {
  }

  lemma {:induction false} TableCounted(pools: D.Pools, ps: seq<PeerRec>)
    requires forall p :: p in ps ==> OkPeer(p)
    requires forall s :: s in SvcsOf(ps) ==> OkSvc(s)
    requires forall c :: c in ChrsOf(SvcsOf(ps)) ==> OkChr(c)
    ensures T.Total(pools, ModelsOf(ps))
         == D.Pools(pools.svcs + |SvcsOf(ps)|, pools.chrs + |ChrsOf(SvcsOf(ps))|,
                    pools.dscs + |DscsOf(ChrsOf(SvcsOf(ps)))|)
  {
    hide Distinct, OkPeer, OkSvc, OkChr;
    if ps != [] {
      var p, rest := ps[0], SvcsOf(ps[1..]);
      PeerRows(p);
      ChrsOfAppend(p.svcSeq, rest);
      DscsOfAppend(ChrsOf(p.svcSeq), ChrsOf(rest));
      TableCounted(pools, ps[1..]);
      TreeCounted(p.svcSeq, p.view);
      assert ModelsOf(ps)[1..] == ModelsOf(ps[1..]);
    }
  }

  // ----- free or on one list

  ghost function Elements<X>(xs: seq<X>): set<X> {
    set x | x in xs
  }

  lemma {:induction false} ElementsCount<X>(xs: seq<X>)
    requires Distinct(xs)
    ensures |Elements(xs)| == |xs|
  {
    if xs != [] {
      DistinctTail(xs);
      ElementsCount(xs[1..]);
      assert Elements(xs) == {xs[0]} + Elements(xs[1..]);
    }
  }

  /** Every block of a pool is free or at a list position, and none is both. */
  ghost predicate Partitioned<X>(free: set<X>, used: seq<X>, all: set<X>) {
    && (forall x :: x in all ==> x in free || x in used)
    && (forall x :: x in free ==> x in all && x !in used)
    && (forall x :: x in used ==> x in all)
  }

  lemma {:induction false} PartitionedIffCounted<X>(free: set<X>, used: seq<X>, all: set<X>)
    requires Distinct(used) && free <= all && forall x :: x in used ==> x in all && x !in free
    ensures Partitioned(free, used, all) <==> |free| + |used| == |all|
  {
    var both := free + Elements(used);
    ElementsCount(used);
    assert free !! Elements(used);
    assert both <= all;
    if Partitioned(free, used, all) {
      assert both == all;
    }
    if |both| == |all| {
      SameSize(both, all);
    }
  }

  lemma {:induction false} SameSize<X>(a: set<X>, b: set<X>)
    requires a <= b && |a| == |b|
    ensures a == b
  {
    assert b == a + (b - a);
  }

  /** What a valid heap says about its lists. */
  lemma {:induction false} ListsWithin(db: PeerDb)
    requires db.Valid()
    ensures var ss := SvcsOf(db.peerSeq);
      var cs := ChrsOf(ss);
      && Distinct(db.peerSeq) && (forall p :: p in db.peerSeq ==> p in db.allPeers && p !in db.peerPool && OkPeer(p))
      && Distinct(ss) && (forall s :: s in ss ==> s in db.allSvcs && s !in db.svcPool && OkSvc(s))
      && Distinct(cs) && (forall c :: c in cs ==> c in db.allChrs && c !in db.chrPool && OkChr(c))
      && Distinct(DscsOf(cs)) && (forall d :: d in DscsOf(cs) ==> d in db.allDscs && d !in db.dscPool)
  {
    hide Distinct, OkPeer, OkSvc, OkChr;
    var ss := SvcsOf(db.peerSeq);
    SvcsOfOnce(db.peerSeq);
    SvcsWithin(db, db.peerSeq);
    ChrsOfOnce(ss);
    ChrsWithin(db, ss);
    DscsOfOnce(ChrsOf(ss));
    DscsWithin(db, ChrsOf(ss));
  }

  lemma {:induction false} SvcsWithin(db: PeerDb, ps: seq<PeerRec>)
    requires db.Valid() && forall p :: p in ps ==> p in db.allPeers
    ensures forall s :: s in SvcsOf(ps) ==> s in db.allSvcs && OkSvc(s)
  {
    hide OkPeer, OkSvc, OkChr;
    if ps != [] {
      SvcsWithin(db, ps[1..]);
      assert Within(ps[0].svcSeq, db.allSvcs);
    }
  }

  lemma {:induction false} ChrsWithin(db: PeerDb, ss: seq<PeerSvc>)
    requires db.Valid() && forall s :: s in ss ==> s in db.allSvcs
    ensures forall c :: c in ChrsOf(ss) ==> c in db.allChrs && OkChr(c)
  {
    hide OkPeer, OkSvc, OkChr;
    if ss != [] {
      ChrsWithin(db, ss[1..]);
      assert Within(ss[0].chrSeq, db.allChrs);
    }
  }

  lemma {:induction false} DscsWithin(db: PeerDb, cs: seq<PeerChr>)
    requires db.Valid() && forall c :: c in cs ==> c in db.allChrs
    ensures forall d :: d in DscsOf(cs) ==> d in db.allDscs
  {
    hide OkPeer, OkSvc, OkChr;
    if cs != [] {
      DscsWithin(db, cs[1..]);
      assert Within(cs[0].dscSeq, db.allDscs);
    }
  }

  /** In a valid heap no block is at two list positions or both free and listed, and the counts add
      up to the sizes of the pools if and only if no block is lost. */
  lemma {:induction false} NoBlockLost(db: PeerDb)
    requires db.Valid()
    ensures var ss := SvcsOf(db.peerSeq);
      var cs := ChrsOf(ss);
      && Distinct(ss) && Distinct(cs) && Distinct(DscsOf(cs))
      && (T.Total(db.Free(), db.Models()) == D.Pools(|db.allSvcs|, |db.allChrs|, |db.allDscs|) <==>
            && Partitioned(db.svcPool, ss, db.allSvcs)
            && Partitioned(db.chrPool, cs, db.allChrs)
            && Partitioned(db.dscPool, DscsOf(cs), db.allDscs))
      && (|db.peerPool| + |db.peerSeq| == |db.allPeers| <==> Partitioned(db.peerPool, db.peerSeq, db.allPeers))
  {
    hide Distinct, OkPeer, OkSvc, OkChr, Partitioned, PeerDb.Valid;
    var ss := SvcsOf(db.peerSeq);
    var cs := ChrsOf(ss);
    ListsWithin(db);
    PoolsWithin(db);
    TableCounted(db.Free(), db.peerSeq);
    PartitionedIffCounted(db.peerPool, db.peerSeq, db.allPeers);
    PartitionedIffCounted(db.svcPool, ss, db.allSvcs);
    PartitionedIffCounted(db.chrPool, cs, db.allChrs);
    PartitionedIffCounted(db.dscPool, DscsOf(cs), db.allDscs);
  }

  lemma {:induction false} PoolsWithin(db: PeerDb)
    requires db.Valid()
    ensures db.peerPool <= db.allPeers && db.svcPool <= db.allSvcs
    ensures db.chrPool <= db.allChrs && db.dscPool <= db.allDscs
  {
  }
}
