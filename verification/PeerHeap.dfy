/** The peer table as it sits in memory: intrusive singly linked lists of blocks from four pools.
    Ghost sequences mirror the lists, ghost owners tie each block to the list it is in, and ghost
    views hold the tree below each block; `Valid` ties all of them to the pointers. */
module PeerHeap {
  import opened Gatt
  import opened SortedList
  import opened Snapshots
  import opened Selection
  import D = Discovery
  import R = Runs
  import T = PeerTable

  class PeerDsc {
    var next: PeerDsc?
    var dsc: GattDsc
    ghost var owner: PeerChr?
  }

  class PeerChr {
    var next: PeerChr?
    var chr: GattChr
    var dscs: PeerDsc?
    ghost var owner: PeerSvc?
    ghost var dscSeq: seq<PeerDsc>
    ghost var view: Chr
  }

  class PeerSvc {
    var next: PeerSvc?
    var svc: GattSvc
    var chrs: PeerChr?
    ghost var owner: PeerRec?
    ghost var chrSeq: seq<PeerChr>
    ghost var view: Svc
  }

  class PeerRec {
    var next: PeerRec?
    var connHandle: uint16
    var svcs: PeerSvc?
    var discPrevChrVal: uint16
    var curSvc: PeerSvc?
    var discCb: bool
    ghost var svcSeq: seq<PeerSvc>
    ghost var view: seq<Svc>
    /** The start handle of `curSvc` while that pointer may be followed. */
    ghost var cur: Option<uint16>
    var trace: seq<D.Obs>

    ghost function Model(): D.Peer
      reads this`connHandle, this`view, this`discPrevChrVal, this`cur, this`discCb, this`trace
    {
      D.Peer(connHandle, view, discPrevChrVal, cur, discCb, trace)
    }
  }

  // ----- a block and the list it heads

  /** No block is in a list twice. */
  ghost predicate Distinct<T>(xs: seq<T>) {
    forall i, j :: 0 <= i < j < |xs| ==> xs[i] != xs[j]
  }

  ghost predicate Within<T>(xs: seq<T>, all: set<T>) {
    forall i :: 0 <= i < |xs| ==> xs[i] in all
  }

  lemma {:induction false} DistinctInsert<T>(xs: seq<T>, k: nat, x: T)
    requires Distinct(xs) && x !in xs && k <= |xs|
    ensures Distinct(xs[..k] + [x] + xs[k..]) && Distinct(xs[..k] + [x])
  {
  }

  lemma {:induction false} DistinctAt<T>(xs: seq<T>, k: nat)
    requires Distinct(xs) && k < |xs|
    ensures forall i :: 0 <= i < |xs| && i != k ==> xs[i] != xs[k]
  {
  }

  lemma {:induction false} DistinctTail<T>(xs: seq<T>)
    requires Distinct(xs) && xs != []
    ensures Distinct(xs[1..]) && xs[0] !in xs[1..]
  {
  }

  lemma {:induction false} DistinctRemove<T>(xs: seq<T>, k: nat)
    requires Distinct(xs) && k < |xs|
    ensures Distinct(xs[..k] + xs[k + 1..]) && xs[k] !in xs[..k] + xs[k + 1..]
  {
  }

  ghost predicate OkChr(c: PeerChr)
    reads c`view, c`chr, c`dscs, c`dscSeq, c.dscSeq`next, c.dscSeq`dsc, c.dscSeq`owner
  {
    OkChrAs(c, c.view)
  }

  /** The list of `c` holds what `view` says. */
  ghost predicate OkChrAs(c: PeerChr, view: Chr)
    reads c`chr, c`dscs, c`dscSeq, c.dscSeq`next, c.dscSeq`dsc, c.dscSeq`owner
  {
    && view.decl == c.chr && |view.dscs| == |c.dscSeq|
    && c.dscs == (if c.dscSeq == [] then null else c.dscSeq[0])
    && Distinct(c.dscSeq)
    && (forall i {:trigger c.dscSeq[i].next} :: 0 <= i < |c.dscSeq| ==>
          c.dscSeq[i].next == (if i + 1 < |c.dscSeq| then c.dscSeq[i + 1] else null))
    && forall i :: 0 <= i < |c.dscSeq| ==> c.dscSeq[i].dsc == view.dscs[i] && c.dscSeq[i].owner == c
  }

  ghost predicate OkSvc(s: PeerSvc)
    reads s`view, s`svc, s`chrs, s`chrSeq
    reads s.chrSeq`next, s.chrSeq`chr, s.chrSeq`view, s.chrSeq`owner
  {
    OkSvcAs(s, s.view)
  }

  /** The list of `s` holds what `view` says. */
  ghost predicate OkSvcAs(s: PeerSvc, view: Svc)
    reads s`svc, s`chrs, s`chrSeq, s.chrSeq`next, s.chrSeq`chr, s.chrSeq`view, s.chrSeq`owner
  {
    && view.decl == s.svc && |view.chrs| == |s.chrSeq|
    && s.chrs == (if s.chrSeq == [] then null else s.chrSeq[0])
    && Distinct(s.chrSeq)
    && (forall i {:trigger s.chrSeq[i].next} :: 0 <= i < |s.chrSeq| ==>
          s.chrSeq[i].next == (if i + 1 < |s.chrSeq| then s.chrSeq[i + 1] else null))
    && forall i :: 0 <= i < |s.chrSeq| ==>
         && s.chrSeq[i].view == view.chrs[i] && s.chrSeq[i].chr == view.chrs[i].decl
         && s.chrSeq[i].owner == s
  }

  ghost predicate OkPeer(p: PeerRec)
    reads p`view, p`svcs, p`svcSeq, p`cur, p`curSvc
    reads p.svcSeq`next, p.svcSeq`svc, p.svcSeq`view, p.svcSeq`owner
  {
    OkPeerAs(p, p.view)
  }

  /** The list of `p` holds what `view` says. */
  ghost predicate OkPeerAs(p: PeerRec, view: seq<Svc>)
    reads p`svcs, p`svcSeq, p`cur, p`curSvc
    reads p.svcSeq`next, p.svcSeq`svc, p.svcSeq`view, p.svcSeq`owner
  {
    && |view| == |p.svcSeq|
    && p.svcs == (if p.svcSeq == [] then null else p.svcSeq[0])
    && Distinct(p.svcSeq)
    && (forall i {:trigger p.svcSeq[i].next} :: 0 <= i < |p.svcSeq| ==>
          p.svcSeq[i].next == (if i + 1 < |p.svcSeq| then p.svcSeq[i + 1] else null))
    && (forall i :: 0 <= i < |p.svcSeq| ==>
          && p.svcSeq[i].view == view[i] && p.svcSeq[i].svc == view[i].decl
          && p.svcSeq[i].owner == p)
    && (p.cur.Some? ==>
         && p.curSvc != null && p.curSvc in p.svcSeq
         && p.curSvc.svc.start == p.cur.value)
  }

  // ----- the walks

  method DscFindPrev(c: PeerChr, h: uint16) returns (prev: PeerDsc?)
    requires OkChr(c)
    ensures var k := LeadingBelow(Handles(c.view.dscs), h);
      k <= |c.dscSeq| && prev == if k == 0 then null else c.dscSeq[k - 1]
  {
    prev := null;
    ghost var k := 0;
    var dsc := c.dscs;
    while dsc != null
      invariant k <= |c.dscSeq| && dsc == (if k < |c.dscSeq| then c.dscSeq[k] else null)
      invariant prev == (if k == 0 then null else c.dscSeq[k - 1])
      invariant forall i :: 0 <= i < k ==> c.view.dscs[i].handle < h
      decreases |c.dscSeq| - k
    {
      if dsc.dsc.handle >= h {
        break;
      }
      prev := dsc;
      dsc := dsc.next;
      k := k + 1;
    }
    LeadingBelowUnique(Handles(c.view.dscs), h, k);
  }

  method DscFind(c: PeerChr, h: uint16) returns (dsc: PeerDsc?, prev: PeerDsc?)
    requires OkChr(c)
    ensures var k := LeadingBelow(Handles(c.view.dscs), h);
      k <= |c.dscSeq| && prev == if k == 0 then null else c.dscSeq[k - 1]
    ensures match Find(Handles(c.view.dscs), h)
            case None => dsc == null
            case Some(k) => k < |c.dscSeq| && dsc == c.dscSeq[k]
  {
    prev := DscFindPrev(c, h);
    if prev == null {
      dsc := c.dscs;
    } else {
      dsc := prev.next;
    }
    if dsc != null && dsc.dsc.handle != h {
      dsc := null;
    }
  }

  method ChrFindPrev(s: PeerSvc, h: uint16) returns (prev: PeerChr?)
    requires OkSvc(s)
    ensures var k := LeadingBelow(Vals(s.view.chrs), h);
      k <= |s.chrSeq| && prev == if k == 0 then null else s.chrSeq[k - 1]
  {
    prev := null;
    ghost var k := 0;
    var chr := s.chrs;
    while chr != null
      invariant k <= |s.chrSeq| && chr == (if k < |s.chrSeq| then s.chrSeq[k] else null)
      invariant prev == (if k == 0 then null else s.chrSeq[k - 1])
      invariant forall i :: 0 <= i < k ==> s.view.chrs[i].decl.val < h
      decreases |s.chrSeq| - k
    {
      if chr.chr.val >= h {
        break;
      }
      prev := chr;
      chr := chr.next;
      k := k + 1;
    }
    LeadingBelowUnique(Vals(s.view.chrs), h, k);
  }

  method ChrFind(s: PeerSvc, h: uint16) returns (chr: PeerChr?, prev: PeerChr?)
    requires OkSvc(s)
    ensures var k := LeadingBelow(Vals(s.view.chrs), h);
      k <= |s.chrSeq| && prev == if k == 0 then null else s.chrSeq[k - 1]
    ensures match Find(Vals(s.view.chrs), h)
            case None => chr == null
            case Some(k) => k < |s.chrSeq| && chr == s.chrSeq[k]
  {
    prev := ChrFindPrev(s, h);
    if prev == null {
      chr := s.chrs;
    } else {
      chr := prev.next;
    }
    if chr != null && chr.chr.val != h {
      chr := null;
    }
  }

  method SvcFindPrev(p: PeerRec, h: uint16) returns (prev: PeerSvc?)
    requires OkPeer(p)
    ensures var k := LeadingBelow(Starts(p.view), h);
      k <= |p.svcSeq| && prev == if k == 0 then null else p.svcSeq[k - 1]
  {
    prev := null;
    ghost var k := 0;
    var svc := p.svcs;
    while svc != null
      invariant k <= |p.svcSeq| && svc == (if k < |p.svcSeq| then p.svcSeq[k] else null)
      invariant prev == (if k == 0 then null else p.svcSeq[k - 1])
      invariant forall i :: 0 <= i < k ==> p.view[i].decl.start < h
      decreases |p.svcSeq| - k
    {
      if svc.svc.start >= h {
        break;
      }
      prev := svc;
      svc := svc.next;
      k := k + 1;
    }
    LeadingBelowUnique(Starts(p.view), h, k);
  }

  method SvcFind(p: PeerRec, h: uint16) returns (svc: PeerSvc?, prev: PeerSvc?)
    requires OkPeer(p)
    ensures var k := LeadingBelow(Starts(p.view), h);
      k <= |p.svcSeq| && prev == if k == 0 then null else p.svcSeq[k - 1]
    ensures match Find(Starts(p.view), h)
            case None => svc == null
            case Some(k) => k < |p.svcSeq| && svc == p.svcSeq[k]
  {
    prev := SvcFindPrev(p, h);
    if prev == null {
      svc := p.svcs;
    } else {
      svc := prev.next;
    }
    if svc != null && svc.svc.start != h {
      svc := null;
    }
  }

  method SvcFindRange(p: PeerRec, h: uint16) returns (svc: PeerSvc?)
    requires OkPeer(p)
    ensures match D.FindRange(p.view, h)
            case None => svc == null
            case Some(k) => k < |p.svcSeq| && svc == p.svcSeq[k]
  {
    svc := p.svcs;
    ghost var k := 0;
    while svc != null
      invariant k <= |p.svcSeq| && svc == (if k < |p.svcSeq| then p.svcSeq[k] else null)
      invariant forall i :: 0 <= i < k ==> !(p.view[i].decl.start <= h <= p.view[i].decl.end)
      decreases |p.svcSeq| - k
    {
      if svc.svc.start <= h && svc.svc.end >= h {
        return;
      }
      svc := svc.next;
      k := k + 1;
    }
  }

  // ----- splicing

  /** `SLIST_INSERT_HEAD` */
  method PushDsc(c: PeerChr, d: PeerDsc, ghost view: Chr)
    requires OkChrAs(c, view) && d.owner != c
    modifies c`dscs, c`dscSeq, d`next, d`owner
    ensures OkChrAs(c, view.(dscs := [d.dsc] + view.dscs))
    ensures c.dscSeq == [d] + old(c.dscSeq)
  {
    hide Distinct;
    ghost var was := c.dscSeq;
    assert d !in was;
    DistinctInsert(was, 0, d);
    assert was[..0] + [d] + was[0..] == [d] + was;
    d.next := c.dscs;
    c.dscs := d;
    c.dscSeq := [d] + was;
    d.owner := c;
    assert forall i :: 1 <= i < |c.dscSeq| ==> c.dscSeq[i] == was[i - 1];
  }

  /** `SLIST_NEXT(prev) = d`, with `prev` the `k`-th block: what followed it drops out. */
  method LinkDsc(c: PeerChr, prev: PeerDsc, ghost k: nat, d: PeerDsc, ghost view: Chr)
    requires OkChrAs(c, view) && d.owner != c && d.next == null
    requires k < |c.dscSeq| && prev == c.dscSeq[k]
    modifies c`dscSeq, d`owner, prev`next
    ensures OkChrAs(c, view.(dscs := view.dscs[..k + 1] + [d.dsc]))
    ensures c.dscSeq == old(c.dscSeq)[..k + 1] + [d]
  {
    hide Distinct;
    ghost var was := c.dscSeq;
    assert d !in was;
    DistinctInsert(was, k + 1, d);
    DistinctAt(was, k);
    prev.next := d;
    c.dscSeq := was[..k + 1] + [d];
    d.owner := c;
    forall i | 0 <= i < |c.dscSeq|
      ensures c.dscSeq[i] == if i <= k then was[i] else d
      ensures c.dscSeq[i].next == if i + 1 < |c.dscSeq| then c.dscSeq[i + 1] else null
    {
      if i <= k {
        assert c.dscSeq[i] == was[i];
      }
    }
  }

  method PushChr(s: PeerSvc, c: PeerChr, ghost view: Svc)
    requires OkSvcAs(s, view) && c.owner != s && c.view.decl == c.chr
    modifies s`chrs, s`chrSeq, c`next, c`owner
    ensures OkSvcAs(s, view.(chrs := [c.view] + view.chrs))
    ensures s.chrSeq == [c] + old(s.chrSeq)
  {
    hide Distinct;
    ghost var was := s.chrSeq;
    assert c !in was;
    DistinctInsert(was, 0, c);
    assert was[..0] + [c] + was[0..] == [c] + was;
    c.next := s.chrs;
    s.chrs := c;
    s.chrSeq := [c] + was;
    c.owner := s;
    assert forall i :: 1 <= i < |s.chrSeq| ==> s.chrSeq[i] == was[i - 1];
  }

  method LinkChr(s: PeerSvc, prev: PeerChr, ghost k: nat, c: PeerChr, ghost view: Svc)
    requires OkSvcAs(s, view) && c.owner != s && c.next == null && c.view.decl == c.chr
    requires k < |s.chrSeq| && prev == s.chrSeq[k]
    modifies s`chrSeq, c`owner, prev`next
    ensures OkSvcAs(s, view.(chrs := view.chrs[..k + 1] + [c.view]))
    ensures s.chrSeq == old(s.chrSeq)[..k + 1] + [c]
  {
    hide Distinct;
    ghost var was := s.chrSeq;
    assert c !in was;
    DistinctInsert(was, k + 1, c);
    DistinctAt(was, k);
    CutAt(was, k, c);
    CutAt(view.chrs, k, c.view);
    prev.next := c;
    s.chrSeq := was[..k + 1] + [c];
    c.owner := s;
    assert forall i :: 0 <= i <= k ==> was[i].next == if i < k then was[i + 1] else c;
  }

  lemma {:induction false} CutAt<X>(xs: seq<X>, k: nat, x: X)
    requires k < |xs|
    ensures |xs[..k + 1] + [x]| == k + 2 && (xs[..k + 1] + [x])[k + 1] == x
    ensures forall i :: 0 <= i <= k ==> (xs[..k + 1] + [x])[i] == xs[i]
  {
  }

  method PushSvc(p: PeerRec, s: PeerSvc)
    requires OkPeer(p) && s.owner != p && s.view.decl == s.svc
    modifies p`svcs, p`svcSeq, p`view, s`next, s`owner
    ensures OkPeer(p)
    ensures p.svcSeq == [s] + old(p.svcSeq) && p.view == [s.view] + old(p.view)
  {
    hide Distinct;
    ghost var was := p.svcSeq;
    assert s !in was;
    DistinctInsert(was, 0, s);
    assert was[..0] + [s] + was[0..] == [s] + was;
    s.next := p.svcs;
    p.svcs := s;
    p.svcSeq := [s] + was;
    p.view := [s.view] + p.view;
    s.owner := p;
    assert forall i :: 1 <= i < |p.svcSeq| ==> p.svcSeq[i] == was[i - 1];
  }

  /** `SLIST_INSERT_AFTER`, with `prev` the `k`-th block. */
  method InsertSvc(p: PeerRec, prev: PeerSvc, ghost k: nat, s: PeerSvc)
    requires OkPeer(p) && s.owner != p && s.view.decl == s.svc
    requires k < |p.svcSeq| && prev == p.svcSeq[k]
    modifies p`svcSeq, p`view, s`next, s`owner, prev`next
    ensures OkPeer(p)
    ensures p.svcSeq == old(p.svcSeq)[..k + 1] + [s] + old(p.svcSeq)[k + 1..]
    ensures p.view == old(p.view)[..k + 1] + [s.view] + old(p.view)[k + 1..]
  {
    hide Distinct;
    ghost var was, view := p.svcSeq, p.view;
    DistinctInsert(was, k + 1, s);
    DistinctAt(was, k);
    s.next := prev.next;
    prev.next := s;
    p.svcSeq := was[..k + 1] + [s] + was[k + 1..];
    p.view := view[..k + 1] + [s.view] + view[k + 1..];
    s.owner := p;
    forall i | 0 <= i < |p.svcSeq|
      ensures p.svcSeq[i].next == (if i + 1 < |p.svcSeq| then p.svcSeq[i + 1] else null)
      ensures p.svcSeq[i].view == p.view[i] && p.svcSeq[i].svc == p.view[i].decl && p.svcSeq[i].owner == p
    {
      if i != k + 1 {
        var j := if i <= k then i else i - 1;
        assert p.svcSeq[i] == was[j] && p.view[i] == view[j] && (j == k <==> was[j] == prev);
      }
    }
    assert was == was[..k + 1] + was[k + 1..];
  }

  /** `SLIST_FIRST` and `SLIST_REMOVE_HEAD` on the list of `c`. */
  method PopDsc(c: PeerChr) returns (d: PeerDsc)
    requires OkChr(c) && c.dscs != null
    modifies c`dscs, c`dscSeq, c`view, c.dscs`owner
    ensures OkChr(c) && d == old(c.dscs) && d.owner == null
    ensures |old(c.dscSeq)| > 0 && old(c.dscSeq)[0] == d && c.dscSeq == old(c.dscSeq)[1..]
    ensures |old(c.view.dscs)| > 0 && c.view == old(c.view).(dscs := old(c.view.dscs)[1..])
  {
    hide Distinct;
    DistinctTail(c.dscSeq);
    d := c.dscs;
    c.dscs := d.next;
    c.dscSeq := c.dscSeq[1..];
    c.view := c.view.(dscs := c.view.dscs[1..]);
    d.owner := null;
  }

  method PopChr(s: PeerSvc) returns (c: PeerChr)
    requires OkSvc(s) && s.chrs != null
    modifies s`chrs, s`chrSeq, s`view, s.chrs`owner
    ensures OkSvc(s) && c == old(s.chrs) && c.owner == null
    ensures |old(s.chrSeq)| > 0 && old(s.chrSeq)[0] == c && s.chrSeq == old(s.chrSeq)[1..]
    ensures |old(s.view.chrs)| > 0 && s.view == old(s.view).(chrs := old(s.view.chrs)[1..])
    ensures c.view == old(s.view.chrs)[0]
  {
    hide Distinct;
    DistinctTail(s.chrSeq);
    c := s.chrs;
    s.chrs := c.next;
    s.chrSeq := s.chrSeq[1..];
    s.view := s.view.(chrs := s.view.chrs[1..]);
    c.owner := null;
  }

  method PopSvc(p: PeerRec) returns (s: PeerSvc)
    requires OkPeer(p) && p.svcs != null && p.cur.None?
    modifies p`svcs, p`svcSeq, p`view, p.svcs`owner
    ensures OkPeer(p) && s == old(p.svcs) && s.owner == null
    ensures |old(p.svcSeq)| > 0 && old(p.svcSeq)[0] == s && p.svcSeq == old(p.svcSeq)[1..]
    ensures |old(p.view)| > 0 && p.view == old(p.view)[1..]
    ensures s.view == old(p.view)[0]
  {
    hide Distinct;
    DistinctTail(p.svcSeq);
    s := p.svcs;
    p.svcs := s.next;
    p.svcSeq := p.svcSeq[1..];
    p.view := p.view[1..];
    s.owner := null;
  }

  // ----- the additions, by cases

  lemma {:induction false} DscAddUnknown(p: D.Peer, pools: D.Pools, val: uint16, g: GattDsc)
    requires D.FindRange(p.svcs, val).Some? ==> Find(Vals(p.svcs[D.FindRange(p.svcs, val).value].chrs), val).None?
    ensures D.DscAdd(p, pools, val, g) == D.Outcome(EUnknown, p, pools)
  {
  }

  lemma {:induction false} DscAddAt(p: D.Peer, pools: D.Pools, val: uint16, g: GattDsc, i: nat, j: nat)
    requires D.FindRange(p.svcs, val) == Some(i) && Find(Vals(p.svcs[i].chrs), val) == Some(j)
    ensures var s := p.svcs[i];
      var c := s.chrs[j];
      var dscs := D.LinkAfter(c.dscs, LeadingBelow(Handles(c.dscs), g.handle), g);
      D.DscAdd(p, pools, val, g)
      == if Find(Handles(c.dscs), g.handle).Some? then D.Outcome(Ok, p, pools)
         else if pools.dscs == 0 then D.Outcome(ENoMem, p, pools)
         else D.Outcome(Ok, p.(svcs := p.svcs[i := s.(chrs := s.chrs[j := c.(dscs := dscs)])]),
                        pools.(dscs := pools.dscs - 1))
  {
  }

  lemma {:induction false} ChrAddUnknown(p: D.Peer, pools: D.Pools, start: uint16, g: GattChr)
    requires Find(Starts(p.svcs), start).None?
    ensures D.ChrAdd(p, pools, start, g) == D.Outcome(EUnknown, p, pools)
  {
  }

  lemma {:induction false} ChrAddAt(p: D.Peer, pools: D.Pools, start: uint16, g: GattChr, i: nat)
    requires Find(Starts(p.svcs), start) == Some(i)
    ensures var s := p.svcs[i];
      var chrs := D.LinkAfter(s.chrs, LeadingBelow(Vals(s.chrs), g.def), Chr(g, []));
      D.ChrAdd(p, pools, start, g)
      == if Find(Vals(s.chrs), g.def).Some? then D.Outcome(Ok, p, pools)
         else if pools.chrs == 0 then D.Outcome(ENoMem, p, pools)
         else D.Outcome(Ok, p.(svcs := p.svcs[i := s.(chrs := chrs)]), pools.(chrs := pools.chrs - 1))
  {
  }

  // ----- the searches of the phases, by cases

  lemma {:induction false} NothingAccepted(m: D.Peer, rc: Status)
    ensures R.NewlyAccepted(m, D.Complete(m, rc)).None?
  {
  }

  lemma {:induction false} DiscoverIs(t: T.Table, h: uint16, root: D.Request, cb: bool, rc: Status)
    ensures T.PeerDiscover(t, h, root, cb, rc) ==
      match T.IndexOfPeer(t.peers, h)
      case None => (ENotConn, t)
      case Some(i) =>
        var o := D.Discover(t.peers[i], t.pools, root, cb, rc);
        (rc, t.(peers := t.peers[i := o.peer], pools := o.pools))
  {
  }

  lemma {:induction false} DiscChrsIs(m: D.Peer, rc: Status)
    ensures D.DiscChrs(m, rc) ==
      match D.FirstOpen(m.svcs)
      case None => D.DiscDscs(m, rc)
      case Some(i) =>
        var g := m.svcs[i].decl;
        var m1 := D.Start(m.(cur := Some(g.start)), D.ChrsIn(g.start, g.end), rc);
        if rc.Ok? then m1 else D.Complete(m1, rc)
  {
  }

  lemma {:induction false} SvcDiscedIs(m: D.Peer, pools: D.Pools, status: Status, g: Option<GattSvc>, rc: Status)
    requires status.Ok? ==> g.Some?
    ensures D.SvcDisced(m, pools, status, g, rc) ==
      match status
      case Ok => D.Finish(D.SvcAdd(m, pools, g.value))
      case EDone => D.Outcome(Ok, if m.cursor > 0 then D.DiscChrs(m, rc) else m, pools)
      case _ => D.Outcome(status, D.Complete(m, status), pools)
  {
  }

  lemma {:induction false} ChrDiscedIs(m: D.Peer, pools: D.Pools, status: Status, g: Option<GattChr>, rc: Status)
    requires status.Ok? ==> g.Some? && m.cur.Some?
    ensures D.ChrDisced(m, pools, status, g, rc) ==
      match status
      case Ok => D.Finish(D.ChrAdd(m, pools, m.cur.value, g.value))
      case EDone => D.Outcome(Ok, if m.cursor > 0 then D.DiscChrs(m, rc) else m, pools)
      case _ => D.Outcome(status, D.Complete(m, status), pools)
  {
  }

  lemma {:induction false} DscDiscedIs(m: D.Peer, pools: D.Pools, status: Status, val: uint16, g: Option<GattDsc>,
                                       rc: Status)
    requires status.Ok? ==> g.Some?
    ensures D.DscDisced(m, pools, status, val, g, rc) ==
      match status
      case Ok => D.Finish(D.DscAdd(m, pools, val, g.value))
      case EDone => D.Outcome(Ok, if m.cursor > 0 then D.DiscDscs(m, rc) else m, pools)
      case _ => D.Outcome(status, D.Complete(m, status), pools)
  {
  }

  ghost function ModelsOf(ps: seq<PeerRec>): (r: seq<D.Peer>)
    reads ps
    ensures |r| == |ps| && forall i :: 0 <= i < |ps| ==> r[i] == ps[i].Model()
  {
    seq(|ps|, i requires 0 <= i < |ps| reads ps => ps[i].Model())
  }

  // ----- blocks for the pools

  method FreshDscs(n: nat) returns (ds: set<PeerDsc>)
    ensures |ds| == n && fresh(ds) && forall d :: d in ds ==> d.owner == null
  {
    ds := {};
    for i := 0 to n
      invariant |ds| == i && fresh(ds) && forall d :: d in ds ==> d.owner == null
    {
      var d := new PeerDsc;
      d.owner := null;
      ds := ds + {d};
    }
  }

  method FreshChr() returns (c: PeerChr)
    ensures fresh(c) && c.owner == null && c.dscSeq == [] && OkChr(c)
  {
    c := new PeerChr;
    c.dscs, c.owner, c.dscSeq, c.view := null, null, [], Chr(c.chr, []);
  }

  method FreshChrs(n: nat) returns (cs: set<PeerChr>)
    ensures |cs| == n && fresh(cs) && forall c :: c in cs ==> c.owner == null && c.dscSeq == [] && OkChr(c)
  {
    hide OkChr;
    cs := {};
    for i := 0 to n
      invariant |cs| == i && fresh(cs)
      invariant forall c :: c in cs ==> c.owner == null && c.dscSeq == [] && OkChr(c)
    {
      var c := FreshChr();
      cs := cs + {c};
    }
  }

  method FreshSvc() returns (s: PeerSvc)
    ensures fresh(s) && s.owner == null && s.chrSeq == [] && OkSvc(s)
  {
    s := new PeerSvc;
    s.chrs, s.owner, s.chrSeq, s.view := null, null, [], Svc(s.svc, []);
  }

  method FreshSvcs(n: nat) returns (ss: set<PeerSvc>)
    ensures |ss| == n && fresh(ss) && forall s :: s in ss ==> s.owner == null && s.chrSeq == [] && OkSvc(s)
  {
    hide OkSvc;
    ss := {};
    for i := 0 to n
      invariant |ss| == i && fresh(ss)
      invariant forall s :: s in ss ==> s.owner == null && s.chrSeq == [] && OkSvc(s)
    {
      var s := FreshSvc();
      ss := ss + {s};
    }
  }

  method FreshPeer() returns (p: PeerRec)
    ensures fresh(p) && p.svcSeq == [] && OkPeer(p)
  {
    p := new PeerRec;
    p.svcs, p.svcSeq, p.view, p.cur := null, [], [], None;
  }

  method FreshPeers(n: nat) returns (ps: set<PeerRec>)
    ensures |ps| == n && fresh(ps) && forall p :: p in ps ==> p.svcSeq == [] && OkPeer(p)
  {
    hide OkPeer;
    ps := {};
    for i := 0 to n
      invariant |ps| == i && fresh(ps) && forall p :: p in ps ==> p.svcSeq == [] && OkPeer(p)
    {
      var p := FreshPeer();
      ps := ps + {p};
    }
  }

  class PeerDb {
    var peers: PeerRec?
    /** The free blocks of each pool. */
    var peerPool: set<PeerRec>
    var svcPool: set<PeerSvc>
    var chrPool: set<PeerChr>
    var dscPool: set<PeerDsc>
    /** All blocks of each pool. */
    ghost const allPeers: set<PeerRec>
    ghost const allSvcs: set<PeerSvc>
    ghost const allChrs: set<PeerChr>
    ghost const allDscs: set<PeerDsc>
    ghost var peerSeq: seq<PeerRec>
    /** What the stack holds: the peer registered as the callback's argument with the procedure it
        last accepted on each connection. */
    var args: map<uint16, PeerRec>

    /** Four pools of the given sizes and an empty list. */
    constructor (nPeers: nat, nSvcs: nat, nChrs: nat, nDscs: nat)
      ensures Valid() && Table() == T.Table([], D.Pools(nSvcs, nChrs, nDscs), nPeers)
      ensures |allPeers| == nPeers && |allSvcs| == nSvcs && |allChrs| == nChrs && |allDscs| == nDscs
      ensures fresh(allPeers) && fresh(allSvcs) && fresh(allChrs) && fresh(allDscs)
    {
      hide Valid, OkChr, OkSvc, OkPeer;
      var ps := FreshPeers(nPeers);
      var ss := FreshSvcs(nSvcs);
      var cs := FreshChrs(nChrs);
      var ds := FreshDscs(nDscs);
      peers, peerPool, svcPool, chrPool, dscPool, args := null, ps, ss, cs, ds, map[];
      allPeers, allSvcs, allChrs, allDscs, peerSeq := ps, ss, cs, ds, [];
      new;
      AllFree();
    }

    lemma {:induction false} AllFree()
      requires peers == null && peerSeq == []
      requires peerPool == allPeers && svcPool == allSvcs && chrPool == allChrs && dscPool == allDscs
      requires forall d :: d in allDscs ==> d.owner == null
      requires forall c :: c in allChrs ==> c.owner == null && c.dscSeq == [] && OkChr(c)
      requires forall s :: s in allSvcs ==> s.owner == null && s.chrSeq == [] && OkSvc(s)
      requires forall p :: p in allPeers ==> p.svcSeq == [] && OkPeer(p)
      ensures Valid()
    {
    }

    // Each of the next three predicates may except one block, whose list awaits a new view.

    ghost predicate ValidChrs(hole: PeerChr?)
      reads this`dscPool, this`chrPool
      reads allChrs`view, allChrs`chr, allChrs`dscs, allChrs`dscSeq, allChrs`owner
      reads allDscs`next, allDscs`dsc, allDscs`owner
    {
      && (forall d :: d in dscPool ==> d in allDscs && d.owner == null)
      && (forall c :: c in chrPool ==> c in allChrs && c.owner == null && c.dscSeq == [])
      && forall c :: c in allChrs ==> Within(c.dscSeq, allDscs) && (c != hole ==> OkChr(c))
    }

    ghost predicate ValidSvcs(hole: PeerSvc?)
      reads this`svcPool
      reads allSvcs`view, allSvcs`svc, allSvcs`chrs, allSvcs`chrSeq, allSvcs`owner
      reads allChrs`next, allChrs`chr, allChrs`view, allChrs`owner
    {
      && (forall s :: s in svcPool ==> s in allSvcs && s.owner == null && s.chrSeq == [])
      && forall s :: s in allSvcs ==> Within(s.chrSeq, allChrs) && (s != hole ==> OkSvc(s))
    }

    ghost predicate ValidPeers(hole: PeerRec?)
      reads this`peerPool, this`peerSeq
      reads allPeers`view, allPeers`svcs, allPeers`svcSeq, allPeers`cur, allPeers`curSvc
      reads allSvcs`next, allSvcs`svc, allSvcs`view, allSvcs`owner
    {
      && (forall p :: p in peerPool ==> p in allPeers && p !in peerSeq && p.svcSeq == [])
      && forall p :: p in allPeers ==> Within(p.svcSeq, allSvcs) && (p != hole ==> OkPeer(p))
    }

    ghost predicate ValidTable()
      reads this`peers, this`peerSeq, allPeers`next
    {
      && (forall p :: p in peerSeq ==> p in allPeers)
      && peers == (if peerSeq == [] then null else peerSeq[0])
      && Distinct(peerSeq)
      && forall i {:trigger peerSeq[i].next} :: 0 <= i < |peerSeq| ==>
           peerSeq[i].next == (if i + 1 < |peerSeq| then peerSeq[i + 1] else null)
    }

    ghost predicate Valid()
      reads this`peers, this`peerSeq, this`peerPool, this`svcPool, this`chrPool, this`dscPool
      reads allPeers`next, allPeers`view, allPeers`svcs, allPeers`svcSeq, allPeers`cur, allPeers`curSvc
      reads allSvcs`next, allSvcs`view, allSvcs`svc, allSvcs`chrs, allSvcs`chrSeq, allSvcs`owner
      reads allChrs`next, allChrs`view, allChrs`chr, allChrs`dscs, allChrs`dscSeq, allChrs`owner
      reads allDscs`next, allDscs`dsc, allDscs`owner
    {
      ValidChrs(null) && ValidSvcs(null) && ValidPeers(null) && ValidTable()
    }

    ghost function Free(): D.Pools
      reads this`svcPool, this`chrPool, this`dscPool
    {
      D.Pools(|svcPool|, |chrPool|, |dscPool|)
    }

    // ----- blocks on other lists keep what they have

    /** Moving `c` to another list does not concern the lists of descriptors. */
    twostate lemma RelinkedChr(c: PeerChr)
      requires old(ValidChrs(null)) && c !in chrPool
      requires chrPool == old(chrPool) && dscPool == old(dscPool)
      requires forall d :: d in allDscs ==> unchanged(d)
      requires forall x :: x in allChrs ==>
                 x.view == old(x.view) && x.chr == old(x.chr) && x.dscs == old(x.dscs) && x.dscSeq == old(x.dscSeq)
      requires forall x :: x in allChrs && x != c ==> x.owner == old(x.owner)
      ensures ValidChrs(null)
    {
      hide OkChr, Within;
      forall x | x in allChrs ensures Within(x.dscSeq, allDscs) && OkChr(x) {
        ChrsKept(null);
      }
    }

    twostate lemma RelinkedSvc(s: PeerSvc)
      requires old(ValidSvcs(null)) && s !in svcPool
      requires svcPool == old(svcPool)
      requires forall c :: c in allChrs ==> unchanged(c)
      requires forall x :: x in allSvcs ==>
                 x.view == old(x.view) && x.svc == old(x.svc) && x.chrs == old(x.chrs) && x.chrSeq == old(x.chrSeq)
      requires forall x :: x in allSvcs && x != s ==> x.owner == old(x.owner)
      ensures ValidSvcs(null)
    {
      hide OkSvc, Within;
      forall x | x in allSvcs ensures Within(x.chrSeq, allChrs) && OkSvc(x) {
        SvcsKept(null);
      }
    }

    twostate lemma ChrsKept(c: PeerChr?)
      requires old(ValidChrs(c))
      requires forall d :: d in allDscs && old(d.owner) != null && old(d.owner) != c ==>
                 d.next == old(d.next) && d.dsc == old(d.dsc) && d.owner == old(d.owner)
      requires forall x :: x in allChrs && x != c ==>
                 x.view == old(x.view) && x.chr == old(x.chr) && x.dscs == old(x.dscs) && x.dscSeq == old(x.dscSeq)
      ensures forall x :: x in allChrs && x != c ==> Within(x.dscSeq, allDscs) && OkChr(x)
    {
      hide Distinct;
      forall x | x in allChrs && x != c
        ensures Within(x.dscSeq, allDscs) && OkChr(x)
      {
        assert old(OkChr(x)) && Within(x.dscSeq, allDscs);
      }
    }

    twostate lemma SvcsKept(s: PeerSvc?)
      requires old(ValidSvcs(s))
      requires forall y :: y in allChrs && old(y.owner) != null && old(y.owner) != s ==>
                 y.next == old(y.next) && y.chr == old(y.chr) && y.view == old(y.view) && y.owner == old(y.owner)
      requires forall x :: x in allSvcs && x != s ==>
                 x.view == old(x.view) && x.svc == old(x.svc) && x.chrs == old(x.chrs) && x.chrSeq == old(x.chrSeq)
      ensures forall x :: x in allSvcs && x != s ==> Within(x.chrSeq, allChrs) && OkSvc(x)
    {
      hide Distinct;
      forall x | x in allSvcs && x != s
        ensures Within(x.chrSeq, allChrs) && OkSvc(x)
      {
        assert old(OkSvc(x)) && Within(x.chrSeq, allChrs);
      }
    }

    twostate lemma PeersKept(p: PeerRec?)
      requires old(ValidPeers(p))
      requires forall y :: y in allSvcs && old(y.owner) != null && old(y.owner) != p ==>
                 y.next == old(y.next) && y.svc == old(y.svc) && y.view == old(y.view) && y.owner == old(y.owner)
      requires forall q :: q in allPeers && q != p ==>
                 && q.view == old(q.view) && q.svcs == old(q.svcs) && q.svcSeq == old(q.svcSeq)
                 && q.cur == old(q.cur) && q.curSvc == old(q.curSvc)
      ensures forall q :: q in allPeers && q != p ==> Within(q.svcSeq, allSvcs) && OkPeer(q)
    {
      hide Distinct;
      forall q | q in allPeers && q != p
        ensures Within(q.svcSeq, allSvcs) && OkPeer(q)
      {
        assert old(OkPeer(q)) && Within(q.svcSeq, allSvcs);
      }
    }

    /** Linking a block into the list of `c` concerns no other characteristic. */
    method LinkDscIn(c: PeerChr, prev: PeerDsc?, ghost k: nat, d: PeerDsc)
      requires ValidChrs(null) && c in allChrs && c !in chrPool
      requires k <= |c.dscSeq| && prev == (if k == 0 then null else c.dscSeq[k - 1])
      requires d in allDscs && d !in dscPool && d.owner == null && d.next == null
      modifies c`dscs, c`dscSeq, d`next, d`owner, (if prev == null then {} else {prev})`next
      ensures ValidChrs(c) && OkChrAs(c, c.view.(dscs := D.LinkAfter(c.view.dscs, k, d.dsc)))
    {
      assert OkChr(c);
      if prev == null {
        PushDsc(c, d, c.view);
      } else {
        LinkDsc(c, prev, k - 1, d, c.view);
      }
      ChrsKept(c);
    }

    method LinkChrIn(s: PeerSvc, prev: PeerChr?, ghost k: nat, c: PeerChr)
      requires ValidSvcs(null) && s in allSvcs && s !in svcPool
      requires k <= |s.chrSeq| && prev == (if k == 0 then null else s.chrSeq[k - 1])
      requires c in allChrs && c.owner == null && c.next == null && c.view.decl == c.chr
      modifies s`chrs, s`chrSeq, c`next, c`owner, (if prev == null then {} else {prev})`next
      ensures ValidSvcs(s) && OkSvcAs(s, s.view.(chrs := D.LinkAfter(s.view.chrs, k, c.view)))
    {
      hide Distinct;
      assert OkSvc(s);
      if prev == null {
        PushChr(s, c, s.view);
      } else {
        LinkChr(s, prev, k - 1, c, s.view);
      }
      SvcsKept(s);
    }

    // ----- a change below, recorded in the views above, one level at a time

    ghost method SetPeerView(p: PeerRec, view: seq<Svc>)
      requires ValidPeers(p) && p in allPeers && OkPeerAs(p, view)
      modifies p`view
      ensures ValidPeers(null) && p.view == view
    {
      hide Distinct;
      p.view := view;
      PeersKept(p);
    }

    ghost method SetSvcView(s: PeerSvc, view: Svc, p: PeerRec, i: nat)
      requires ValidSvcs(s) && s in allSvcs && OkSvcAs(s, view)
      requires ValidPeers(null) && p in allPeers && i < |p.svcSeq| && s == p.svcSeq[i]
      modifies s`view
      ensures ValidSvcs(null) && s.view == view
      ensures ValidPeers(p) && OkPeerAs(p, p.view[i := view])
    {
      hide Distinct, Within;
      assert OkPeer(p);
      DistinctAt(p.svcSeq, i);
      s.view := view;
      SvcsKept(s);
      PeersKept(p);
    }

    ghost method SetChrView(c: PeerChr, view: Chr, s: PeerSvc, j: nat)
      requires ValidChrs(c) && c in allChrs && OkChrAs(c, view)
      requires ValidSvcs(null) && s in allSvcs && j < |s.chrSeq| && c == s.chrSeq[j]
      modifies c`view
      ensures ValidChrs(null) && c.view == view
      ensures ValidSvcs(s) && OkSvcAs(s, s.view.(chrs := s.view.chrs[j := view]))
    {
      hide Distinct, Within;
      assert OkSvc(s);
      DistinctAt(s.chrSeq, j);
      c.view := view;
      ChrsKept(c);
      SvcsKept(s);
    }

    // ----- what validity says about single blocks

    lemma {:induction false} PeerFacts(p: PeerRec)
      requires Valid() && p in peerSeq
      ensures p in allPeers && p !in peerPool && OkPeer(p) && |p.svcSeq| == |p.view|
      ensures svcPool <= allSvcs && Within(p.svcSeq, allSvcs)
    {
    }

    lemma {:induction false} SvcFacts(p: PeerRec, i: nat)
      requires Valid() && p in allPeers && i < |p.svcSeq|
      ensures p.svcSeq[i] in allSvcs && p.svcSeq[i] !in svcPool && OkSvc(p.svcSeq[i])
      ensures i < |p.view| && p.svcSeq[i].view == p.view[i] && p.svcSeq[i].owner == p
      ensures |p.svcSeq[i].chrSeq| == |p.view[i].chrs| && p.view[i].decl == p.svcSeq[i].svc
      ensures chrPool <= allChrs && Within(p.svcSeq[i].chrSeq, allChrs)
    {
    }

    lemma {:induction false} ChrFacts(c: PeerChr)
      requires ValidChrs(null) && c in allChrs
      ensures OkChr(c) && c.view.decl == c.chr && (c.owner != null ==> c !in chrPool)
      ensures dscPool <= allDscs && Within(c.dscSeq, allDscs)
    {
    }

    lemma {:induction false} ChrAtFacts(s: PeerSvc, j: nat)
      requires Valid() && s in allSvcs && j < |s.chrSeq|
      ensures s.chrSeq[j] in allChrs && OkChr(s.chrSeq[j]) && s.chrSeq[j].owner == s
      ensures j < |s.view.chrs| && s.chrSeq[j].view == s.view.chrs[j]
      ensures |s.chrSeq[j].dscSeq| == |s.view.chrs[j].dscs|
    {
    }

    // ----- blocks from the pools, cleared and filled in

    method NewDsc(g: GattDsc) returns (d: PeerDsc?)
      requires ValidChrs(null)
      modifies this`dscPool, dscPool`next, dscPool`dsc
      ensures ValidChrs(null)
      ensures d == null ==> old(dscPool) == {} && dscPool == {}
      ensures d != null ==> d in old(dscPool) && dscPool == old(dscPool) - {d}
      ensures d != null ==> d in allDscs && d.owner == null && d.next == null && d.dsc == g
    {
      if dscPool == {} {
        return null;
      }
      d :| d in dscPool;
      dscPool := dscPool - {d};
      d.next, d.dsc := null, g;
      ChrsKept(null);
    }

    method NewChr(g: GattChr) returns (c: PeerChr?)
      requires ValidChrs(null) && ValidSvcs(null)
      modifies this`chrPool, chrPool`next, chrPool`chr, chrPool`dscs, chrPool`dscSeq, chrPool`view
      ensures ValidChrs(null) && ValidSvcs(null)
      ensures c == null ==> old(chrPool) == {} && chrPool == {}
      ensures c != null ==> c in old(chrPool) && chrPool == old(chrPool) - {c}
      ensures c != null ==> c in allChrs && c.owner == null && c.next == null && c.chr == g && c.view == Chr(g, [])
    {
      hide Distinct, OkSvc, OkChr, Within, ValidSvcs;
      if chrPool == {} {
        return null;
      }
      c :| c in chrPool;
      chrPool := chrPool - {c};
      c.next, c.chr, c.dscs := null, g, null;
      c.dscSeq, c.view := [], Chr(g, []);
      ClearedChr(c);
      ChrsKept(c);
      FreeChrTaken(c);
    }

    method NewSvc(g: GattSvc) returns (s: PeerSvc?)
      requires ValidSvcs(null) && ValidPeers(null)
      modifies this`svcPool, svcPool`next, svcPool`svc, svcPool`chrs, svcPool`chrSeq, svcPool`view
      ensures ValidSvcs(null) && ValidPeers(null)
      ensures s == null ==> old(svcPool) == {} && svcPool == {}
      ensures s != null ==> s in old(svcPool) && svcPool == old(svcPool) - {s}
      ensures s != null ==> s in allSvcs && s.owner == null && s.next == null && s.svc == g && s.view == Svc(g, [])
    {
      hide Distinct, OkPeer, OkSvc, Within, ValidPeers;
      if svcPool == {} {
        return null;
      }
      s :| s in svcPool;
      svcPool := svcPool - {s};
      s.next, s.svc, s.chrs := null, g, null;
      s.chrSeq, s.view := [], Svc(g, []);
      ClearedSvc(s);
      SvcsKept(s);
      FreeSvcTaken(s);
    }

    lemma {:induction false} ClearedChr(c: PeerChr)
      requires c.dscs == null && c.dscSeq == [] && c.view == Chr(c.chr, [])
      ensures OkChr(c) && Within(c.dscSeq, allDscs)
    {
    }

    lemma {:induction false} ClearedSvc(s: PeerSvc)
      requires s.chrs == null && s.chrSeq == [] && s.view == Svc(s.svc, [])
      ensures OkSvc(s) && Within(s.chrSeq, allChrs)
    {
    }

    /** A block that was on no list may be filled. */
    twostate lemma FreeChrTaken(c: PeerChr)
      requires old(ValidSvcs(null)) && old(c.owner) == null && svcPool == old(svcPool) && unchanged(allSvcs)
      requires forall x :: x in allChrs && x != c ==> unchanged(x)
      ensures ValidSvcs(null)
    {
      hide Distinct, OkSvc, Within;
      SvcsKept(null);
    }

    twostate lemma FreeSvcTaken(s: PeerSvc)
      requires old(ValidPeers(null)) && old(s.owner) == null && peerPool == old(peerPool) && peerSeq == old(peerSeq)
      requires unchanged(allPeers)
      requires forall x :: x in allSvcs && x != s ==> unchanged(x)
      ensures ValidPeers(null)
    {
      hide Distinct, OkPeer, Within;
      PeersKept(null);
    }

    // ----- adding nodes

    method LinkNewDsc(c: PeerChr, prev: PeerDsc?, ghost k: nat, g: GattDsc) returns (rc: Status)
      requires ValidChrs(null) && c in allChrs && c.owner != null
      requires k <= |c.dscSeq| && prev == (if k == 0 then null else c.dscSeq[k - 1])
      modifies this`dscPool, c`dscs, c`dscSeq, allDscs`next, allDscs`dsc, allDscs`owner
      ensures rc == if old(dscPool) == {} then ENoMem else Ok
      ensures if rc.Ok? then |dscPool| == |old(dscPool)| - 1 else dscPool == old(dscPool)
      ensures !rc.Ok? ==> ValidChrs(null)
      ensures rc.Ok? ==> ValidChrs(c) && OkChrAs(c, c.view.(dscs := D.LinkAfter(c.view.dscs, k, g)))
    {
      hide ValidChrs, Within, OkChr, OkChrAs;
      ChrFacts(c);
      var d := NewDsc(g);
      if d == null {
        return ENoMem;
      }
      LinkDscIn(c, prev, k, d);
      return Ok;
    }

    ghost method RaiseChr(c: PeerChr, view: Chr, s: PeerSvc, j: nat, p: PeerRec, i: nat)
      requires ValidChrs(c) && c in allChrs && OkChrAs(c, view)
      requires ValidSvcs(null) && s in allSvcs && j < |s.chrSeq| && c == s.chrSeq[j]
      requires ValidPeers(null) && p in allPeers && i < |p.svcSeq| && s == p.svcSeq[i]
      requires j < |s.view.chrs| && i < |p.view|
      modifies c`view, s`view, p`view
      ensures ValidChrs(null) && ValidSvcs(null) && ValidPeers(null)
      ensures p.view == old(p.view)[i := old(s.view).(chrs := old(s.view).chrs[j := view])]
    {
      hide ValidChrs, ValidSvcs, ValidPeers, OkChrAs, OkSvcAs, OkPeerAs, Within;
      SetChrView(c, view, s, j);
      SetSvcView(s, s.view.(chrs := s.view.chrs[j := view]), p, i);
      SetPeerView(p, p.view[i := s.view]);
    }

    /** A new descriptor behind `prev` in the list of `c`, if the pool has a block for it. */
    method StoreDsc(p: PeerRec, s: PeerSvc, ghost i: nat, c: PeerChr, ghost j: nat,
                    prev: PeerDsc?, ghost k: nat, g: GattDsc) returns (rc: Status)
      requires Valid() && p in allPeers && i < |p.svcSeq| && s == p.svcSeq[i] && s in allSvcs
      requires j < |s.chrSeq| && c == s.chrSeq[j] && c in allChrs && c.owner == s
      requires k <= |c.dscSeq| && prev == (if k == 0 then null else c.dscSeq[k - 1])
      modifies this`dscPool, p`view, s`view, c`view, c`dscs, c`dscSeq
      modifies allDscs`next, allDscs`dsc, allDscs`owner
      ensures Valid()
      ensures rc == if old(Free()).dscs == 0 then ENoMem else Ok
      ensures Free() == if rc.Ok? then old(Free()).(dscs := old(Free()).dscs - 1) else old(Free())
      ensures p.view == if rc.Ok? then old(p.view)[i := old(s.view).(chrs := old(s.view).chrs[j :=
                old(c.view).(dscs := D.LinkAfter(old(c.view).dscs, k, g))])] else old(p.view)
    {
      hide ValidSvcs, ValidPeers, ValidTable, ValidChrs, OkSvc, OkChr, OkPeer, OkChrAs, OkSvcAs, OkPeerAs, Within;
      SvcFacts(p, i);
      ChrAtFacts(s, j);
      rc := LinkNewDsc(c, prev, k, g);
      if rc.Ok? {
        RaiseChr(c, c.view.(dscs := D.LinkAfter(c.view.dscs, k, g)), s, j, p, i);
      }
    }

    /** The service and the characteristic `peer_dsc_add` puts a descriptor under. */
    method DscTarget(p: PeerRec, val: uint16) returns (s: PeerSvc?, ghost i: nat, c: PeerChr?, ghost j: nat)
      requires Valid() && p in peerSeq
      ensures D.FindRange(p.view, val) == (if s == null then None else Some(i))
      ensures s == null ==> c == null
      ensures s != null ==> i < |p.svcSeq| && s == p.svcSeq[i] && s in allSvcs
      ensures s != null ==> i < |p.view| && s.view == p.view[i] && |s.chrSeq| == |s.view.chrs|
      ensures s != null ==> Find(Vals(p.view[i].chrs), val) == (if c == null then None else Some(j))
      ensures c != null ==> j < |s.chrSeq| && c == s.chrSeq[j] && c in allChrs && c.owner == s && OkChr(c)
      ensures c != null ==> c.view == s.view.chrs[j]
    {
      hide Valid, OkPeer, OkSvc, OkChr;
      c, j := null, 0;
      PeerFacts(p);
      s := SvcFindRange(p, val);
      i := 0;
      if s != null {
        i := D.FindRange(p.view, val).value;
        SvcFacts(p, i);
        var chr, _ := ChrFind(s, val);
        c := chr;
        if c != null {
          j := Find(Vals(s.view.chrs), val).value;
          ChrAtFacts(s, j);
        }
      }
    }

    method DscAdd(p: PeerRec, val: uint16, g: GattDsc) returns (rc: Status)
      requires Valid() && p in peerSeq
      modifies this`dscPool, p`view, allSvcs, allChrs, allDscs
      ensures Valid()
      ensures D.Outcome(rc, p.Model(), Free()) == D.DscAdd(old(p.Model()), old(Free()), val, g)
    {
      hide Valid, OkChr, OkSvc, OkPeer, Within, Distinct, LeadingBelow, D.LinkAfter, D.DscAdd;
      PeerFacts(p);
      var s, i, c, j := DscTarget(p, val);
      if c == null {
        DscAddUnknown(p.Model(), Free(), val, g);
        return EUnknown;
      }
      DscAddAt(p.Model(), Free(), val, g, i, j);
      var d, prev := DscFind(c, g.handle);
      if d != null {
        return Ok;
      }
      rc := StoreDsc(p, s, i, c, j, prev, LeadingBelow(Handles(c.view.dscs), g.handle), g);
    }

    /** A new characteristic behind `prev` in the list of `s`, if the pool has a block for it. */
    method StoreChr(p: PeerRec, s: PeerSvc, ghost i: nat, prev: PeerChr?, ghost k: nat, g: GattChr)
      returns (rc: Status)
      requires Valid() && p in allPeers && i < |p.svcSeq| && s == p.svcSeq[i] && s in allSvcs && s !in svcPool
      requires k <= |s.chrSeq| && prev == (if k == 0 then null else s.chrSeq[k - 1])
      modifies this`chrPool, p`view, s, allChrs
      ensures Valid()
      ensures rc == if old(Free()).chrs == 0 then ENoMem else Ok
      ensures Free() == if rc.Ok? then old(Free()).(chrs := old(Free()).chrs - 1) else old(Free())
      ensures p.view == if rc.Ok? then
                old(p.view)[i := old(s.view).(chrs := D.LinkAfter(old(s.view).chrs, k, Chr(g, [])))]
                else old(p.view)
    {
      hide ValidSvcs, ValidPeers, ValidTable, ValidChrs, OkSvc, OkSvcAs, OkPeer, OkPeerAs, Within;
      SvcFacts(p, i);
      rc := LinkNewChr(s, prev, k, g);
      if rc.Ok? {
        SetSvcView(s, s.view.(chrs := D.LinkAfter(s.view.chrs, k, Chr(g, []))), p, i);
        SetPeerView(p, p.view[i := s.view]);
      }
    }

    method LinkNewChr(s: PeerSvc, prev: PeerChr?, ghost k: nat, g: GattChr) returns (rc: Status)
      requires ValidChrs(null) && ValidSvcs(null) && s in allSvcs && s !in svcPool
      requires k <= |s.chrSeq| && prev == (if k == 0 then null else s.chrSeq[k - 1])
      requires k <= |s.view.chrs|
      modifies this`chrPool, s`chrs, s`chrSeq, allChrs
      ensures rc == if old(chrPool) == {} then ENoMem else Ok
      ensures if rc.Ok? then |chrPool| == |old(chrPool)| - 1 else chrPool == old(chrPool)
      ensures ValidChrs(null) && (!rc.Ok? ==> ValidSvcs(null))
      ensures rc.Ok? ==> ValidSvcs(s) && OkSvcAs(s, s.view.(chrs := D.LinkAfter(s.view.chrs, k, Chr(g, []))))
    {
      hide ValidChrs, ValidSvcs, OkSvc, OkSvcAs, Within;
      PrevFacts(s);
      var c := NewChr(g);
      if c == null {
        return ENoMem;
      }
      label Taken:
      LinkChrIn(s, prev, k, c);
      RelinkedChr@Taken(c);
      return Ok;
    }

    lemma {:induction false} PrevFacts(s: PeerSvc)
      requires ValidChrs(null) && ValidSvcs(null) && s in allSvcs
      ensures chrPool <= allChrs && forall c :: c in s.chrSeq ==> c in allChrs && c !in chrPool
    {
    }

    method ChrAdd(p: PeerRec, start: uint16, g: GattChr) returns (rc: Status)
      requires Valid() && p in peerSeq
      modifies this`chrPool, p`view, allSvcs, allChrs
      ensures Valid()
      ensures D.Outcome(rc, p.Model(), Free()) == D.ChrAdd(old(p.Model()), old(Free()), start, g)
    {
      hide Valid, OkPeer, OkSvc, Within, Distinct, LeadingBelow, D.LinkAfter, D.ChrAdd;
      PeerFacts(p);
      var s, _ := SvcFind(p, start);
      if s == null {
        ChrAddUnknown(p.Model(), Free(), start, g);
        return EUnknown;
      }
      ghost var i := Find(Starts(p.view), start).value;
      SvcFacts(p, i);
      ChrAddAt(p.Model(), Free(), start, g, i);
      var c, prev := ChrFind(s, g.def);
      if c != null {
        return Ok;
      }
      rc := StoreChr(p, s, i, prev, LeadingBelow(Vals(s.view.chrs), g.def), g);
    }

    /** A new service behind `prev` in the list of `p`, if the pool has a block for it. */
    method StoreSvc(p: PeerRec, prev: PeerSvc?, ghost k: nat, g: GattSvc) returns (rc: Status)
      requires Valid() && p in peerSeq
      requires k <= |p.svcSeq| && prev == (if k == 0 then null else p.svcSeq[k - 1])
      modifies this`svcPool, p`view, p`svcs, p`svcSeq, allSvcs
      ensures Valid()
      ensures rc == if old(Free()).svcs == 0 then ENoMem else Ok
      ensures Free() == if rc.Ok? then old(Free()).(svcs := old(Free()).svcs - 1) else old(Free())
      ensures p.view == if rc.Ok? then old(p.view)[..k] + [Svc(g, [])] + old(p.view)[k..] else old(p.view)
    {
      hide ValidTable, ValidChrs, ValidPeers, ValidSvcs, OkSvc, OkPeer, OkPeerAs, OkSvcAs, Within;
      PeerFacts(p);
      var s := NewSvc(g);
      if s == null {
        return ENoMem;
      }
      label Taken:
      LinkSvcIn(p, prev, k, s);
      RelinkedSvc@Taken(s);
      return Ok;
    }

    method LinkSvcIn(p: PeerRec, prev: PeerSvc?, ghost k: nat, s: PeerSvc)
      requires ValidPeers(null) && p in allPeers && p !in peerPool
      requires k <= |p.svcSeq| && prev == (if k == 0 then null else p.svcSeq[k - 1])
      requires s in allSvcs && s !in svcPool && s.owner == null && s.view.decl == s.svc
      modifies p`view, p`svcs, p`svcSeq, s`next, s`owner, (if prev == null then {} else {prev})`next
      ensures ValidPeers(null)
      ensures p.view == old(p.view)[..k] + [s.view] + old(p.view)[k..]
    {
      hide Distinct, Within, OkPeer;
      SvcRows(p, s, k);
      assert p.svcSeq[..0] + [s] + p.svcSeq[0..] == [s] + p.svcSeq;
      assert p.view[..0] + [s.view] + p.view[0..] == [s.view] + p.view;
      if prev == null {
        PushSvc(p, s);
      } else {
        InsertSvc(p, prev, k - 1, s);
      }
      PeersKept(p);
    }

    lemma {:induction false} SvcRows(p: PeerRec, s: PeerSvc, k: nat)
      requires ValidPeers(null) && p in allPeers && s in allSvcs && k <= |p.svcSeq|
      ensures OkPeer(p) && |p.view| == |p.svcSeq|
      ensures forall y :: y in p.svcSeq ==> y in allSvcs && y.owner == p
      ensures Within(p.svcSeq[..k] + [s] + p.svcSeq[k..], allSvcs)
    {
    }

    method SvcAdd(p: PeerRec, g: GattSvc) returns (rc: Status)
      requires Valid() && p in peerSeq
      modifies this`svcPool, p`view, p`svcs, p`svcSeq, allSvcs
      ensures Valid()
      ensures D.Outcome(rc, p.Model(), Free()) == D.SvcAdd(old(p.Model()), old(Free()), g)
    {
      hide Valid, OkPeer;
      PeerFacts(p);
      var s, prev := SvcFind(p, g.start);
      if s != null {
        return Ok;
      }
      rc := StoreSvc(p, prev, LeadingBelow(Starts(p.view), g.start), g);
    }

    // ----- deleting nodes

    /** The first descriptor of a characteristic that is on no list, given back to the pool. */
    method DeleteFirstDsc(c: PeerChr)
      requires ValidChrs(null) && c in allChrs && c !in chrPool && c.dscs != null
      modifies this`dscPool, c`dscs, c`dscSeq, c`view, allDscs`owner
      ensures ValidChrs(null)
      ensures |old(c.view.dscs)| > 0 && c.view == old(c.view).(dscs := old(c.view.dscs)[1..])
      ensures |dscPool| == |old(dscPool)| + 1
    {
      hide OkChrAs, Distinct;
      ChrFacts(c);
      HeadDsc(c);
      var d := PopDsc(c);
      dscPool := dscPool + {d};
      ChrsKept(c);
    }

    lemma {:induction false} HeadDsc(c: PeerChr)
      requires ValidChrs(null) && c in allChrs && c.dscs != null
      ensures c.dscs in allDscs && c.dscs !in dscPool && c.dscs.owner == c
    {
    }

    method ChrDelete(c: PeerChr)
      requires ValidChrs(null) && c in allChrs && c !in chrPool && c.owner == null
      modifies this`dscPool, this`chrPool, c`dscs, c`dscSeq, c`view, allDscs`owner
      ensures ValidChrs(null)
      ensures chrPool == old(chrPool) + {c} && |chrPool| == |old(chrPool)| + 1
      ensures |dscPool| == |old(dscPool)| + |old(c.view.dscs)|
    {
      hide OkChr, Within;
      while c.dscs != null
        invariant ValidChrs(null) && chrPool == old(chrPool)
        invariant |dscPool| + |c.view.dscs| == |old(dscPool)| + |old(c.view.dscs)|
        decreases |c.view.dscs|
      {
        DeleteFirstDsc(c);
      }
      EmptyChr(c);
      chrPool := chrPool + {c};
    }

    lemma {:induction false} EmptyChr(c: PeerChr)
      requires ValidChrs(null) && c in allChrs && c.dscs == null
      ensures c.dscSeq == [] && c.view.dscs == []
    {
    }

    /** The first characteristic of a service that is on no list, with its descriptors. */
    method DeleteFirstChr(s: PeerSvc)
      requires ValidChrs(null) && ValidSvcs(null) && s in allSvcs && s !in svcPool && s.owner == null
      requires s.chrs != null
      modifies this`dscPool, this`chrPool, s`chrs, s`chrSeq, s`view
      modifies allChrs`owner, allChrs`dscs, allChrs`dscSeq, allChrs`view, allDscs`owner
      ensures ValidChrs(null) && ValidSvcs(null)
      ensures |old(s.view.chrs)| > 0 && s.view == old(s.view).(chrs := old(s.view.chrs)[1..])
      ensures |chrPool| == |old(chrPool)| + 1
      ensures |dscPool| == |old(dscPool)| + |old(s.view.chrs)[0].dscs|
    {
      hide OkChr, OkSvcAs, Within, Distinct, ValidSvcs;
      var c := DetachFirstChr(s);
      label Detached:
      ChrDelete(c);
      DetachedKept@Detached(c);
    }

    method DetachFirstChr(s: PeerSvc) returns (c: PeerChr)
      requires ValidChrs(null) && ValidSvcs(null) && s in allSvcs && s !in svcPool && s.chrs != null
      modifies s`chrs, s`chrSeq, s`view, allChrs`owner
      ensures ValidChrs(null) && ValidSvcs(null)
      ensures |old(s.view.chrs)| > 0 && s.view == old(s.view).(chrs := old(s.view.chrs)[1..])
      ensures c in allChrs && c !in chrPool && c.owner == null && c.view == old(s.view.chrs)[0]
    {
      hide OkChr, OkSvcAs, Distinct;
      HeadChr(s);
      c := PopChr(s);
      SvcsKept(s);
      RelinkedChr(c);
    }

    lemma {:induction false} HeadChr(s: PeerSvc)
      requires ValidChrs(null) && ValidSvcs(null) && s in allSvcs && s.chrs != null
      ensures s.chrs in allChrs && s.chrs !in chrPool && s.chrs.owner == s
      ensures OkSvc(s) && Within(s.chrSeq, allChrs)
    {
    }

    /** A characteristic on no list may change without concerning any service. */
    twostate lemma DetachedKept(c: PeerChr)
      requires old(ValidSvcs(null)) && svcPool == old(svcPool) && old(c.owner) == null
      requires forall y :: y in allChrs && y != c ==>
                 y.next == old(y.next) && y.chr == old(y.chr) && y.view == old(y.view) && y.owner == old(y.owner)
      requires forall x :: x in allSvcs ==>
                 && x.view == old(x.view) && x.svc == old(x.svc) && x.chrs == old(x.chrs)
                 && x.chrSeq == old(x.chrSeq) && x.owner == old(x.owner)
      ensures ValidSvcs(null)
    {
      hide OkSvc, Within;
      SvcsKept(null);
    }

    lemma {:induction false} EmptySvc(s: PeerSvc)
      requires ValidSvcs(null) && s in allSvcs && s.chrs == null
      ensures s.chrSeq == [] && s.view.chrs == []
    {
    }

    method SvcDelete(s: PeerSvc)
      requires ValidChrs(null) && ValidSvcs(null) && s in allSvcs && s !in svcPool && s.owner == null
      modifies this`dscPool, this`chrPool, this`svcPool, s`chrs, s`chrSeq, s`view
      modifies allChrs`owner, allChrs`dscs, allChrs`dscSeq, allChrs`view, allDscs`owner
      ensures ValidChrs(null) && ValidSvcs(null)
      ensures svcPool == old(svcPool) + {s} && |svcPool| == |old(svcPool)| + 1
      ensures |chrPool| == |old(chrPool)| + |old(s.view.chrs)|
      ensures |dscPool| == |old(dscPool)| + DscsOfChrs(old(s.view.chrs))
    {
      hide OkChr, OkSvc, ValidChrs, ValidSvcs, Within;
      while s.chrs != null
        invariant ValidChrs(null) && ValidSvcs(null) && svcPool == old(svcPool)
        invariant |chrPool| + |s.view.chrs| == |old(chrPool)| + |old(s.view.chrs)|
        invariant |dscPool| + DscsOfChrs(s.view.chrs) == |old(dscPool)| + DscsOfChrs(old(s.view.chrs))
        decreases |s.view.chrs|
      {
        DeleteFirstChr(s);
      }
      EmptySvc(s);
      label Emptied:
      svcPool := svcPool + {s};
      SvcFreed@Emptied(s);
    }

    twostate lemma SvcFreed(s: PeerSvc)
      requires old(ValidSvcs(null)) && s in allSvcs && s !in old(svcPool) && svcPool == old(svcPool) + {s}
      requires s.owner == null && s.chrSeq == [] && unchanged(allSvcs, allChrs)
      ensures ValidSvcs(null) && |svcPool| == |old(svcPool)| + 1
    {
      hide OkSvc, Within;
      SvcsKept(null);
    }

    /** The first service of a peer, with everything below it. */
    method DeleteFirstSvc(p: PeerRec)
      requires ValidChrs(null) && ValidSvcs(null) && ValidPeers(null)
      requires p in allPeers && p.svcs != null && p.cur.None?
      modifies this`dscPool, this`chrPool, this`svcPool, p`svcs, p`svcSeq, p`view
      modifies allSvcs`owner, allSvcs`chrs, allSvcs`chrSeq, allSvcs`view
      modifies allChrs`owner, allChrs`dscs, allChrs`dscSeq, allChrs`view, allDscs`owner
      ensures ValidChrs(null) && ValidSvcs(null) && ValidPeers(null)
      ensures |old(p.view)| > 0 && p.view == old(p.view)[1..]
      ensures |svcPool| == |old(svcPool)| + 1
      ensures |chrPool| == |old(chrPool)| + |old(p.view)[0].chrs|
      ensures |dscPool| == |old(dscPool)| + DscsOfChrs(old(p.view)[0].chrs)
    {
      hide OkChr, OkSvc, OkPeer, ValidChrs, ValidSvcs, ValidPeers, Within, Distinct;
      var s := DetachFirstSvc(p);
      label Detached:
      SvcDelete(s);
      DetachedSvcKept@Detached(s);
    }

    method DetachFirstSvc(p: PeerRec) returns (s: PeerSvc)
      requires ValidChrs(null) && ValidSvcs(null) && ValidPeers(null)
      requires p in allPeers && p.svcs != null && p.cur.None?
      modifies p`svcs, p`svcSeq, p`view, allSvcs`owner
      ensures ValidChrs(null) && ValidSvcs(null) && ValidPeers(null)
      ensures |old(p.view)| > 0 && p.view == old(p.view)[1..]
      ensures s in allSvcs && s !in svcPool && s.owner == null && s.view == old(p.view)[0]
    {
      hide OkPeerAs, OkSvc, ValidChrs, Distinct;
      HeadSvc(p);
      s := PopSvc(p);
      PeersKept(p);
      RelinkedSvc(s);
    }

    lemma {:induction false} HeadSvc(p: PeerRec)
      requires ValidSvcs(null) && ValidPeers(null) && p in allPeers && p.svcs != null
      ensures p.svcs in allSvcs && p.svcs !in svcPool && p.svcs.owner == p
      ensures OkPeer(p) && Within(p.svcSeq, allSvcs) && p !in peerPool
    {
    }

    twostate lemma DetachedSvcKept(s: PeerSvc)
      requires old(ValidPeers(null)) && peerPool == old(peerPool) && peerSeq == old(peerSeq) && old(s.owner) == null
      requires forall x :: x in allSvcs && x != s ==>
                 x.next == old(x.next) && x.svc == old(x.svc) && x.view == old(x.view) && x.owner == old(x.owner)
      requires forall q :: q in allPeers ==>
                 && q.view == old(q.view) && q.svcs == old(q.svcs) && q.svcSeq == old(q.svcSeq)
                 && q.cur == old(q.cur) && q.curSvc == old(q.curSvc)
      ensures ValidPeers(null)
    {
      hide OkPeer, Within;
      PeersKept(null);
    }

    /** "Undiscover everything first": the whole tree of `p` given back to the pools. */
    method Undiscover(p: PeerRec)
      requires Valid() && p in allPeers
      modifies this`dscPool, this`chrPool, this`svcPool, p`svcs, p`svcSeq, p`view, p`cur
      modifies allSvcs`owner, allSvcs`chrs, allSvcs`chrSeq, allSvcs`view
      modifies allChrs`owner, allChrs`dscs, allChrs`dscSeq, allChrs`view, allDscs`owner
      ensures Valid()
      ensures p.view == [] && p.svcSeq == [] && p.cur == None
      ensures Free() == D.Released(old(Free()), old(p.view))
    {
      hide OkChr, OkSvc, OkPeer, ValidChrs, ValidSvcs, ValidPeers, ValidTable, Within;
      ForgetCur(p);
      while p.svcs != null
        invariant ValidChrs(null) && ValidSvcs(null) && ValidPeers(null) && ValidTable() && p.cur.None?
        invariant D.Released(Free(), p.view) == D.Released(old(Free()), old(p.view))
        decreases |p.view|
      {
        DeleteFirstSvc(p);
      }
      EmptyPeer(p);
    }

    /** From here on the current-service pointer of `p` must not be followed. */
    ghost method ForgetCur(p: PeerRec)
      requires ValidPeers(null) && p in allPeers
      modifies p`cur
      ensures ValidPeers(null) && p.cur.None?
    {
      hide Distinct, Within;
      assert OkPeer(p);
      p.cur := None;
      PeersKept(p);
    }

    lemma {:induction false} EmptyPeer(p: PeerRec)
      requires ValidPeers(null) && p in allPeers && p.svcs == null
      ensures p.svcSeq == [] && p.view == []
    {
    }

    // ----- the phases of discovery

    /** The registered arguments after a step in which `m` became `m'`. */
    static ghost function Registered(args: map<uint16, PeerRec>, p: PeerRec, m: D.Peer, m': D.Peer)
      : map<uint16, PeerRec>
    {
      if R.NewlyAccepted(m, m').Some? then args[m.conn := p] else args
    }

    /** A GATT procedure asked of the stack, which answers `rc`. */
    method GattcStart(p: PeerRec, req: D.Request, rc: Status)
      modifies this`args, p`trace
      ensures p.Model() == D.Start(old(p.Model()), req, rc)
      ensures args == if rc.Ok? then old(args)[p.connHandle := p] else old(args)
    {
      p.trace := p.trace + [D.Started(req, rc)];
      if rc.Ok? {
        args := args[p.connHandle := p];
      }
    }

    /** `peer_disc_complete`; the callback is visible in the trace. */
    method DiscComplete(p: PeerRec, rc: Status)
      modifies p`discPrevChrVal, p`trace
      ensures p.Model() == D.Complete(old(p.Model()), rc)
    {
      p.discPrevChrVal := 0;
      if p.discCb {
        p.trace := p.trace + [D.Reported(rc)];
      }
    }

    method ChrEndHandle(s: PeerSvc, c: PeerChr, ghost j: nat) returns (r: uint16)
      requires OkSvc(s) && j < |s.chrSeq| && c == s.chrSeq[j]
      ensures j < |s.view.chrs| && r == ChrEnd(s.view, j)
    {
      hide Distinct;
      var next := c.next;
      if next != null {
        r := Dec(next.chr.def);
      } else {
        r := s.svc.end;
      }
    }

    /** The inner loop of `peer_disc_dscs`. */
    method WantedIn(p: PeerRec, ghost i: nat, s: PeerSvc) returns (chr: PeerChr?, ghost j: nat)
      requires Valid() && p in allPeers && i < |p.svcSeq| && s == p.svcSeq[i]
      ensures i < |p.view| && s.view == p.view[i] && OkSvc(s)
      ensures chr != null ==> j < |s.chrSeq| && chr == s.chrSeq[j] && chr.chr == s.view.chrs[j].decl
      ensures chr != null ==> InTree(p.view, Pos(i, j)) && D.Wanted(p.view, Pos(i, j), p.discPrevChrVal)
      ensures forall q :: InTree(p.view, q) && q.i == i && (chr == null || q.j < j) ==>
                !D.Wanted(p.view, q, p.discPrevChrVal)
    {
      hide Valid, Distinct, Within;
      SvcFacts(p, i);
      chr, j := s.chrs, 0;
      while chr != null
        invariant j <= |s.chrSeq| && chr == (if j < |s.chrSeq| then s.chrSeq[j] else null)
        invariant forall q :: InTree(p.view, q) && q.i == i && q.j < j ==> !D.Wanted(p.view, q, p.discPrevChrVal)
        decreases |s.chrSeq| - j
      {
        ChrAtFacts(s, j);
        EmptyIff(chr);
        var end := ChrEndHandle(s, chr, j);
        if end > chr.chr.val && chr.dscs == null && p.discPrevChrVal <= chr.chr.def {
          return;
        }
        chr := chr.next;
        j := j + 1;
      }
    }

    lemma {:induction false} EmptyIff(c: PeerChr)
      requires OkChr(c)
      ensures c.dscs == null <==> c.view.dscs == []
      ensures c.view.decl == c.chr
    {
    }

    method GattcStartDscs(p: PeerRec, val: uint16, end: uint16, rc: Status)
      modifies this`args, p`discPrevChrVal, p`trace
      ensures var m1 := D.Start(old(p.Model()), D.DscsIn(val, end), rc);
        p.Model() == (if rc.Ok? then m1 else D.Complete(m1, rc)).(cursor := val)
      ensures args == Registered(old(args), p, old(p.Model()), p.Model())
    {
      GattcStart(p, D.DscsIn(val, end), rc);
      if !rc.Ok? {
        DiscComplete(p, rc);
      }
      p.discPrevChrVal := val;
    }

    /** The search of `peer_disc_dscs`: the first characteristic it wants, in list order. */
    method FindWanted(p: PeerRec) returns (svc: PeerSvc?, chr: PeerChr?, ghost i: nat, ghost j: nat)
      requires Valid() && p in peerSeq
      ensures chr == null ==> forall q :: InTree(p.view, q) ==> !D.Wanted(p.view, q, p.discPrevChrVal)
      ensures chr != null ==> svc != null && i < |p.view| && svc.view == p.view[i] && OkSvc(svc)
      ensures chr != null ==> j < |svc.chrSeq| && chr == svc.chrSeq[j]
      ensures chr != null ==> InTree(p.view, Pos(i, j)) && chr.chr == At(p.view, Pos(i, j)).decl
      ensures chr != null ==> D.Wanted(p.view, Pos(i, j), p.discPrevChrVal)
      ensures chr != null ==>
        forall q :: InTree(p.view, q) && Before(q, Pos(i, j)) ==> !D.Wanted(p.view, q, p.discPrevChrVal)
    {
      hide Valid, D.Wanted, OkSvc, OkPeerAs;
      PeerFacts(p);
      svc := FirstSvc(p);
      chr, i, j := null, 0, 0;
      while svc != null
        invariant chr == null && i <= |p.svcSeq| && svc == (if i < |p.svcSeq| then p.svcSeq[i] else null)
        invariant forall q :: InTree(p.view, q) && q.i < i ==> !D.Wanted(p.view, q, p.discPrevChrVal)
        decreases |p.svcSeq| - i
      {
        chr, j := WantedIn(p, i, svc);
        if chr != null {
          return;
        }
        svc := NextSvcOf(p, svc, i);
        i := i + 1;
      }
    }

    method DiscDscs(p: PeerRec, rc: Status)
      requires Valid() && p in peerSeq
      modifies this`args, p`discPrevChrVal, p`trace
      ensures Valid()
      ensures p.Model() == D.DiscDscs(old(p.Model()), rc)
      ensures args == Registered(old(args), p, old(p.Model()), p.Model())
    {
      hide Valid, D.DiscDscs, D.Wanted, D.Start, D.Complete, OkSvc;
      var svc, chr, i, j := FindWanted(p);
      if chr != null {
        DiscDscsAt(p.Model(), rc, Pos(i, j));
        var end := ChrEndHandle(svc, chr, j);
        GattcStartDscs(p, chr.chr.val, end, rc);
      } else {
        DiscDscsNone(p.Model(), rc);
        NothingAccepted(p.Model(), Ok);
        DiscComplete(p, Ok);
      }
    }

    method FirstSvc(p: PeerRec) returns (svc: PeerSvc?)
      requires OkPeer(p)
      ensures svc == (if 0 < |p.svcSeq| then p.svcSeq[0] else null)
    {
      svc := p.svcs;
    }

    method NextSvcOf(p: PeerRec, svc: PeerSvc, ghost i: nat) returns (next: PeerSvc?)
      requires OkPeer(p) && i < |p.svcSeq| && svc == p.svcSeq[i]
      ensures next == (if i + 1 < |p.svcSeq| then p.svcSeq[i + 1] else null)
    {
      next := svc.next;
    }

    /** The search of `peer_disc_chrs`: the first service without characteristics that may have some. */
    method FindOpen(p: PeerRec) returns (svc: PeerSvc?)
      requires OkPeer(p) && forall s :: s in p.svcSeq ==> OkSvc(s)
      ensures match D.FirstOpen(p.view)
              case None => svc == null
              case Some(i) => i < |p.svcSeq| && svc == p.svcSeq[i] && svc.svc == p.view[i].decl
    {
      hide Distinct;
      svc := p.svcs;
      ghost var i := 0;
      while svc != null
        invariant i <= |p.svcSeq| && svc == (if i < |p.svcSeq| then p.svcSeq[i] else null)
        invariant forall k :: 0 <= k < i ==> !D.Open(p.view[k])
        decreases |p.svcSeq| - i
      {
        assert OkSvc(svc);
        if svc.svc.end > svc.svc.start && svc.chrs == null {
          FirstOpenIs(p.view, i);
          return;
        }
        svc := svc.next;
        i := i + 1;
      }
      FirstOpenIs(p.view, |p.view|);
    }

    lemma {:induction false} SvcsFacts(p: PeerRec)
      requires Valid() && p in allPeers
      ensures forall s :: s in p.svcSeq ==> OkSvc(s)
    {
    }

    /** `cur_svc = svc`, which from now on may be followed. */
    method SetCur(p: PeerRec, svc: PeerSvc)
      requires Valid() && p in allPeers && svc in p.svcSeq
      modifies p`curSvc, p`cur
      ensures Valid() && p.cur == Some(svc.svc.start)
    {
      hide Distinct, Within, ValidChrs, ValidSvcs, ValidTable;
      assert OkPeer(p);
      p.curSvc := svc;
      p.cur := Some(svc.svc.start);
      PeersKept(p);
    }

    method GattcStartChrs(p: PeerRec, start: uint16, end: uint16, rc: Status)
      modifies this`args, p`discPrevChrVal, p`trace
      ensures var m1 := D.Start(old(p.Model()), D.ChrsIn(start, end), rc);
        p.Model() == if rc.Ok? then m1 else D.Complete(m1, rc)
      ensures args == Registered(old(args), p, old(p.Model()), p.Model())
    {
      GattcStart(p, D.ChrsIn(start, end), rc);
      if !rc.Ok? {
        DiscComplete(p, rc);
      }
    }

    method DiscChrs(p: PeerRec, rc: Status)
      requires Valid() && p in peerSeq
      modifies this`args, p`curSvc, p`cur, p`discPrevChrVal, p`trace
      ensures Valid()
      ensures p.Model() == D.DiscChrs(old(p.Model()), rc)
      ensures args == Registered(old(args), p, old(p.Model()), p.Model())
    {
      hide Valid, OkPeer, OkSvc, Within, Distinct, D.DiscDscs, D.FirstOpen, D.DiscChrs, D.Start, D.Complete, Registered;
      PeerFacts(p);
      SvcsFacts(p);
      var svc := FindOpen(p);
      DiscChrsIs(p.Model(), rc);
      if svc == null {
        DiscDscs(p, rc);
        return;
      }
      ghost var m := p.Model();
      SetCur(p, svc);
      GattcStartChrs(p, svc.svc.start, svc.svc.end, rc);
      RegisteredCur(old(args), p, m, p.Model(), Some(svc.svc.start));
    }

    static lemma {:induction false} RegisteredCur(args: map<uint16, PeerRec>, p: PeerRec, m: D.Peer, m': D.Peer,
                                                  cur: Option<uint16>)
      ensures Registered(args, p, m.(cur := cur), m') == Registered(args, p, m, m')
    {
    }

    // ----- the discovery callbacks; `rc` is the stack's answer to a procedure started by them

    method SvcDisced(p: PeerRec, connHandle: uint16, status: Status, service: Option<GattSvc>, rc: Status)
      returns (r: Status)
      requires Valid() && p in peerSeq && p.connHandle == connHandle
      requires status.Ok? ==> service.Some?
      modifies this`args, this`svcPool, p, allSvcs
      ensures Valid()
      ensures D.Outcome(r, p.Model(), Free()) == D.SvcDisced(old(p.Model()), old(Free()), status, service, rc)
      ensures args == Registered(old(args), p, old(p.Model()), p.Model())
    {
      hide Valid, D.SvcAdd, D.DiscChrs, D.SvcDisced;
      assert p.connHandle == connHandle;
      SvcDiscedIs(p.Model(), Free(), status, service, rc);
      match status {
        case Ok =>
          r := SvcAdd(p, service.value);
        case EDone =>
          if p.discPrevChrVal > 0 {
            DiscChrs(p, rc);
          }
          r := Ok;
        case _ =>
          r := status;
      }
      if !r.Ok? {
        DiscComplete(p, r);
      }
    }

    method ChrDisced(p: PeerRec, connHandle: uint16, status: Status, chr: Option<GattChr>, rc: Status)
      returns (r: Status)
      requires Valid() && p in peerSeq && p.connHandle == connHandle
      requires status.Ok? ==> chr.Some? && p.cur.Some?
      modifies this`args, this`chrPool, p, allSvcs, allChrs
      ensures Valid()
      ensures D.Outcome(r, p.Model(), Free()) == D.ChrDisced(old(p.Model()), old(Free()), status, chr, rc)
      ensures args == Registered(old(args), p, old(p.Model()), p.Model())
    {
      hide Valid, OkPeer, Within, Distinct, D.ChrAdd, D.DiscChrs, D.ChrDisced;
      assert p.connHandle == connHandle;
      ChrDiscedIs(p.Model(), Free(), status, chr, rc);
      match status {
        case Ok =>
          CurFacts(p);
          r := ChrAdd(p, p.curSvc.svc.start, chr.value);
        case EDone =>
          if p.discPrevChrVal > 0 {
            DiscChrs(p, rc);
          }
          r := Ok;
        case _ =>
          r := status;
      }
      if !r.Ok? {
        DiscComplete(p, r);
      }
    }

    lemma {:induction false} CurFacts(p: PeerRec)
      requires Valid() && p in peerSeq && p.cur.Some?
      ensures p.curSvc != null && p.curSvc.svc.start == p.cur.value
    {
    }

    method DscDisced(p: PeerRec, connHandle: uint16, status: Status, val: uint16, dsc: Option<GattDsc>, rc: Status)
      returns (r: Status)
      requires Valid() && p in peerSeq && p.connHandle == connHandle
      requires status.Ok? ==> dsc.Some?
      modifies this`args, this`dscPool, p, allSvcs, allChrs, allDscs
      ensures Valid()
      ensures D.Outcome(r, p.Model(), Free()) == D.DscDisced(old(p.Model()), old(Free()), status, val, dsc, rc)
      ensures args == Registered(old(args), p, old(p.Model()), p.Model())
    {
      hide Valid, D.DscAdd, D.DiscDscs, D.DscDisced;
      assert p.connHandle == connHandle;
      DscDiscedIs(p.Model(), Free(), status, val, dsc, rc);
      match status {
        case Ok =>
          r := DscAdd(p, val, dsc.value);
        case EDone =>
          if p.discPrevChrVal > 0 {
            DiscDscs(p, rc);
          }
          r := Ok;
        case _ =>
          r := status;
      }
      if !r.Ok? {
        DiscComplete(p, r);
      }
    }

    // ----- the table of peers

    ghost function Models(): (r: seq<D.Peer>)
      reads this`peerSeq, peerSeq
      ensures |r| == |peerSeq| && forall i :: 0 <= i < |peerSeq| ==> r[i] == peerSeq[i].Model()
    {
      ModelsOf(peerSeq)
    }

    ghost function Table(): T.Table
      reads this`peerSeq, this`peerPool, this`svcPool, this`chrPool, this`dscPool, peerSeq
    {
      T.Table(Models(), Free(), |peerPool|)
    }

    lemma {:induction false} TableFacts()
      requires Valid()
      ensures ValidTable() && Within(peerSeq, allPeers) && Distinct(peerSeq)
    {
    }

    /** A change to the `i`-th peer alone. */
    twostate lemma OneChanged(i: nat)
      requires peerSeq == old(peerSeq) && Distinct(peerSeq) && i < |peerSeq|
      requires forall k :: 0 <= k < |peerSeq| && peerSeq[k] != peerSeq[i] ==> unchanged(peerSeq[k])
      ensures Models() == old(Models())[i := peerSeq[i].Model()]
    {
      DistinctAt(peerSeq, i);
    }

    method PeerFind(h: uint16) returns (p: PeerRec?)
      requires ValidTable()
      ensures match T.IndexOfPeer(Models(), h)
              case None => p == null
              case Some(i) => p == peerSeq[i] && p.connHandle == h
    {
      hide Distinct;
      p := peers;
      ghost var i := 0;
      while p != null
        invariant i <= |peerSeq| && p == (if i < |peerSeq| then peerSeq[i] else null)
        invariant forall k :: 0 <= k < i ==> Models()[k].conn != h
        decreases |peerSeq| - i
      {
        if p.connHandle == h {
          assert Models()[i].conn == h;
          return;
        }
        p := p.next;
        i := i + 1;
      }
    }

    /** A cleared block for a new peer. */
    method NewPeer(h: uint16) returns (p: PeerRec?)
      requires ValidPeers(null) && ValidTable()
      modifies this`peerPool, peerPool
      ensures ValidPeers(null) && ValidTable()
      ensures p == null ==> old(peerPool) == {} && peerPool == {}
      ensures p != null ==> p in old(peerPool) && peerPool == old(peerPool) - {p}
      ensures p != null ==> p in allPeers && p !in peerSeq && p.Model() == D.FreshPeer(h)
    {
      hide Distinct, Within, OkPeer, ValidTable;
      if peerPool == {} {
        return null;
      }
      p :| p in peerPool;
      peerPool := peerPool - {p};
      p.next, p.connHandle, p.svcs := null, h, null;
      p.discPrevChrVal, p.curSvc, p.discCb := 0, null, false;
      p.svcSeq, p.view, p.cur, p.trace := [], [], None, [];
      EmptyOk(p);
      PeersKept(p);
      FreePeerTaken(p);
    }

    twostate lemma FreePeerTaken(p: PeerRec)
      requires old(ValidTable()) && p !in peerSeq && peerSeq == old(peerSeq) && peers == old(peers)
      requires forall q :: q in allPeers && q != p ==> q.next == old(q.next)
      ensures ValidTable()
    {
      hide Distinct;
      assert forall k :: 0 <= k < |peerSeq| ==> peerSeq[k] in allPeers && peerSeq[k] != p;
    }

    lemma {:induction false} EmptyOk(p: PeerRec)
      requires p.svcs == null && p.svcSeq == [] && p.view == [] && p.cur == None
      ensures OkPeer(p) && Within(p.svcSeq, allSvcs)
    {
    }

    method LinkPeer(p: PeerRec)
      requires ValidPeers(null) && ValidTable() && p in allPeers && p !in peerSeq && p !in peerPool
      modifies this`peers, this`peerSeq, p`next
      ensures ValidPeers(null) && ValidTable()
      ensures peerSeq == [p] + old(peerSeq)
    {
      hide OkPeer, Within, Distinct;
      DistinctInsert(peerSeq, 0, p);
      assert peerSeq[..0] + [p] + peerSeq[0..] == [p] + peerSeq;
      ghost var was := peerSeq;
      p.next := peers;
      peers := p;
      peerSeq := [p] + was;
      assert forall i :: 1 <= i < |peerSeq| ==> peerSeq[i] == was[i - 1];
      PeersKept(null);
    }

    method PeerAdd(h: uint16) returns (rc: Status)
      requires Valid()
      modifies this`peerPool, this`peers, this`peerSeq, allPeers
      ensures Valid()
      ensures (rc, Table()) == T.PeerAdd(old(Table()), h)
      ensures if rc.Ok? then peerSeq != [] && peerSeq[1..] == old(peerSeq) else peerSeq == old(peerSeq)
    {
      hide Valid, ValidTable, ValidPeers, Distinct, Within, Models;
      TableFacts();
      var p := PeerFind(h);
      if p != null {
        return EAlready;
      }
      PoolFacts();
      p := Enlist(h);
      if p == null {
        return ENoMem;
      }
      OneAdded(p);
      return Ok;
    }

    /** A cleared block for a new peer, at the head of the list. */
    method Enlist(h: uint16) returns (p: PeerRec?)
      requires Valid()
      modifies this`peerPool, this`peers, this`peerSeq, peerPool
      ensures Valid()
      ensures (p == null) == (old(peerPool) == {})
      ensures p == null ==> peerPool == {} && peerSeq == old(peerSeq)
      ensures p != null ==> p in old(peerPool) && |peerPool| == |old(peerPool)| - 1
      ensures p != null ==> p.Model() == D.FreshPeer(h) && peerSeq == [p] + old(peerSeq)
    {
      hide ValidChrs, ValidSvcs, ValidPeers, ValidTable;
      p := NewPeer(h);
      if p != null {
        LinkPeer(p);
      }
    }

    lemma {:induction false} PoolFacts()
      requires Valid()
      ensures peerPool <= allPeers && forall p :: p in peerPool ==> p !in peerSeq
    {
    }

    twostate lemma OneAdded(p: PeerRec)
      requires peerSeq == [p] + old(peerSeq)
      requires forall q :: q in old(peerSeq) ==> q.Model() == old(q.Model())
      ensures Models() == [p.Model()] + old(Models())
    {
      assert forall k :: 1 <= k < |peerSeq| ==> peerSeq[k] == old(peerSeq)[k - 1];
    }

    twostate lemma OneRemoved(i: nat)
      requires i < |old(peerSeq)| && peerSeq == T.Without(old(peerSeq), i)
      requires forall q :: q in peerSeq ==> q.Model() == old(q.Model())
      ensures Models() == T.Without(old(Models()), i)
    {
      assert forall k :: 0 <= k < |peerSeq| ==> peerSeq[k] == old(peerSeq)[if k < i then k else k + 1];
    }

    /** `SLIST_REMOVE` of the `i`-th peer. */
    method UnlinkPeer(p: PeerRec, ghost i: nat)
      requires ValidTable() && i < |peerSeq| && p == peerSeq[i]
      modifies this`peers, this`peerSeq, allPeers`next
      ensures ValidTable()
      ensures peerSeq == T.Without(old(peerSeq), i) && p !in peerSeq
    {
      hide Distinct;
      ghost var was := peerSeq;
      DistinctRemove(was, i);
      if peers == p {
        DistinctFirst(was, i);
        peers := p.next;
      } else {
        var prev := PrevPeer(p, i);
        DistinctAt(was, i - 1);
        prev.next := p.next;
      }
      peerSeq := T.Without(was, i);
      forall k | 0 <= k < |peerSeq|
        ensures peerSeq[k] == was[if k < i then k else k + 1]
        ensures peerSeq[k].next == if k + 1 < |peerSeq| then peerSeq[k + 1] else null
      {
        assert peerSeq[k] == was[if k < i then k else k + 1];
      }
    }

    twostate lemma {:induction false} UnlinkedValid(i: nat)
      requires old(Valid()) && i < |old(peerSeq)| && peerSeq == T.Without(old(peerSeq), i) && ValidTable()
      requires unchanged(this`peerPool, this`svcPool, this`chrPool, this`dscPool)
      requires unchanged(allPeers`view, allPeers`svcs, allPeers`svcSeq, allPeers`cur, allPeers`curSvc)
      requires unchanged(allSvcs, allChrs, allDscs)
      ensures Valid()
    {
      hide ValidChrs, ValidSvcs, OkPeer, Within, Distinct;
      PeersKept(null);
      assert forall k :: 0 <= k < |peerSeq| ==> peerSeq[k] == old(peerSeq)[if k < i then k else k + 1];
      assert forall p :: p in peerSeq ==> p in old(peerSeq);
    }

    lemma {:induction false} DistinctFirst(xs: seq<PeerRec>, i: nat)
      requires Distinct(xs) && i < |xs| && xs[0] == xs[i]
      ensures i == 0
    {
    }

    /** The walk of `SLIST_REMOVE` to the predecessor of `p`. */
    method PrevPeer(p: PeerRec, ghost i: nat) returns (prev: PeerRec)
      requires ValidTable() && i < |peerSeq| && p == peerSeq[i] && peers != p
      ensures i > 0 && prev == peerSeq[i - 1]
    {
      prev := peers;
      ghost var k := 0;
      while prev.next != p
        invariant k < i && prev == peerSeq[k]
        decreases i - k
      {
        prev := prev.next;
        k := k + 1;
      }
    }

    method PeerDelete(h: uint16) returns (rc: Status)
      requires Valid()
      modifies this`peers, this`peerSeq, this`peerPool, this`svcPool, this`chrPool, this`dscPool
      modifies allPeers, allSvcs, allChrs, allDscs
      ensures Valid()
      ensures (rc, Table()) == T.PeerDelete(old(Table()), h)
      ensures peerSeq == match T.IndexOfPeer(old(Models()), h)
                case None => old(peerSeq)
                case Some(i) => T.Without(old(peerSeq), i)
    {
      hide Valid, ValidTable, Within, Distinct, OkPeer, D.Released, Models, T.Without;
      TableFacts();
      var p := PeerFind(h);
      if p == null {
        return ENotConn;
      }
      ghost var i := T.IndexOfPeer(Models(), h).value;
      PeerFacts(p);
      TakeOut(p, i);
      return Ok;
    }

    method TakeOut(p: PeerRec, ghost i: nat)
      requires Valid() && i < |peerSeq| && p == peerSeq[i] && p in allPeers && p !in peerPool
      modifies this`peers, this`peerSeq, this`peerPool, this`svcPool, this`chrPool, this`dscPool
      modifies allPeers`next, p`svcs, p`svcSeq, p`view, p`cur
      modifies allSvcs`owner, allSvcs`chrs, allSvcs`chrSeq, allSvcs`view
      modifies allChrs`owner, allChrs`dscs, allChrs`dscSeq, allChrs`view, allDscs`owner
      ensures Valid()
      ensures Models() == T.Without(old(Models()), i) && peerSeq == T.Without(old(peerSeq), i)
      ensures Free() == D.Released(old(Free()), old(p.view)) && |peerPool| == |old(peerPool)| + 1
    {
      hide Valid, ValidTable, Distinct, Within, D.Released, Models, PeerRec.Model, T.Without;
      Unlink(p, i);
      label Unlinked:
      Undiscover(p);
      Release(p);
      ModelsKept@Unlinked();
    }

    method Unlink(p: PeerRec, ghost i: nat)
      requires Valid() && i < |peerSeq| && p == peerSeq[i]
      modifies this`peers, this`peerSeq, allPeers`next
      ensures Valid() && p !in peerSeq
      ensures Models() == T.Without(old(Models()), i) && peerSeq == T.Without(old(peerSeq), i)
    {
      hide Valid, ValidTable, Distinct, Within, Models, PeerRec.Model, T.Without;
      TableFacts();
      UnlinkPeer(p, i);
      UnlinkedValid(i);
      SameModels(i);
      OneRemoved(i);
    }

    twostate lemma SameModels(i: nat)
      requires old(Valid()) && i < |old(peerSeq)| && peerSeq == T.Without(old(peerSeq), i)
      requires unchanged(allPeers`connHandle, allPeers`view, allPeers`discPrevChrVal, allPeers`cur)
      requires unchanged(allPeers`discCb, allPeers`trace)
      ensures forall q :: q in peerSeq ==> q.Model() == old(q.Model())
    {
      hide ValidChrs, ValidSvcs, ValidPeers, Distinct;
    }

    twostate lemma ModelsKept()
      requires peerSeq == old(peerSeq) && unchanged(peerSeq)
      ensures Models() == old(Models())
    {
    }

    method Release(p: PeerRec)
      requires Valid() && p in allPeers && p !in peerPool && p !in peerSeq && p.svcSeq == []
      modifies this`peerPool
      ensures Valid() && peerPool == old(peerPool) + {p} && |peerPool| == |old(peerPool)| + 1
    {
      hide ValidChrs, ValidSvcs, ValidTable, OkPeer, Within;
      peerPool := peerPool + {p};
    }

    /** What `peer_disc_all` and `peer_disc_svc_by_uuid` do with the peer they found. */
    method Restart(p: PeerRec, root: D.Request, cb: bool, rc: Status)
      requires Valid() && p in peerSeq
      modifies this`args, this`dscPool, this`chrPool, this`svcPool, p, allSvcs, allChrs, allDscs
      ensures Valid()
      ensures D.Outcome(rc, p.Model(), Free()) == D.Discover(old(p.Model()), old(Free()), root, cb, rc)
      ensures args == if rc.Ok? then old(args)[old(p.connHandle) := p] else old(args)
    {
      hide Valid, D.Released, OkPeer, Within;
      PeerFacts(p);
      Undiscover(p);
      Reset(p, cb);
      GattcStart(p, root, rc);
    }

    method Reset(p: PeerRec, cb: bool)
      modifies p`discPrevChrVal, p`discCb, p`trace
      ensures p.Model() == old(p.Model()).(cursor := 1, cb := cb, trace := [])
    {
      p.discPrevChrVal, p.discCb, p.trace := 1, cb, [];
    }

    method RestartAt(p: PeerRec, ghost i: nat, root: D.Request, cb: bool, rc: Status)
      requires Valid() && i < |peerSeq| && p == peerSeq[i]
      modifies this`args, this`dscPool, this`chrPool, this`svcPool, p, allSvcs, allChrs, allDscs
      ensures Valid() && peerSeq == old(peerSeq)
      ensures var o := D.Discover(old(Models())[i], old(Free()), root, cb, rc);
        o.rc == rc && Table() == old(Table()).(peers := old(Models())[i := o.peer], pools := o.pools)
      ensures args == if rc.Ok? then old(args)[old(p.connHandle) := p] else old(args)
    {
      hide Valid, ValidTable, Distinct, Within, D.Discover, Models, PeerRec.Model;
      TableFacts();
      Restart(p, root, cb, rc);
      OneChanged(i);
    }

    method DiscFrom(h: uint16, root: D.Request, cb: bool, rc: Status) returns (r: Status)
      requires Valid()
      modifies this`args, this`dscPool, this`chrPool, this`svcPool, allPeers, allSvcs, allChrs, allDscs
      ensures Valid()
      ensures (r, Table()) == T.PeerDiscover(old(Table()), h, root, cb, rc)
      ensures args == match T.IndexOfPeer(old(Models()), h)
                case None => old(args)
                case Some(i) => if rc.Ok? then old(args)[h := old(peerSeq)[i]] else old(args)
    {
      hide Valid, ValidTable, OkPeer, Distinct, Within, D.Discover, Models, PeerRec.Model, T.IndexOfPeer,
           T.PeerDiscover;
      TableFacts();
      var p := PeerFind(h);
      if p == null {
        DiscoverIs(Table(), h, root, cb, rc);
        return ENotConn;
      }
      PeerFacts(p);
      DiscoverIs(Table(), h, root, cb, rc);
      RestartAt(p, T.IndexOfPeer(Models(), h).value, root, cb, rc);
      return rc;
    }

    method DiscAll(h: uint16, cb: bool, rc: Status) returns (r: Status)
      requires Valid()
      modifies this`args, this`dscPool, this`chrPool, this`svcPool, allPeers, allSvcs, allChrs, allDscs
      ensures Valid()
      ensures (r, Table()) == T.PeerDiscover(old(Table()), h, D.AllSvcs, cb, rc)
      ensures args == match T.IndexOfPeer(old(Models()), h)
                case None => old(args)
                case Some(i) => if rc.Ok? then old(args)[h := old(peerSeq)[i]] else old(args)
    {
      hide Valid, Models, D.Discover;
      r := DiscFrom(h, D.AllSvcs, cb, rc);
    }

    method DiscSvcByUuid(h: uint16, uuid: Uuid, cb: bool, rc: Status) returns (r: Status)
      requires Valid()
      modifies this`args, this`dscPool, this`chrPool, this`svcPool, allPeers, allSvcs, allChrs, allDscs
      ensures Valid()
      ensures (r, Table()) == T.PeerDiscover(old(Table()), h, D.SvcsByUuid(uuid), cb, rc)
      ensures args == match T.IndexOfPeer(old(Models()), h)
                case None => old(args)
                case Some(i) => if rc.Ok? then old(args)[h := old(peerSeq)[i]] else old(args)
    {
      hide Valid, Models, D.Discover;
      r := DiscFrom(h, D.SvcsByUuid(uuid), cb, rc);
    }

    /** The callback the stack runs for `req` with its registered argument, the `i`-th peer, and the
        handle of the connection: no other peer is touched. */
    method Callback(p: PeerRec, ghost i: nat, connHandle: uint16, req: D.Request, e: R.Event, rc: Status)
      returns (r: Status)
      requires Valid() && i < |peerSeq| && p == peerSeq[i] && R.Fits(req, e) && p.connHandle == connHandle
      requires req.ChrsIn? && e.status.Ok? ==> p.cur.Some?
      modifies this`args, this`dscPool, this`chrPool, this`svcPool, p, allSvcs, allChrs, allDscs
      ensures Valid()
      ensures r == R.Callback(old(p.Model()), old(Free()), req, e, rc).rc
      ensures Table() == T.PeerCallback(old(Table()), i, req, e, rc)
      ensures args == Registered(old(args), p, old(p.Model()), p.Model())
    {
      hide Valid, ValidTable, OkPeer, Distinct, Within, Models, D.SvcDisced, D.ChrDisced, D.DscDisced, Registered;
      TableFacts();
      match req {
        case ChrsIn(_, _) =>
          r := ChrDisced(p, connHandle, e.status, if e.status.Ok? then Some(e.item.value.chr) else None, rc);
        case DscsIn(val, _) =>
          r := DscDisced(p, connHandle, e.status, val, if e.status.Ok? then Some(e.item.value.dsc) else None, rc);
        case _ =>
          r := SvcDisced(p, connHandle, e.status, if e.status.Ok? then Some(e.item.value.svc) else None, rc);
      }
      OneChanged(i);
    }
  }
}
