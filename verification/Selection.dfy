/** Which procedure is started next, for any tree, said on its handles alone: the functions of
    `Discovery` against a second definition that shares none of their parts. */
module Selection {
  import opened Gatt
  import opened Discovery
  import opened Snapshots

  // ----- the descriptor searches of `Discovery`, by cases

  lemma {:induction false} DiscDscsAt(m: Peer, rc: Status, pos: Pos)
    requires InTree(m.svcs, pos) && Wanted(m.svcs, pos, m.cursor)
    requires forall q :: InTree(m.svcs, q) && Before(q, pos) ==> !Wanted(m.svcs, q, m.cursor)
    ensures var val := At(m.svcs, pos).decl.val;
      var m1 := Start(m, DscsIn(val, EndAt(m.svcs, pos)), rc);
      DiscDscs(m, rc) == (if rc.Ok? then m1 else Complete(m1, rc)).(cursor := val)
  {
    var ps := Positions(m.svcs);
    var n := IndexOf(m.svcs, pos);
    PositionsSorted(m.svcs, |m.svcs|);
    ScanIs(m.svcs, ps, m.cursor, n);
  }

  lemma {:induction false} DiscDscsNone(m: Peer, rc: Status)
    requires forall q :: InTree(m.svcs, q) ==> !Wanted(m.svcs, q, m.cursor)
    ensures DiscDscs(m, rc) == Complete(m, Ok)
  {
  }

  // ----- the same on handles

  /** The last handle of characteristic `j`: one below the next declaration in 16-bit arithmetic, or
      the end of the service. */
  function LastHandle(s: Svc, j: nat): int
    requires j < |s.chrs|
  {
    if j + 1 < |s.chrs| then (s.chrs[j + 1].decl.def + 0xFFFF) % 0x1_0000 else s.decl.end
  }

  /** Service `i` has handles besides its own and no characteristic yet. */
  predicate Unread(svcs: seq<Svc>, i: nat)
    requires i < |svcs|
  {
    svcs[i].decl.start < svcs[i].decl.end && svcs[i].chrs == []
  }

  /** Characteristic `j` of service `i` has handles after its value, has no descriptor yet, and is not
      declared before the cursor. */
  predicate Undescribed(svcs: seq<Svc>, cursor: uint16, i: nat, j: nat)
    requires i < |svcs| && j < |svcs[i].chrs|
  {
    var c := svcs[i].chrs[j];
    c.decl.val < LastHandle(svcs[i], j) && c.dscs == [] && c.decl.def >= cursor
  }

  function Report(p: Peer, status: Status): seq<Obs> {
    if p.cb then [Reported(status)] else []
  }

  lemma {:induction false} WantedIff(svcs: seq<Svc>, pos: Pos, cursor: uint16)
    requires InTree(svcs, pos)
    ensures EndAt(svcs, pos) == LastHandle(svcs[pos.i], pos.j)
    ensures Wanted(svcs, pos, cursor) <==> Undescribed(svcs, cursor, pos.i, pos.j)
  {
  }

  /** The first service in the list that is unread has its characteristics asked for. */
  lemma {:induction false} AsksForChrs(p: Peer, rc: Status, i: nat)
    requires i < |p.svcs| && Unread(p.svcs, i) && forall a :: 0 <= a < i ==> !Unread(p.svcs, a)
    ensures var g := p.svcs[i].decl;
      DiscChrs(p, rc) == Peer(p.conn, p.svcs, if rc.Ok? then p.cursor else 0, Some(g.start), p.cb,
                              p.trace + [Started(ChrsIn(g.start, g.end), rc)] + if rc.Ok? then [] else Report(p, rc))
  {
    assert forall a :: 0 <= a < |p.svcs| ==> (Open(p.svcs[a]) <==> Unread(p.svcs, a));
    FirstOpenIs(p.svcs, i);
  }

  /** The descriptor phase begins when no service is unread. */
  lemma {:induction false} ThenForDscs(p: Peer, rc: Status)
    requires forall i :: 0 <= i < |p.svcs| ==> !Unread(p.svcs, i)
    ensures DiscChrs(p, rc) == DiscDscs(p, rc)
  {
    assert forall a :: 0 <= a < |p.svcs| ==> (Open(p.svcs[a]) <==> Unread(p.svcs, a));
    FirstOpenIs(p.svcs, |p.svcs|);
  }

  /** The first characteristic in the tree that is undescribed has its descriptors asked for, and its
      value handle becomes the cursor whatever the stack answers. */
  lemma {:induction false} AsksForDscs(p: Peer, rc: Status, i: nat, j: nat)
    requires i < |p.svcs| && j < |p.svcs[i].chrs| && Undescribed(p.svcs, p.cursor, i, j)
    requires forall a, b :: 0 <= a < |p.svcs| && 0 <= b < |p.svcs[a].chrs| && (a < i || (a == i && b < j)) ==>
               !Undescribed(p.svcs, p.cursor, a, b)
    ensures var s := p.svcs[i];
      var val := s.chrs[j].decl.val;
      DiscDscs(p, rc) == Peer(p.conn, p.svcs, val, p.cur, p.cb,
                              p.trace + [Started(DscsIn(val, LastHandle(s, j)), rc)]
                              + if rc.Ok? then [] else Report(p, rc))
  {
    hide Wanted, Undescribed, LastHandle, EndAt, DiscDscs;
    forall q | InTree(p.svcs, q) && Before(q, Pos(i, j)) ensures !Wanted(p.svcs, q, p.cursor) {
      WantedIff(p.svcs, q, p.cursor);
    }
    WantedIff(p.svcs, Pos(i, j), p.cursor);
    DiscDscsAt(p, rc, Pos(i, j));
  }

  /** Discovery ends with success when no characteristic is undescribed. */
  lemma {:induction false} ThenReports(p: Peer, rc: Status)
    requires forall i, j :: 0 <= i < |p.svcs| && 0 <= j < |p.svcs[i].chrs| ==> !Undescribed(p.svcs, p.cursor, i, j)
    ensures DiscDscs(p, rc) == Peer(p.conn, p.svcs, 0, p.cur, p.cb, p.trace + Report(p, Ok))
  {
    hide Wanted, Undescribed, DiscDscs;
    forall q | InTree(p.svcs, q) ensures !Wanted(p.svcs, q, p.cursor) {
      WantedIff(p.svcs, q, p.cursor);
    }
    DiscDscsNone(p, rc);
  }
}
