/** What transactions see: versions agree, views are repeatable in spite of
    commits and garbage collection, and aborted writes leave no trace. */
module MvtoVisibility {
  import opened Wrappers
  import opened Mvto
  import opened MvtoInvariant
  import opened MvtoSteps
  import opened MvtoRuns

  // --------------------------------------------------------- views of a record

  /** The content that a scan of the version list yields. */
  function View(vs: seq<Version>, xid: Xid): Option<Content> {
    if vs == [] then None
    else if !Readable(vs[0], xid) then View(vs[1..], xid)
    else if ValidFor(vs[0].bts, vs[0].cts, xid) then Some(vs[0].content)
    else if vs[0].lock == xid && vs[0].bts == vs[0].cts then None
    else View(vs[1..], xid)
  }

  lemma FindValidIsView(vs: seq<Version>, xid: Xid, k: nat, abort: bool)
    requires k <= |vs|
    ensures var f := FindValid(vs, xid, k, abort);
            View(vs[k..], xid) == if f.Dirty? then Some(vs[f.k].content) else None
    decreases |vs| - k
  {
    if k < |vs| {
      assert vs[k..][0] == vs[k] && vs[k..][1..] == vs[k + 1..];
      FindValidIsView(vs, xid, k + 1, abort);
      FindValidIsView(vs, xid, k + 1, true);
    }
  }

  lemma DescribeIsView(r: Record, xid: Xid)
    ensures Describe(r, xid) ==
            if r.lock == 0 && ValidFor(r.bts, r.cts, xid) && (r.dirty == [] || r.cts == INF) then Some(r.content)
            else View(r.dirty, xid)
  {
    FindValidIsView(r.dirty, xid, 0, false);
    assert r.dirty[0..] == r.dirty;
  }

  /** What transaction a sees of object o. */
  function Sees(s: Db, o: Oid, a: Xid): Option<Content> {
    if Present(s, o) then Describe(s.cells[o].rec.value, a) else None
  }

  // ------------------------------------------------------ the version invariant

  /** v is an unlocked version of r; the main record counts while it is neither
      locked nor deleted. */
  ghost predicate Unlocked(r: Record, v: Version) {
    && v.lock == 0
    && (v in r.dirty || (r.lock == 0 && r.cts == INF && v == Version(0, r.bts, r.cts, r.rts, r.content, true)))
  }

  /** In every reachable state, all unlocked versions of an object whose interval
      contains a given id come from the same committed writer and carry the same
      content, including copies left behind by aborted writers. */
  lemma UnlockedVersionsAgree(s: Db, o: Oid, u: Version, v: Version, i: Xid)
    requires Inv(s) && Present(s, o)
    requires Unlocked(s.cells[o].rec.value, u) && Unlocked(s.cells[o].rec.value, v)
    requires ValidFor(u.bts, u.cts, i) && ValidFor(v.bts, v.cts, i)
    ensures u.bts == v.bts && u.content == v.content && Committed(s.txs, u.bts)
  {
    Clauses(s);
    var c := s.cells[o];
    UnlockedIsHistory(s.txs, c, u);
    UnlockedIsHistory(s.txs, c, v);
  }

  lemma UnlockedIsHistory(txs: map<Xid, Tx>, c: Cell, v: Version)
    requires CellInv(txs, c) && c.rec.Some? && Unlocked(c.rec.value, v)
    ensures v.bts in c.writes && Committed(txs, v.bts) && c.writes[v.bts] == Some(v.content)
    ensures forall w :: w in c.writes && Committed(txs, w) ==> w <= v.bts || v.cts <= w
  {
    CellClauses(txs, c);
    var r := c.rec.value;
    assert forall w :: w in c.writes ==> WriterOk(txs, c, w);
    if v in r.dirty {
      if Writing(txs, c.writes, r, c.snap) {
        assert v != r.dirty[0];
        assert v in r.dirty[1..];
      }
      assert OldOk(txs, c.writes, r.rts, v);
    }
  }

  /** In every reachable state, a fetch by anyone but the lock owner never refers
      to the locked main record or to the owner's uncommitted version. */
  lemma UncommittedIsPrivate(s: Db, o: Oid, i: Xid)
    requires Inv(s) && Present(s, o) && i != 0
    requires s.cells[o].rec.value.lock != 0 && s.cells[o].rec.value.lock != i
    ensures var r := s.cells[o].rec.value;
            var f := NodeById(r, i);
            !f.Main? && (f.Dirty? ==> f.k > 0 && r.dirty[f.k].lock == 0 && Committed(s.txs, r.dirty[f.k].bts))
  {
    CellOf(s, o);
    CellClauses(s.txs, s.cells[o]);
    var c := s.cells[o];
    var r := c.rec.value;
    var f := NodeById(r, i);
    if f.Dirty? {
      assert Writing(s.txs, c.writes, r, c.snap);
      assert r.dirty[f.k] in r.dirty[1..] by { assert r.dirty[f.k] == r.dirty[1..][f.k - 1]; }
      assert OldOk(s.txs, c.writes, r.rts, r.dirty[f.k]);
    }
  }

  /** In every reachable state, a lock owner reads its own latest write, and
      nothing if that was a delete. */
  lemma OwnerReadsOwnWrite(s: Db, o: Oid, t: Xid)
    requires Inv(s) && Present(s, o) && t in s.txs && s.cells[o].rec.value.lock == t
    ensures t in s.cells[o].writes && Sees(s, o, t) == s.cells[o].writes[t]
  {
    assert Meets(IdsClause, s);
    CellOf(s, o);
    CellClauses(s.txs, s.cells[o]);
    var r := s.cells[o].rec.value;
    DescribeIsView(r, t);
  }

  // ------------------------------------------------------------ repeatable reads

  lemma GcKeepsView(vs: seq<Version>, oldest: nat, a: Xid)
    requires oldest <= a && forall v :: v in vs ==> v.lock != a
    ensures View(Gc(vs, oldest), a) == View(vs, a)
  {
    if vs != [] {
      GcKeepsView(vs[1..], oldest, a);
      var g := Gc(vs[1..], oldest);
      if vs[0].cts > oldest {
        assert ([vs[0]] + g)[0] == vs[0] && ([vs[0]] + g)[1..] == g;
      }
    }
  }

  lemma RemoveDirtyOwn(vs: seq<Version>, t: Xid)
    requires forall v :: v in vs ==> v.lock != t
    ensures RemoveDirty(vs, t) == vs
  {
    if vs != [] {
      RemoveDirtyOwn(vs[1..], t);
      assert vs == [vs[0]] + vs[1..];
    }
  }

  /** The record after t's abort: the old copy stays, and so does the marker of
      an aborted delete. */
  lemma AbortShape(txs: map<Xid, Tx>, c: Cell, t: Xid)
    requires CellInv(txs, c) && c.rec.Some? && t != 0 && c.rec.value.lock == t
    ensures Fresh(txs, c.writes, c.rec.value) ==> AbortRecord(c.rec.value, t) == None
    ensures Writing(txs, c.writes, c.rec.value, c.snap) ==>
              var r := c.rec.value;
              AbortRecord(r, t) == Some(r.(lock := 0, dirty := if r.dirty[0].cts == INF then r.dirty[1..] else r.dirty))
  {
    CellClauses(txs, c);
    var r := c.rec.value;
    assert r.dirty[0].lock == t && DirtyVersionOf(r.dirty, t, 0) == 0;
    if Writing(txs, c.writes, r, c.snap) {
      RemoveDirtyOwn(r.dirty[1..], t);
      assert r.dirty == [r.dirty[0]] + r.dirty[1..];
    }
  }

  /** An aborted write is invisible: for every other id, the record reads as it
      did before the first write, and an aborted insert is gone. */
  lemma AbortRestores(s: Db, t: Xid, i: Xid)
    requires Inv(s) && Enabled(s, AbortObject(t)) && i != t && 0 < i < INF
    ensures var o := s.txs[t].todo[0];
            && LockedBy(s, o, t)
            && var c := s.cells[o];
            var c' := Apply(s, AbortObject(t)).cells[o];
            if Fresh(s.txs, c.writes, c.rec.value) then c'.rec == None
            else
              && c.snap.Some? && c'.rec.Some? && c'.rec.value.lock == 0
              && Describe(c'.rec.value, i) == Describe(c.snap.value, i)
  {
    Clauses(s);
    HeadLocked(s, t);
    CellClauses(s.txs, s.cells[s.txs[t].todo[0]]);
    var c := s.cells[s.txs[t].todo[0]];
    var r := c.rec.value;
    AbortShape(s.txs, c, t);
    if Writing(s.txs, c.writes, r, c.snap) {
      var r' := AbortRecord(r, t).value;
      DescribeIsView(r', i);
      DescribeIsView(c.snap.value, i);
      assert r.dirty[1..][1..] == c.snap.value.dirty;
    }
  }

  /** An object written by t differs from its snapshot only in ways that other
      ids below t cannot see: the same content is found in the old copy. */
  lemma FirstWriteKeepsView(r: Record, t: Xid, content: Content, deleted: bool, a: Xid)
    requires r.lock == 0 && r.cts == INF && 0 < a < t < INF
    requires Describe(r, a).Some?
    ensures Describe(PushCopies(r, t, content, deleted), a) == Describe(r, a)
  {
    var r' := PushCopies(r, t, content, deleted);
    DescribeIsView(r, a);
    DescribeIsView(r', a);
    assert r'.dirty[1..][1..] == r.dirty;
  }

  /** Commit with its garbage collection keeps what older transactions see. */
  lemma CommitKeepsView(txs: map<Xid, Tx>, c: Cell, t: Xid, oldest: nat, a: Xid)
    requires CellInv(txs, c) && c.rec.Some? && c.rec.value.lock == t && 0 < t < INF
    requires t in txs && txs[t].phase.Committing? && IsActive(txs, a) && oldest <= a && 0 < a < t
    requires Describe(c.rec.value, a).Some?
    ensures CommitRecord(c.rec.value, t, oldest).Some?
    ensures Describe(CommitRecord(c.rec.value, t, oldest).value, a) == Describe(c.rec.value, a)
  {
    CellClauses(txs, c);
    var r := c.rec.value;
    var rest := r.dirty[1..];
    DescribeIsView(r, a);
    assert Writing(txs, c.writes, r, c.snap);
    NoneOwned(txs, c, a);
    GcKeepsView(rest, oldest, a);
    assert rest[0] in rest;
    assert [rest[0].(lock := 0)] + rest[1..] == rest;
    DescribeIsView(CommitRecord(r, t, oldest).value, a);
  }

  lemma VacuumKeepsView(txs: map<Xid, Tx>, c: Cell, oldest: nat, a: Xid)
    requires CellInv(txs, c) && c.rec.Some? && c.rec.value.lock == 0 && c.rec.value.cts != INF
    requires IsActive(txs, a) && a != 0 && forall x :: IsActive(txs, x) ==> oldest <= x && x != 0
    ensures var c' := VacuumCell(c, oldest);
            (if c'.rec.Some? then Describe(c'.rec.value, a) else None) == Describe(c.rec.value, a)
  {
    CellClauses(txs, c);
    var r := c.rec.value;
    VacuumKeeps(txs, c, oldest);
    NoneOwned(txs, c, a);
    GcKeepsView(r.dirty, oldest, a);
    DescribeIsView(r, a);
    assert r.dirty == [] ==> Covered(txs, r);
    DescribeIsView(r.(dirty := Gc(r.dirty, oldest)), a);
  }

  lemma VacuumItemIsInvisible(s: Db, k: nat, s': Db, o: Oid, a: Xid)
    requires Inv(s) && k < |s.garbage| && IsActive(s.txs, a) && Present(s, s.garbage[k])
    requires s'.cells == s.cells[s.garbage[k] := VacuumCell(s.cells[s.garbage[k]], s.oldest)]
    ensures Sees(s', o, a) == Sees(s, o, a)
  {
    Clauses(s);
    var p := s.garbage[k];
    assert p in s.garbage && LockedBy(s, p, 0);
    assert forall x :: IsActive(s.txs, x) ==> x in s.active;
    VacuumKeepsView(s.txs, s.cells[p], s.oldest, a);
  }

  /** Vacuum changes nothing that an active transaction can see; in particular a
      record is physically removed only when no active transaction sees it. */
  lemma VacuumIsInvisible(s: Db, k: nat, o: Oid, a: Xid)
    requires Inv(s) && k <= |s.garbage| && IsActive(s.txs, a)
    ensures Sees(VacuumFrom(s, k), o, a) == Sees(s, o, a)
    decreases |s.garbage| - k
  {
    if k < |s.garbage| {
      VacuumItemKeeps(s, k);
      var p := s.garbage[k];
      var c := VacuumCell(s.cells[p], s.oldest);
      var g := if c.rec.None? then s.garbage[..k] + s.garbage[k + 1..] else s.garbage;
      var s' := s.(cells := s.cells[p := c], garbage := g);
      VacuumItemIsInvisible(s, k, s', o, a);
      VacuumIsInvisible(s', if c.rec.None? then k else k + 1, o, a);
    }
  }

  /** No lock of a transaction outlives its commit or abort. */
  lemma FinishedHoldsNoLock(s: Db, t: Xid, o: Oid)
    requires Inv(s) && t in s.txs && s.txs[t].todo == [] && Present(s, o)
    ensures s.cells[o].rec.value.lock != t
  {
    Clauses(s);
  }

  /** Every active reader still sees what it read, unless it has written the
      object itself meanwhile. */
  ghost predicate CellView(txs: map<Xid, Tx>, c: Cell) {
    forall rd :: rd in c.seen && IsActive(txs, rd.xid) && !(c.rec.Some? && c.rec.value.lock == rd.xid) ==>
                   c.rec.Some? && Describe(c.rec.value, rd.xid) == Some(rd.content)
  }

  ghost predicate ViewInv(s: Db) {
    forall o :: o in s.cells ==> CellView(s.txs, s.cells[o])
  }

  lemma FetchKeepsViews(txs: map<Xid, Tx>, c: Cell, t: Xid)
    requires CellView(txs, c) && c.rec.Some?
    ensures CellView(txs, FetchCell(c, t))
  {
    var c' := FetchCell(c, t);
    forall rd | rd in c'.seen && IsActive(txs, rd.xid) && c'.rec.value.lock != rd.xid
      ensures Describe(c'.rec.value, rd.xid) == Some(rd.content)
    {
      DescribeIsView(c.rec.value, rd.xid);
      DescribeIsView(c'.rec.value, rd.xid);
    }
  }

  lemma UpdateKeepsViews(txs: map<Xid, Tx>, c: Cell, f: Fetch, t: Xid, ch: Change)
    requires CellInv(txs, c) && CellView(txs, c) && IsActive(txs, t) && 0 < t < INF && HasReference(c, f, t)
    ensures CellView(txs, UpdateCell(c, f, t, ch))
  {
    CellClauses(txs, c);
    var c' := UpdateCell(c, f, t, ch);
    UpdateKeeps(txs, c, f, t, ch);
    if c' != c {
      forall rd | rd in c'.seen && IsActive(txs, rd.xid) && c'.rec.value.lock != rd.xid
        ensures Describe(c'.rec.value, rd.xid) == Some(rd.content)
      {
        assert ReadOk(txs, c, rd);
        if c.rec.value.lock == t {
          NextWriteKeepsView(txs, c, f, t, ch, rd.xid);
        } else {
          FirstWriteReference(txs, c, f, t);
          FirstWriteKeepsView(c.rec.value, t, Updated(c.rec.value.content, ch), false, rd.xid);
        }
      }
    }
  }

  lemma DeleteKeepsViews(txs: map<Xid, Tx>, c: Cell, f: Fetch, t: Xid)
    requires CellInv(txs, c) && CellView(txs, c) && IsActive(txs, t) && 0 < t < INF
    requires HasReference(c, f, t) && f == NodeById(c.rec.value, t) && c.rec.value.lock != t
    ensures CellView(txs, DeleteCell(c, f, t))
  {
    CellClauses(txs, c);
    var c' := DeleteCell(c, f, t);
    DeleteKeeps(txs, c, f, t);
    if c' != c {
      forall rd | rd in c'.seen && IsActive(txs, rd.xid) && c'.rec.value.lock != rd.xid
        ensures Describe(c'.rec.value, rd.xid) == Some(rd.content)
      {
        assert ReadOk(txs, c, rd);
        FirstWriteReference(txs, c, f, t);
        FirstWriteKeepsView(c.rec.value, t, c.rec.value.content, true, rd.xid);
      }
    }
  }

  lemma NextWriteKeepsView(txs: map<Xid, Tx>, c: Cell, f: Fetch, t: Xid, ch: Change, a: Xid)
    requires CellInv(txs, c) && IsActive(txs, t) && 0 < t < INF && HasReference(c, f, t)
    requires c.rec.value.lock == t && a != t && UpdateVia(c.rec.value, f, t, ch).Some?
    ensures var r' := UpdateVia(c.rec.value, f, t, ch).value;
            r'.lock == t && Describe(r', a) == Describe(c.rec.value, a)
  {
    CellClauses(txs, c);
    var r := c.rec.value;
    assert r.dirty[0].lock == t && DirtyVersionOf(r.dirty, t, 0) == 0;
    if f.Dirty? {
      assert f.k == 0 && r.dirty[0 := r.dirty[0].(lock := t)] == r.dirty;
    }
    var r' := UpdateVia(r, f, t, ch).value;
    assert r'.dirty[1..] == r.dirty[1..];
    DescribeIsView(r, a);
    DescribeIsView(r', a);
  }

  /** A first write goes through the main record, which is settled, not deleted
      and was last fetched by the writer. */
  lemma FirstWriteReference(txs: map<Xid, Tx>, c: Cell, f: Fetch, t: Xid)
    requires CellInv(txs, c) && IsActive(txs, t) && 0 < t < INF && HasReference(c, f, t)
    requires c.rec.value.lock != t
    requires UpdateVia(c.rec.value, f, t, Change(0, map[])).Some? || DeleteVia(c.rec.value, f, t).Some?
    ensures f.Main? && c.rec.value.lock == 0 && c.rec.value.cts == INF && c.rec.value.rts == t
    ensures DirtyVersionOf(c.rec.value.dirty, t, 0) == |c.rec.value.dirty|
  {
    CellClauses(txs, c);
    var r := c.rec.value;
    if f.Dirty? {
      StaleReferenceThrows(txs, c, t, Change(0, map[]));
    }
    NoneOwned(txs, c, t);
    assert r.rts == t && r.bts <= t < r.cts by {
      if t in c.held { assert HeldOk(c, t); }
    }
    assert Settled(txs, c.writes, r);
  }

  // ---------------------------------------------------------- the run theorems

  lemma PhaseKeepsViews(txs: map<Xid, Tx>, txs': map<Xid, Tx>, c: Cell)
    requires CellInv(txs, c) && CellView(txs, c)
    requires forall t :: t in txs && IsActive(txs', t) ==> IsActive(txs, t)
    ensures CellView(txs', c)
  {
    CellClauses(txs, c);
    assert forall rd :: rd in c.seen ==> ReadOk(txs, c, rd);
  }

  lemma CommitKeepsViews(txs: map<Xid, Tx>, c: Cell, t: Xid, oldest: nat)
    requires CellInv(txs, c) && CellView(txs, c) && c.rec.Some? && c.rec.value.lock == t && 0 < t < INF
    requires t in txs && txs[t].phase.Committing? && forall a :: IsActive(txs, a) ==> oldest <= a
    ensures CellView(txs, c.(rec := CommitRecord(c.rec.value, t, oldest)))
  {
    CellClauses(txs, c);
    forall rd | rd in c.seen && IsActive(txs, rd.xid)
      ensures CommitRecord(c.rec.value, t, oldest).Some?
      ensures Describe(CommitRecord(c.rec.value, t, oldest).value, rd.xid) == Some(rd.content)
    {
      assert ReadOk(txs, c, rd);
      CommitKeepsView(txs, c, t, oldest, rd.xid);
    }
  }

  lemma AbortKeepsViews(txs: map<Xid, Tx>, c: Cell, t: Xid)
    requires CellInv(txs, c) && CellView(txs, c) && c.rec.Some? && c.rec.value.lock == t && 0 < t < INF
    requires t in txs && txs[t].phase.Aborting?
    ensures CellView(txs, c.(rec := AbortRecord(c.rec.value, t)))
  {
    CellClauses(txs, c);
    var r := c.rec.value;
    forall rd | rd in c.seen && IsActive(txs, rd.xid)
      ensures AbortRecord(r, t).Some? && Describe(AbortRecord(r, t).value, rd.xid) == Some(rd.content)
    {
      assert ReadOk(txs, c, rd);
      AbortShape(txs, c, t);
      DescribeIsView(r, rd.xid);
      DescribeIsView(AbortRecord(r, t).value, rd.xid);
    }
  }

  lemma VacuumKeepsViews(s: Db, k: nat)
    requires Inv(s) && ViewInv(s) && k <= |s.garbage|
    ensures ViewInv(VacuumFrom(s, k)) && VacuumFrom(s, k).txs == s.txs
    decreases |s.garbage| - k
  {
    if k < |s.garbage| {
      VacuumItemKeeps(s, k);
      var p := s.garbage[k];
      var c := VacuumCell(s.cells[p], s.oldest);
      var g := if c.rec.None? then s.garbage[..k] + s.garbage[k + 1..] else s.garbage;
      VacuumItemKeepsViews(s, k);
      VacuumKeepsViews(s.(cells := s.cells[p := c], garbage := g), if c.rec.None? then k else k + 1);
    }
  }

  lemma VacuumItemKeepsViews(s: Db, k: nat)
    requires Inv(s) && ViewInv(s) && k < |s.garbage| && Present(s, s.garbage[k])
    ensures CellView(s.txs, VacuumCell(s.cells[s.garbage[k]], s.oldest))
  {
    Clauses(s);
    var p := s.garbage[k];
    assert p in s.garbage && LockedBy(s, p, 0);
    var c := s.cells[p];
    assert CellView(s.txs, c);
    assert forall x :: IsActive(s.txs, x) ==> x in s.active;
    forall rd | rd in c.seen && IsActive(s.txs, rd.xid)
      ensures VacuumCell(c, s.oldest).rec.Some? && Describe(VacuumCell(c, s.oldest).rec.value, rd.xid) == Some(rd.content)
    {
      VacuumKeepsView(s.txs, c, s.oldest, rd.xid);
    }
  }

  /** The cell that a call of a transaction stores. */
  lemma CallKeepsViews(s: Db, e: Event)
    requires Inv(s) && ViewInv(s) && Enabled(s, e)
    requires e.UpdateFetched? || e.UpdateHeld? || e.Delete? || e.Insert? || e.ReadNode?
    ensures CellView(s.txs, Apply(s, e).cells[e.o])
  {
    Clauses(s);
    if !e.Insert? {
      var c0 := s.cells[e.o];
      FetchKeeps(s.txs, c0, e.t);
      FetchKeepsViews(s.txs, c0, e.t);
      var c := FetchCell(c0, e.t);
      match e
      case UpdateFetched(t, o, ch) => UpdateKeepsViews(s.txs, c, NodeById(c.rec.value, t), t, ch);
      case UpdateHeld(t, o, ch) => UpdateKeepsViews(s.txs, c0, Main, t, ch);
      case Delete(t, o, _) => DeleteKeepsViews(s.txs, c, NodeById(c.rec.value, t), t);
      case _ =>
    }
  }

  lemma FinishKeepsViews(s: Db, e: Event)
    requires Inv(s) && ViewInv(s) && Enabled(s, e) && (e.CommitObject? || e.AbortObject?)
    ensures s.txs[e.t].todo[0] in Apply(s, e).cells
    ensures CellView(s.txs, Apply(s, e).cells[s.txs[e.t].todo[0]])
  {
    Clauses(s);
    HeadLocked(s, e.t);
    var o := s.txs[e.t].todo[0];
    assert forall x :: IsActive(s.txs, x) ==> x in s.active;
    if e.CommitObject? {
      CommitKeeps(s.txs, s.cells[o], e.t, s.oldest);
      CommitKeepsViews(s.txs, s.cells[o], e.t, s.oldest);
    } else {
      AbortKeepsViews(s.txs, s.cells[o], e.t);
    }
  }

  /** A step that changes only cell o, and starts no transaction. */
  lemma OneCellKeepsViews(s: Db, s': Db, o: Oid)
    requires ViewInv(s) && o in s'.cells && CellView(s.txs, s'.cells[o])
    requires forall t :: IsActive(s'.txs, t) ==> IsActive(s.txs, t)
    requires forall q :: q in s'.cells && q != o ==> q in s.cells && s'.cells[q] == s.cells[q]
    ensures ViewInv(s')
  {
    forall q | q in s'.cells ensures CellView(s'.txs, s'.cells[q]) {
      assert q != o ==> CellView(s.txs, s.cells[q]);
    }
  }

  /** A step that changes only the phase of one transaction, or starts one. */
  lemma PhaseStepKeepsViews(s: Db, e: Event)
    requires Inv(s) && ViewInv(s) && Enabled(s, e) && (e.Begin? || e.StartCommit? || e.StartAbort?)
    ensures ViewInv(Apply(s, e))
  {
    Clauses(s);
    forall o | o in s.cells ensures CellView(Apply(s, e).txs, s.cells[o]) {
      PhaseKeepsViews(s.txs, Apply(s, e).txs, s.cells[o]);
    }
  }

  lemma StepKeepsViews(s: Db, e: Event)
    requires Inv(s) && ViewInv(s) && Enabled(s, e)
    ensures ViewInv(Apply(s, e))
  {
    if e.Vacuum? {
      VacuumKeepsViews(s, 0);
    } else if e.Begin? || e.StartCommit? || e.StartAbort? {
      PhaseStepKeepsViews(s, e);
    } else if e.CommitObject? || e.AbortObject? {
      HeadLocked(s, e.t);
      FinishKeepsViews(s, e);
      OneCellKeepsViews(s, Apply(s, e), s.txs[e.t].todo[0]);
    } else {
      CallKeepsViews(s, e);
      OneCellKeepsViews(s, Apply(s, e), e.o);
    }
  }

  lemma {:induction false} RunKeepsViews(s: Db, es: seq<Event>)
    requires Inv(s) && ViewInv(s) && CanRun(s, es)
    ensures Inv(Run(s, es)) && ViewInv(Run(s, es))
    decreases |es|
  {
    if es != [] {
      StepKeepsInv(s, es[0]);
      StepKeepsViews(s, es[0]);
      RunKeepsViews(Apply(s, es[0]), es[1..]);
    }
  }

  /** Repeatable reads in every run: whatever an active transaction has read of an
      object it has not written, it can read again, with the same content, in
      spite of every later commit, abort, garbage collection and vacuum. */
  lemma ReadsAreRepeatable(s0: Db, es: seq<Event>, o: Oid, rd: Read)
    requires Init(s0) && CanRun(s0, es)
    requires o in Run(s0, es).cells && rd in Run(s0, es).cells[o].seen && IsActive(Run(s0, es).txs, rd.xid)
    requires !LockedBy(Run(s0, es), o, rd.xid)
    ensures Sees(Run(s0, es), o, rd.xid) == Some(rd.content)
  {
    InitInv(s0);
    RunKeepsViews(s0, es);
    assert CellView(Run(s0, es).txs, Run(s0, es).cells[o]);
  }
}
