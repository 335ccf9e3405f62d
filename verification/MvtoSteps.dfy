/** Every step of the database keeps the invariant. */
module MvtoSteps {
  import opened Wrappers
  import opened Mvto
  import opened MvtoInvariant

  // ------------------------------------------------------------------- reading

  /** In a well-formed record, a version that t reads but does not own was
      written by the largest committed writer up to t. */
  lemma OldVersionIsLatest(txs: map<Xid, Tx>, c: Cell, v: Version, t: Xid)
    requires c.rec.Some? && OldOk(txs, c.writes, c.rec.value.rts, v) && v.lock == 0
    requires ValidFor(v.bts, v.cts, t) && IsActive(txs, t) && t != 0
    ensures LatestBelow(txs, c.writes, t, v.bts) && c.writes[v.bts] == Some(v.content)
  {
  }

  /** The begin timestamp of the version that a fetch refers to. */
  function WriterOf(r: Record, f: Fetch): Xid
    requires f.Dirty? ==> f.k < |r.dirty|
  {
    if f.Main? then r.bts else if f.Dirty? then r.dirty[f.k].bts else 0
  }

  /** What an active transaction sees of an object it has not written is the
      content of the largest committed writer below it. */
  lemma VisibleIsLatest(txs: map<Xid, Tx>, c: Cell, t: Xid)
    requires c.rec.Some? && RecOk(txs, c, c.rec.value) && IsActive(txs, t) && t != 0
    requires c.rec.value.lock != t && Describe(c.rec.value, t).Some?
    ensures var r := c.rec.value;
            var f := NodeById(r, t);
            && Found(f)
            && LatestBelow(txs, c.writes, t, WriterOf(r, f))
            && c.writes[WriterOf(r, f)] == Describe(r, t)
            && (r.lock != 0 ==> t <= r.lock)
  {
    var r := c.rec.value;
    var f := NodeById(r, t);
    var g := FindValid(r.dirty, t, 0, false);
    if g.Dirty? {
      var v := r.dirty[g.k];
      assert v in r.dirty;
      if r.lock != 0 {
        if Writing(txs, c.writes, r, c.snap) {
          assert v in r.dirty[1..] by { assert g.k != 0; assert v == r.dirty[1..][g.k - 1]; }
        }
      }
      assert OldOk(txs, c.writes, r.rts, v);
      OldVersionIsLatest(txs, c, v, t);
    }
  }

  lemma SetRtsKeeps(txs: map<Xid, Tx>, c: Cell, t: Xid)
    requires CellInv(txs, c) && c.rec.Some?
    ensures CellInv(txs, c.(rec := Some(SetRts(c.rec.value, t))))
  {
    CellClauses(txs, c);
    var r := c.rec.value;
    var c' := c.(rec := Some(SetRts(r, t)));
    var r' := c'.rec.value;
    if Settled(txs, c.writes, r) {
      assert Settled(txs, c'.writes, r');
    } else if Writing(txs, c.writes, r, c.snap) {
      assert Writing(txs, c'.writes, r', c'.snap);
    }
    assert RecOk(txs, c', r');
    assert forall rd :: rd in c'.seen ==> ReadOk(txs, c, rd);
    assert forall u :: u in c'.held && IsActive(txs, u) ==> HeldOk(c, u);
    assert forall w :: w in c'.writes ==> WriterOk(txs, c, w);
  }

  lemma FetchKeeps(txs: map<Xid, Tx>, c: Cell, t: Xid)
    requires CellInv(txs, c) && c.rec.Some? && IsActive(txs, t) && 0 < t < INF
    ensures CellInv(txs, FetchCell(c, t))
  {
    var c1 := c.(rec := Some(SetRts(c.rec.value, t)));
    SetRtsKeeps(txs, c, t);
    FetchKeepsRecord(txs, c1, FetchCell(c, t), t);
    FetchKeepsSeen(txs, c1, FetchCell(c, t), t);
    FetchKeepsHeld(txs, c1, FetchCell(c, t), t);
    assert CellMeets(WritersClause, txs, c1);
    assert CellMeets(WritersClause, txs, FetchCell(c, t));
    CellInvBy(txs, FetchCell(c, t));
  }

  /** c2 is c1 after a fetch by t that has already raised the read timestamp. */
  ghost predicate Fetched(c1: Cell, c2: Cell, t: Xid) {
    && c1.rec.Some? && c1.rec.value.rts >= t && c2 == FetchCell(c1, t) && c2.rec == c1.rec
  }

  lemma FetchKeepsRecord(txs: map<Xid, Tx>, c1: Cell, c2: Cell, t: Xid)
    requires CellInv(txs, c1) && Fetched(c1, c2, t)
    ensures CellMeets(RecordClause, txs, c2)
  {
    assert CellMeets(RecordClause, txs, c1);
  }

  lemma FetchKeepsSeen(txs: map<Xid, Tx>, c1: Cell, c2: Cell, t: Xid)
    requires CellInv(txs, c1) && Fetched(c1, c2, t) && IsActive(txs, t) && 0 < t < INF
    ensures CellMeets(SeenClause, txs, c2)
  {
    assert CellMeets(RecordClause, txs, c1) && CellMeets(SeenClause, txs, c1);
    var r := c1.rec.value;
    if Describe(r, t).Some? && r.lock != t {
      VisibleIsLatest(txs, c1, t);
    }
    forall rd | rd in c2.seen ensures ReadOk(txs, c2, rd) {
      if rd in c1.seen {
        assert ReadOk(txs, c1, rd);
      }
    }
  }

  lemma FetchKeepsHeld(txs: map<Xid, Tx>, c1: Cell, c2: Cell, t: Xid)
    requires CellInv(txs, c1) && Fetched(c1, c2, t) && IsActive(txs, t) && 0 < t < INF
    ensures CellMeets(HeldClause, txs, c2)
  {
    assert CellMeets(HeldClause, txs, c1);
    forall u | u in c2.held ensures u in txs && (IsActive(txs, u) ==> HeldOk(c2, u)) {
      if u in c1.held && IsActive(txs, u) {
        assert HeldOk(c1, u);
      }
    }
  }

  // ------------------------------------------------------------------- writing

  /** A reference into the version list that is not the writer's own never
      passes the read-timestamp check: its read timestamp is at least the id
      that superseded it. */
  lemma StaleReferenceThrows(txs: map<Xid, Tx>, c: Cell, t: Xid, ch: Change)
    requires c.rec.Some? && RecOk(txs, c, c.rec.value) && IsActive(txs, t) && t != 0
    requires c.rec.value.lock != t && NodeById(c.rec.value, t).Dirty?
    ensures UpdateVia(c.rec.value, NodeById(c.rec.value, t), t, ch) == None
    ensures DeleteVia(c.rec.value, NodeById(c.rec.value, t), t) == None
  {
    var r := c.rec.value;
    var k := NodeById(r, t).k;
    var v := r.dirty[k];
    assert v in r.dirty;
    if Writing(txs, c.writes, r, c.snap) {
      assert v in r.dirty[1..] by { assert k != 0; assert v == r.dirty[1..][k - 1]; }
    }
    assert OldOk(txs, c.writes, r.rts, v);
  }

  /** t may write through f: it just fetched f, or it fetched the main record before. */
  ghost predicate HasReference(c: Cell, f: Fetch, t: Xid) {
    && c.rec.Some?
    && ((f == NodeById(c.rec.value, t) && t <= c.rec.value.rts) || (f == Main && t in c.held))
  }

  /** The first write of t on a settled object. */
  lemma FirstWriteRecord(txs: map<Xid, Tx>, writes: map<Xid, Option<Content>>, r: Record, t: Xid, content: Content, deleted: bool)
    requires Settled(txs, writes, r) && IsActive(txs, t) && 0 < t < INF && t !in writes
    requires r.cts == INF && r.rts == t && r.bts < t && forall w :: w in writes ==> w < INF
    ensures var w := if deleted then None else Some(content);
            Writing(txs, writes[t := w], PushCopies(r, t, content, deleted), Some(r))
  {
    var w := if deleted then None else Some(content);
    var writes' := writes[t := w];
    var r' := PushCopies(r, t, content, deleted);
    assert r'.dirty[2..] == r.dirty;
    assert r'.dirty[1..] == [r'.dirty[1]] + r.dirty;
    assert OldOk(txs, writes', r'.rts, r'.dirty[1]);
    forall v | v in r'.dirty[1..] ensures OldOk(txs, writes', r'.rts, v) && v.lock != t && (v.lock == 0 ==> v.cts <= t) {
      if v in r.dirty { assert OldOk(txs, writes, r.rts, v); }
    }
  }

  lemma FirstWriteKeeps(txs: map<Xid, Tx>, c: Cell, f: Fetch, t: Xid, content: Content, deleted: bool, op: Op)
    requires CellInv(txs, c) && IsActive(txs, t) && 0 < t < INF
    requires HasReference(c, f, t) && f == Main && c.rec.value.lock == 0 && MayWrite(0, c.rec.value.rts, t)
    ensures var r' := PushCopies(c.rec.value, t, content, deleted);
            CellInv(txs, WriteCell(c, r', t, if deleted then None else Some(content), op))
  {
    CellClauses(txs, c);
    var r := c.rec.value;
    assert r.rts == t && r.bts <= t < r.cts by {
      if t in c.held { assert HeldOk(c, t); }
    }
    assert Settled(txs, c.writes, r);
    assert forall x :: x in c.writes ==> WriterOk(txs, c, x);
    FirstWriteRecord(txs, c.writes, r, t, content, deleted);
    var c' := WriteCell(c, PushCopies(r, t, content, deleted), t, if deleted then None else Some(content), op);
    assert RecOk(txs, c', c'.rec.value);
    forall rd | rd in c'.seen ensures ReadOk(txs, c', rd) {
      assert ReadOk(txs, c, rd);
    }
    assert forall u :: u in c.held && IsActive(txs, u) ==> HeldOk(c, u);
  }

  /** The record and the value written when the lock owner writes again. */
  function Rewritten(r: Record, ch: Change): Record
    requires |r.dirty| > 0
  {
    r.(dirty := r.dirty[0 := r.dirty[0].(content := Updated(r.dirty[0].content, ch))])
  }

  function RewrittenValue(r: Record, ch: Change): Option<Content>
    requires |r.dirty| > 0
  {
    var v := r.dirty[0];
    if v.bts == v.cts then None else Some(Updated(v.content, ch))
  }

  lemma OwnerHasCopy(txs: map<Xid, Tx>, c: Cell, t: Xid)
    requires CellInv(txs, c) && t != 0 && c.rec.Some? && c.rec.value.lock == t
    ensures |c.rec.value.dirty| > 0 && c.rec.value.dirty[0].lock == t && t in c.writes
  {
    assert CellMeets(RecordClause, txs, c);
  }

  /** A later write of t replaces the content of its own copy. */
  lemma NextWriteKeeps(txs: map<Xid, Tx>, c: Cell, t: Xid, ch: Change, op: Op)
    requires CellInv(txs, c) && IsActive(txs, t) && 0 < t < INF
    requires c.rec.Some? && c.rec.value.lock == t
    ensures var r := c.rec.value;
            && |r.dirty| > 0 && r.dirty[0].lock == t
            && CellInv(txs, WriteCell(c, Rewritten(r, ch), t, RewrittenValue(r, ch), op))
  {
    OwnerHasCopy(txs, c, t);
    var r := c.rec.value;
    var c' := WriteCell(c, Rewritten(r, ch), t, RewrittenValue(r, ch), op);
    NextWriteRecord(txs, c, t, ch, op);
    NextWriteOthers(txs, c, c', t);
    CellInvBy(txs, c');
  }

  lemma NextWriteRecord(txs: map<Xid, Tx>, c: Cell, t: Xid, ch: Change, op: Op)
    requires CellInv(txs, c) && IsActive(txs, t) && 0 < t < INF
    requires c.rec.Some? && c.rec.value.lock == t && |c.rec.value.dirty| > 0
    ensures CellMeets(RecordClause, txs, WriteCell(c, Rewritten(c.rec.value, ch), t, RewrittenValue(c.rec.value, ch), op))
  {
    assert CellMeets(RecordClause, txs, c);
    var r := c.rec.value;
    var r' := Rewritten(r, ch);
    var c' := WriteCell(c, r', t, RewrittenValue(r, ch), op);
    assert r'.dirty[1..] == r.dirty[1..];
    if Writing(txs, c.writes, r, c.snap) {
      assert r'.dirty[2..] == r.dirty[2..];
      OldsKept(txs, c.writes, c'.writes, r.rts, r.dirty[1..], t);
      assert Writing(txs, c'.writes, r', c'.snap);
    } else {
      assert Fresh(txs, c.writes, r);
      assert c'.writes == map[t := Some(Updated(r.dirty[0].content, ch))];
      assert Fresh(txs, c'.writes, r');
    }
  }

  /** The history before an uncommitted write of t is still history after it. */
  lemma OldsKept(txs: map<Xid, Tx>, writes: map<Xid, Option<Content>>, writes': map<Xid, Option<Content>>, rts: nat, vs: seq<Version>, t: Xid)
    requires OldsOk(txs, writes, rts, vs) && t != 0 && !Committed(txs, t)
    requires forall w :: w != t ==> (w in writes' <==> w in writes) && (w in writes ==> writes'[w] == writes[w])
    ensures OldsOk(txs, writes', rts, vs)
  {
    forall v | v in vs ensures OldOk(txs, writes', rts, v) {
      assert OldOk(txs, writes, rts, v);
    }
  }

  lemma NextWriteOthers(txs: map<Xid, Tx>, c: Cell, c': Cell, t: Xid)
    requires CellInv(txs, c) && IsActive(txs, t) && 0 < t < INF && c.rec.Some? && c'.rec.Some? && t in c.writes
    requires var r, r' := c.rec.value, c'.rec.value; r'.lock == r.lock == t && r'.rts == r.rts && r'.bts == r.bts && r'.cts == r.cts
    requires c'.seen == c.seen && c'.held == c.held && c'.writes.Keys == c.writes.Keys
    requires forall w :: w in c.writes && w != t ==> c'.writes[w] == c.writes[w]
    ensures CellMeets(SeenClause, txs, c') && CellMeets(HeldClause, txs, c') && CellMeets(WritersClause, txs, c')
  {
    CellClauses(txs, c);
    forall rd | rd in c'.seen ensures ReadOk(txs, c', rd) {
      assert ReadOk(txs, c, rd);
    }
    assert forall u :: u in c.held && IsActive(txs, u) ==> HeldOk(c, u);
    assert forall x :: x in c.writes ==> WriterOk(txs, c, x);
  }

  lemma UpdateKeeps(txs: map<Xid, Tx>, c: Cell, f: Fetch, t: Xid, ch: Change)
    requires CellInv(txs, c) && IsActive(txs, t) && 0 < t < INF && HasReference(c, f, t)
    ensures CellInv(txs, UpdateCell(c, f, t, ch))
    ensures UpdateCell(c, f, t, ch).rec.Some?
    ensures UpdateCell(c, f, t, ch).rec.value.lock == t || UpdateCell(c, f, t, ch) == c
  {
    CellClauses(txs, c);
    var r := c.rec.value;
    var u := UpdateVia(r, f, t, ch);
    if u.Some? {
      if r.lock == t {
        NextWriteKeeps(txs, c, t, ch, NextOp(c, t, ch));
        assert DirtyVersionOf(r.dirty, t, 0) == 0;
        if f.Dirty? {
          assert f.k == 0;
          assert r.dirty[f.k := r.dirty[f.k].(lock := t)] == r.dirty;
        }
        var v := r.dirty[0];
        assert u.value == r.(dirty := r.dirty[0 := v.(content := Updated(v.content, ch))]);
        assert DirtyVersionOf(u.value.dirty, t, 0) == 0;
      } else {
        if f.Dirty? {
          StaleReferenceThrows(txs, c, t, ch);
        }
        assert DirtyVersionOf(r.dirty, t, 0) == |r.dirty| by { NoneOwned(txs, c, t); }
        FirstWriteKeeps(txs, c, f, t, Updated(r.content, ch), false, NextOp(c, t, ch));
        assert DirtyVersionOf(u.value.dirty, t, 0) == 0;
      }
    }
  }

  /** A settled version list holds nothing locked by an active transaction. */
  lemma NoneOwned(txs: map<Xid, Tx>, c: Cell, t: Xid)
    requires c.rec.Some? && RecOk(txs, c, c.rec.value) && IsActive(txs, t) && t != 0 && c.rec.value.lock != t
    ensures forall v :: v in c.rec.value.dirty ==> v.lock != t
  {
    var r := c.rec.value;
    forall v | v in r.dirty ensures v.lock != t {
      if Settled(txs, c.writes, r) {
        assert OldOk(txs, c.writes, r.rts, v);
      } else if Writing(txs, c.writes, r, c.snap) {
        assert v == r.dirty[0] || v in r.dirty[1..];
      }
    }
  }

  lemma DeleteKeeps(txs: map<Xid, Tx>, c: Cell, f: Fetch, t: Xid)
    requires CellInv(txs, c) && IsActive(txs, t) && 0 < t < INF
    requires HasReference(c, f, t) && f == NodeById(c.rec.value, t) && c.rec.value.lock != t
    ensures CellInv(txs, DeleteCell(c, f, t))
    ensures DeleteCell(c, f, t).rec.Some?
    ensures DeleteCell(c, f, t).rec.value.lock == t || DeleteCell(c, f, t) == c
  {
    CellClauses(txs, c);
    if f.Dirty? {
      StaleReferenceThrows(txs, c, t, Change(0, map[]));
    } else if DeleteVia(c.rec.value, f, t).Some? {
      FirstWriteKeeps(txs, c, f, t, c.rec.value.content, true, Drop);
    }
  }

  lemma InsertKeeps(txs: map<Xid, Tx>, t: Xid, content: Content)
    requires IsActive(txs, t) && 0 < t < INF
    ensures CellInv(txs, Cell(Some(FreshRecord(t, content)), map[t := Some(content)], map[t := Put(content)], {}, {}, None))
  {
    assert Fresh(txs, map[t := Some(content)], FreshRecord(t, content));
  }

  // --------------------------------------------------------- changes of phase

  /** The invariant of a cell depends on the phases of the transactions only. */
  lemma SamePhasesKeep(txs: map<Xid, Tx>, txs': map<Xid, Tx>, c: Cell)
    requires CellInv(txs, c)
    requires txs'.Keys == txs.Keys && forall t :: t in txs ==> txs'[t].phase == txs[t].phase
    ensures CellInv(txs', c)
  {
    CellClauses(txs, c);
    assert forall t :: Committed(txs', t) == Committed(txs, t);
    assert forall t :: IsActive(txs', t) == IsActive(txs, t);
    if c.rec.Some? {
      assert forall v :: OldOk(txs, c.writes, c.rec.value.rts, v) ==> OldOk(txs', c.writes, c.rec.value.rts, v);
      RecKeeps(txs, txs', c);
    }
    assert forall rd :: rd in c.seen ==> ReadOk(txs, c, rd);
    assert forall w :: w in c.writes ==> WriterOk(txs, c, w);
    assert forall u :: u in c.held && IsActive(txs', u) ==> HeldOk(c, u);
  }

  /** A record stays well formed when nothing new is committed for it and no
      transaction that could miss a deleted record becomes active. */
  lemma RecKeeps(txs: map<Xid, Tx>, txs': map<Xid, Tx>, c: Cell)
    requires c.rec.Some? && RecOk(txs, c, c.rec.value) && txs.Keys <= txs'.Keys
    requires forall w :: w in c.writes ==> (Committed(txs', w) <==> Committed(txs, w))
    requires forall t :: t in txs && txs[t].phase.Aborting? ==> txs'[t].phase.Aborting?
    requires forall a :: IsActive(txs', a) ==> IsActive(txs, a) || c.rec.value.cts <= a || c.rec.value.cts == INF
    ensures RecOk(txs', c, c.rec.value)
  {
    var r := c.rec.value;
    assert forall v :: OldOk(txs, c.writes, r.rts, v) ==> OldOk(txs', c.writes, r.rts, v);
    if Settled(txs, c.writes, r) {
      assert r.cts != INF ==> Covered(txs', r);
      assert Settled(txs', c.writes, r);
    } else if Writing(txs, c.writes, r, c.snap) {
      assert Writing(txs', c.writes, r, c.snap);
    } else {
      assert Fresh(txs', c.writes, r);
    }
  }

  lemma BeginKeeps(txs: map<Xid, Tx>, c: Cell, t: Xid)
    requires CellInv(txs, c) && t !in txs && t != 0 && forall x :: x in txs ==> x < t
    ensures CellInv(txs[t := Tx(Active, [])], c)
  {
    CellClauses(txs, c);
    var txs' := txs[t := Tx(Active, [])];
    assert forall w :: w in c.writes ==> WriterOk(txs, c, w);
    if c.rec.Some? {
      assert c.rec.value.cts != INF ==> c.rec.value.cts < t;
      RecKeeps(txs, txs', c);
    }
    assert forall rd :: rd in c.seen ==> ReadOk(txs, c, rd);
    assert forall u :: u in c.held && IsActive(txs', u) ==> HeldOk(c, u);
  }

  /** When t starts to abort, none of its writes ever counts. */
  lemma StartAbortKeeps(txs: map<Xid, Tx>, c: Cell, t: Xid)
    requires CellInv(txs, c) && IsActive(txs, t) && t != 0
    ensures CellInv(txs[t := txs[t].(phase := Aborting)], c)
  {
    CellClauses(txs, c);
    var txs' := txs[t := txs[t].(phase := Aborting)];
    assert forall w :: w in c.writes ==> WriterOk(txs, c, w);
    if c.rec.Some? {
      RecKeeps(txs, txs', c);
    }
    assert forall rd :: rd in c.seen ==> ReadOk(txs, c, rd);
    assert forall u :: u in c.held && IsActive(txs', u) ==> HeldOk(c, u);
  }

  /** When t starts to commit, all its writes count at once: every earlier read
      of what it wrote is by an older transaction. */
  lemma StartCommitKeeps(txs: map<Xid, Tx>, c: Cell, t: Xid)
    requires CellInv(txs, c) && IsActive(txs, t) && 0 < t < INF
    ensures CellInv(txs[t := txs[t].(phase := Committing)], c)
  {
    var txs' := txs[t := txs[t].(phase := Committing)];
    StartCommitRecord(txs, c, t);
    StartCommitOthers(txs, c, t);
    CellInvBy(txs', c);
  }

  lemma StartCommitRecord(txs: map<Xid, Tx>, c: Cell, t: Xid)
    requires CellInv(txs, c) && IsActive(txs, t) && 0 < t < INF
    ensures CellMeets(RecordClause, txs[t := txs[t].(phase := Committing)], c)
  {
    CellClauses(txs, c);
    var txs' := txs[t := txs[t].(phase := Committing)];
    if t !in c.writes {
      if c.rec.Some? {
        RecKeeps(txs, txs', c);
      }
    } else {
      var r := c.rec.value;
      assert WriterOk(txs, c, t);
      if Writing(txs, c.writes, r, c.snap) {
        CommitterHistory(txs, txs', c.writes, r, t);
        assert Writing(txs', c.writes, r, c.snap);
      } else {
        assert Fresh(txs', c.writes, r);
      }
    }
  }

  /** The old versions below the write of t remain history when t commits. */
  lemma CommitterHistory(txs: map<Xid, Tx>, txs': map<Xid, Tx>, writes: map<Xid, Option<Content>>, r: Record, t: Xid)
    requires IsActive(txs, t) && txs' == txs[t := txs[t].(phase := Committing)] && |r.dirty| > 0
    requires OldsOk(txs, writes, r.rts, r.dirty[1..]) && forall v :: v in r.dirty[1..] ==> v.lock != t && (v.lock == 0 ==> v.cts <= t)
    ensures OldsOk(txs', writes, r.rts, r.dirty[1..])
  {
    forall v | v in r.dirty[1..] ensures OldOk(txs', writes, r.rts, v) {
      assert OldOk(txs, writes, r.rts, v);
    }
  }

  lemma StartCommitOthers(txs: map<Xid, Tx>, c: Cell, t: Xid)
    requires CellInv(txs, c) && IsActive(txs, t) && 0 < t < INF
    ensures var txs' := txs[t := txs[t].(phase := Committing)];
            CellMeets(SeenClause, txs', c) && CellMeets(HeldClause, txs', c) && CellMeets(WritersClause, txs', c)
  {
    CellClauses(txs, c);
    var txs' := txs[t := txs[t].(phase := Committing)];
    assert forall w :: w in c.writes ==> WriterOk(txs, c, w);
    assert forall rd :: rd in c.seen ==> ReadOk(txs, c, rd);
    assert forall u :: u in c.held && IsActive(txs', u) ==> HeldOk(c, u);
  }

  // ------------------------------------------------------ commit, abort and GC

  /** What garbage collection keeps covers every active transaction. */
  lemma GcKeeps(txs: map<Xid, Tx>, writes: map<Xid, Option<Content>>, r: Record, oldest: nat)
    requires Settled(txs, writes, r)
    requires forall a :: IsActive(txs, a) ==> oldest <= a
    ensures Settled(txs, writes, r.(dirty := Gc(r.dirty, oldest)))
  {
  }

  lemma CommitKeeps(txs: map<Xid, Tx>, c: Cell, t: Xid, oldest: nat)
    requires CellInv(txs, c) && c.rec.Some? && c.rec.value.lock == t
    requires t in txs && txs[t].phase.Committing? && 0 < t < INF
    requires forall a :: IsActive(txs, a) ==> oldest <= a
    ensures var r' := CommitRecord(c.rec.value, t, oldest);
            && r'.Some? && r'.value.lock == 0
            && CellInv(txs, c.(rec := r'))
  {
    CellClauses(txs, c);
    var r := c.rec.value;
    var dn := r.dirty[0];
    var rest := r.dirty[1..];
    var r1: Record;
    if Fresh(txs, c.writes, r) {
      r1 := Record(0, t, INF, r.rts, dn.content, rest);
    } else {
      assert rest[0] in rest;
      assert [rest[0].(lock := 0)] + rest[1..] == rest;
      r1 := if dn.bts == dn.cts then Record(0, r.bts, t, r.rts, Content(r.content.labelCode, map[]), rest)
            else Record(0, t, INF, r.rts, dn.content, rest);
    }
    assert Settled(txs, c.writes, r1);
    GcKeeps(txs, c.writes, r1, oldest);
    var c' := c.(rec := CommitRecord(r, t, oldest));
    assert Settled(txs, c'.writes, c'.rec.value);
    forall rd | rd in c'.seen ensures ReadOk(txs, c', rd) { assert ReadOk(txs, c, rd); }
    forall u | u in c'.held && IsActive(txs, u) ensures HeldOk(c', u) { assert HeldOk(c, u); }
    assert forall w :: w in c.writes ==> WriterOk(txs, c, w);
  }

  lemma AbortKeeps(txs: map<Xid, Tx>, c: Cell, t: Xid)
    requires CellInv(txs, c) && c.rec.Some? && c.rec.value.lock == t
    requires t in txs && txs[t].phase.Aborting? && 0 < t < INF
    ensures var r' := AbortRecord(c.rec.value, t);
            && (r'.Some? ==> r'.value.lock == 0)
            && CellInv(txs, c.(rec := r'))
  {
    CellClauses(txs, c);
    var r := c.rec.value;
    var c' := c.(rec := AbortRecord(r, t));
    assert r.dirty[0].lock == t;
    assert DirtyVersionOf(r.dirty, t, 0) == 0;
    if Writing(txs, c.writes, r, c.snap) {
      var r' := c'.rec.value;
      forall v | v in r'.dirty ensures OldOk(txs, c.writes, r'.rts, v) {
        if v in r.dirty[1..] {
          assert OldOk(txs, c.writes, r.rts, v);
        } else {
          assert v == r.dirty[0];
        }
      }
      assert Settled(txs, c'.writes, r');
    }
    forall rd | rd in c'.seen ensures ReadOk(txs, c', rd) { assert ReadOk(txs, c, rd); }
    forall u | u in c'.held && IsActive(txs, u) ensures HeldOk(c', u) { assert HeldOk(c, u); }
    assert forall w :: w in c.writes ==> WriterOk(txs, c, w);
  }

  /** A deleted record is physically removed only after every transaction that
      could see it has gone. */
  lemma VacuumKeeps(txs: map<Xid, Tx>, c: Cell, oldest: nat)
    requires CellInv(txs, c) && c.rec.Some? && c.rec.value.lock == 0 && c.rec.value.cts != INF
    requires forall a :: IsActive(txs, a) ==> oldest <= a && a != 0
    ensures CellInv(txs, VacuumCell(c, oldest))
    ensures VacuumCell(c, oldest).rec.None? ==> forall a :: IsActive(txs, a) ==> c.rec.value.cts <= a
  {
    CellClauses(txs, c);
    var c' := VacuumCell(c, oldest);
    GcKeeps(txs, c.writes, c.rec.value, oldest);
    var r1 := c.rec.value.(dirty := Gc(c.rec.value.dirty, oldest));
    assert Covered(txs, r1);
    forall rd | rd in c'.seen ensures ReadOk(txs, c', rd) { assert ReadOk(txs, c, rd); }
    forall u | u in c'.held && IsActive(txs, u) ensures HeldOk(c', u) { assert HeldOk(c, u); }
    assert forall w :: w in c.writes ==> WriterOk(txs, c, w);
  }
}
