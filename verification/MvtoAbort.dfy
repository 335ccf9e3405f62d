/** Abort is invisible: over any interleaving, from a transaction's first write of
    an object to the abort of that object. */
module MvtoAbort {
  import opened Wrappers
  import opened Mvto
  import opened MvtoInvariant
  import opened MvtoSteps
  import opened MvtoRuns
  import opened MvtoVisibility

  /** t is writing o on top of snapshot r0, which is missing when t inserted o, or
      has finished with o for good. */
  ghost predicate OnSnapshot(s: Db, t: Xid, o: Oid, r0: Option<Record>) {
    && t in s.txs && t != 0 && o in s.cells
    && if LockedBy(s, o, t) then s.cells[o].snap == r0 else !IsActive(s.txs, t)
  }

  /** A call by x on a cell: the snapshot of a lock owner is left alone, and a
      lock can only be taken for x. */
  ghost predicate SnapshotStep(c: Cell, c': Cell, x: Xid) {
    && c.rec.Some? && c'.rec.Some?
    && (c.rec.value.lock != 0 ==> c'.rec.value.lock == c.rec.value.lock && c'.snap == c.snap)
    && (c'.rec.value.lock == c.rec.value.lock || c'.rec.value.lock == x)
  }

  lemma UpdateSnapshotStep(txs: map<Xid, Tx>, c: Cell, f: Fetch, x: Xid, ch: Change)
    requires CellInv(txs, c) && IsActive(txs, x) && 0 < x < INF && HasReference(c, f, x)
    ensures SnapshotStep(c, UpdateCell(c, f, x, ch), x)
  {
    CellClauses(txs, c);
    UpdateKeeps(txs, c, f, x, ch);
    if c.rec.value.lock != x && f.Dirty? {
      StaleReferenceThrows(txs, c, x, ch);
    }
  }

  lemma DeleteSnapshotStep(txs: map<Xid, Tx>, c: Cell, f: Fetch, x: Xid)
    requires CellInv(txs, c) && IsActive(txs, x) && 0 < x < INF
    requires HasReference(c, f, x) && f == NodeById(c.rec.value, x) && c.rec.value.lock != x
    ensures SnapshotStep(c, DeleteCell(c, f, x), x)
  {
    CellClauses(txs, c);
    DeleteKeeps(txs, c, f, x);
    if f.Dirty? {
      StaleReferenceThrows(txs, c, x, Change(0, map[]));
    }
  }

  /** A call on o leaves the snapshot of the lock owner alone, and nobody can
      take a lock for a transaction that is no longer active. */
  lemma CallKeepsSnapshot(s: Db, e: Event, t: Xid, o: Oid, r0: Option<Record>)
    requires Inv(s) && Enabled(s, e) && OnSnapshot(s, t, o, r0)
    requires e.ReadNode? || e.UpdateFetched? || e.UpdateHeld? || e.Delete?
    ensures OnSnapshot(Apply(s, e), t, o, r0)
  {
    ActiveId(s, e.t);
    if e.o == o {
      CellOf(s, o);
      var c0 := s.cells[o];
      FetchKeeps(s.txs, c0, e.t);
      var c := FetchCell(c0, e.t);
      match e
      case UpdateFetched(x, _, ch) => UpdateSnapshotStep(s.txs, c, NodeById(c.rec.value, x), x, ch);
      case UpdateHeld(x, _, ch) => UpdateSnapshotStep(s.txs, c0, Main, x, ch);
      case Delete(x, _, _) => DeleteSnapshotStep(s.txs, c, NodeById(c.rec.value, x), x);
      case _ =>
    }
  }

  lemma FinishKeepsSnapshot(s: Db, e: Event, t: Xid, o: Oid, r0: Option<Record>)
    requires Inv(s) && Enabled(s, e) && OnSnapshot(s, t, o, r0) && (e.CommitObject? || e.AbortObject?)
    ensures OnSnapshot(Apply(s, e), t, o, r0)
  {
    Clauses(s);
    HeadLocked(s, e.t);
    var p := s.txs[e.t].todo[0];
    if e.CommitObject? {
      CommitKeeps(s.txs, s.cells[p], e.t, s.oldest);
    } else {
      AbortKeeps(s.txs, s.cells[p], e.t);
    }
  }

  lemma VacuumKeepsSnapshot(s: Db, k: nat, t: Xid, o: Oid, r0: Option<Record>)
    requires Inv(s) && k <= |s.garbage| && OnSnapshot(s, t, o, r0)
    ensures OnSnapshot(VacuumFrom(s, k), t, o, r0)
    decreases |s.garbage| - k
  {
    if k < |s.garbage| {
      VacuumItemKeeps(s, k);
      var p := s.garbage[k];
      var c := VacuumCell(s.cells[p], s.oldest);
      var g := if c.rec.None? then s.garbage[..k] + s.garbage[k + 1..] else s.garbage;
      var s' := s.(cells := s.cells[p := c], garbage := g);
      assert OnSnapshot(s', t, o, r0) by { UnlockedKeepsSnapshot(s, s', t, o, r0, p, c); }
      VacuumKeepsSnapshot(s', if c.rec.None? then k else k + 1, t, o, r0);
    }
  }

  lemma UnlockedKeepsSnapshot(s: Db, s': Db, t: Xid, o: Oid, r0: Option<Record>, p: Oid, c: Cell)
    requires OnSnapshot(s, t, o, r0) && LockedBy(s, p, 0) && s'.txs == s.txs && s'.cells == s.cells[p := c]
    requires c.rec.Some? ==> c.rec.value.lock == 0
    ensures OnSnapshot(s', t, o, r0)
  {
  }

  lemma StepKeepsSnapshot(s: Db, e: Event, t: Xid, o: Oid, r0: Option<Record>)
    requires Inv(s) && Enabled(s, e) && OnSnapshot(s, t, o, r0)
    ensures OnSnapshot(Apply(s, e), t, o, r0)
  {
    Clauses(s);
    if e.Vacuum? {
      VacuumKeepsSnapshot(s, 0, t, o, r0);
    } else if e.CommitObject? || e.AbortObject? {
      FinishKeepsSnapshot(s, e, t, o, r0);
    } else if e.ReadNode? || e.UpdateFetched? || e.UpdateHeld? || e.Delete? {
      CallKeepsSnapshot(s, e, t, o, r0);
    }
  }

  lemma {:induction false} RunKeepsSnapshot(s: Db, es: seq<Event>, t: Xid, o: Oid, r0: Option<Record>)
    requires Inv(s) && CanRun(s, es) && OnSnapshot(s, t, o, r0)
    ensures Inv(Run(s, es)) && OnSnapshot(Run(s, es), t, o, r0)
    decreases |es|
  {
    if es != [] {
      StepKeepsInv(s, es[0]);
      StepKeepsSnapshot(s, es[0], t, o, r0);
      RunKeepsSnapshot(Apply(s, es[0]), es[1..], t, o, r0);
    }
  }

  /** e is the call by which t first writes the existing object o. */
  ghost predicate FirstWrite(s: Db, e: Event, t: Xid, o: Oid) {
    && Enabled(s, e) && (e.UpdateFetched? || e.UpdateHeld? || e.Delete?) && e.t == t && e.o == o
    && !LockedBy(s, o, t) && LockedBy(Apply(s, e), o, t)
  }

  lemma FirstWriteSnapshot(s: Db, e: Event, t: Xid, o: Oid, i: Xid) returns (r0: Record)
    requires Inv(s) && FirstWrite(s, e, t, o)
    ensures OnSnapshot(Apply(s, e), t, o, Some(r0)) && Describe(r0, i) == Sees(s, o, i)
    ensures r0 == if e.UpdateHeld? then s.cells[o].rec.value else SetRts(s.cells[o].rec.value, t)
  {
    var r := s.cells[o].rec.value;
    r0 := if e.UpdateHeld? then r else SetRts(r, t);
    DescribeIsView(r, i);
    DescribeIsView(r0, i);
  }

  /** Whatever happens between t's first write of o and the abort of o, every
      other id then sees of o exactly what it saw before that write, and the
      object is not locked. */
  lemma AbortIsInvisible(s: Db, e: Event, es: seq<Event>, t: Xid, o: Oid, i: Xid)
    requires Inv(s) && FirstWrite(s, e, t, o) && CanRun(Apply(s, e), es) && i != t && 0 < i < INF
    requires var s2 := Run(Apply(s, e), es);
             Enabled(s2, AbortObject(t)) && s2.txs[t].todo[0] == o
    ensures var s3 := Apply(Run(Apply(s, e), es), AbortObject(t));
            Sees(s3, o, i) == Sees(s, o, i) && LockedBy(s3, o, 0)
  {
    var r0 := FirstWriteSnapshot(s, e, t, o, i);
    StepKeepsInv(s, e);
    RunKeepsSnapshot(Apply(s, e), es, t, o, Some(r0));
    var s2 := Run(Apply(s, e), es);
    HeadLocked(s2, t);
    AbortRestores(s2, t, i);
    FreshHasNoSnapshot(s2, o);
  }

  /** An object that its lock owner inserted has no snapshot. */
  lemma FreshHasNoSnapshot(s: Db, o: Oid)
    requires Inv(s) && Present(s, o) && s.cells[o].snap.Some?
    ensures !Fresh(s.txs, s.cells[o].writes, s.cells[o].rec.value)
  {
    CellOf(s, o);
    CellClauses(s.txs, s.cells[o]);
  }

  // ------------------------------------------------------------------ aborted inserts

  /** An object that its lock owner inserted, and that has no snapshot therefore. */
  lemma NoSnapshotIsFresh(s: Db, t: Xid, o: Oid)
    requires Inv(s) && t != 0 && LockedBy(s, o, t) && s.cells[o].snap == None
    ensures Fresh(s.txs, s.cells[o].writes, s.cells[o].rec.value)
  {
    CellOf(s, o);
    CellClauses(s.txs, s.cells[o]);
  }

  lemma InsertHasNoSnapshot(s: Db, t: Xid, o: Oid, content: Content)
    requires Inv(s) && Enabled(s, Insert(t, o, content))
    ensures OnSnapshot(Apply(s, Insert(t, o, content)), t, o, None) && LockedBy(Apply(s, Insert(t, o, content)), o, t)
  {
    ActiveId(s, t);
  }

  /** As long as its inserter has not committed it, nobody else sees an inserted object. */
  lemma InsertIsPrivate(s: Db, t: Xid, o: Oid, i: Xid)
    requires Inv(s) && t != 0 && LockedBy(s, o, t) && s.cells[o].snap == None && i != t && i != 0
    ensures Sees(s, o, i) == None
  {
    NoSnapshotIsFresh(s, t, o);
    DescribeIsView(s.cells[o].rec.value, i);
  }

  /** Once an object is gone it stays gone, and nobody sees it. */
  lemma {:induction false} GoneForGood(s: Db, es: seq<Event>, o: Oid, i: Xid)
    requires CanRun(s, es) && o in s.cells && s.cells[o].rec == None
    ensures o in Run(s, es).cells && Run(s, es).cells[o].rec == None && Sees(Run(s, es), o, i) == None
    decreases |es|
  {
    if es != [] {
      if es[0].Vacuum? {
        VacuumKeepsGone(s, 0, o);
      }
      GoneForGood(Apply(s, es[0]), es[1..], o, i);
    }
  }

  lemma {:induction false} VacuumKeepsGone(s: Db, k: nat, o: Oid)
    requires k <= |s.garbage| && o in s.cells && s.cells[o].rec == None
    ensures o in VacuumFrom(s, k).cells && VacuumFrom(s, k).cells[o].rec == None
    decreases |s.garbage| - k
  {
    if k < |s.garbage| {
      var p := s.garbage[k];
      if !Present(s, p) {
        VacuumKeepsGone(s, k + 1, o);
      } else {
        var c := VacuumCell(s.cells[p], s.oldest);
        if c.rec.None? {
          VacuumKeepsGone(s.(cells := s.cells[p := c], garbage := s.garbage[..k] + s.garbage[k + 1..]), k, o);
        } else {
          VacuumKeepsGone(s.(cells := s.cells[p := c]), k + 1, o);
        }
      }
    }
  }

  /** An aborted insert is gone: whatever happens between the insertion of o by t and
      the abort of o, nobody else sees o before the abort, afterwards the record is
      removed, and in no continuation does anybody see it again. */
  lemma AbortedInsertIsGone(s: Db, t: Xid, o: Oid, content: Content, es: seq<Event>, more: seq<Event>, i: Xid)
    requires Inv(s) && Enabled(s, Insert(t, o, content)) && CanRun(Apply(s, Insert(t, o, content)), es) && i != 0
    requires var s2 := Run(Apply(s, Insert(t, o, content)), es);
             Enabled(s2, AbortObject(t)) && s2.txs[t].todo[0] == o && CanRun(Apply(s2, AbortObject(t)), more)
    ensures var s2 := Run(Apply(s, Insert(t, o, content)), es);
            && (i != t ==> Sees(s2, o, i) == None)
            && o in Apply(s2, AbortObject(t)).cells && Apply(s2, AbortObject(t)).cells[o].rec == None
            && Sees(Run(Apply(s2, AbortObject(t)), more), o, i) == None
  {
    var s1 := Apply(s, Insert(t, o, content));
    ActiveId(s, t);
    InsertHasNoSnapshot(s, t, o, content);
    StepKeepsInv(s, Insert(t, o, content));
    RunKeepsSnapshot(s1, es, t, o, None);
    var s2 := Run(s1, es);
    HeadLocked(s2, t);
    NoSnapshotIsFresh(s2, t, o);
    CellOf(s2, o);
    AbortShape(s2.txs, s2.cells[o], t);
    if i != t {
      InsertIsPrivate(s2, t, o, i);
    }
    GoneForGood(Apply(s2, AbortObject(t)), more, o, i);
  }
}
