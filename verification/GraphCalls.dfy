/** What each client call does to the tables, with every condition and value written out,
    for every call of every history. */
module GraphCalls {
  import opened Wrappers
  import opened Mvto
  import opened MvtoInvariant
  import opened MvtoSteps
  import opened MvtoRuns
  import opened MvtoVisibility
  import opened MvtoEffects
  import opened MvtoVacuum
  import opened GraphDatabase

  /** What t sees in the tables. */
  function SeesIn(i: Image, o: Oid, t: Xid): Option<Content> {
    if o in i.recs then Describe(i.recs[o], t) else None
  }

  /** No record but that of o has changed. */
  ghost predicate OnlyChanges(i: Image, i': Image, o: Oid) {
    forall p :: p != o ==> (p in i'.recs <==> p in i.recs) && (p in i.recs ==> i'.recs[p] == i.recs[p])
  }

  /** Nothing has changed but the reader's mark. */
  ghost predicate OnlyRead(i: Image, i': Image, o: Oid, t: Xid)
    requires o in i.recs
  {
    o in i'.recs && t <= i'.recs[o].rts && i'.recs[o] == i.recs[o].(rts := i'.recs[o].rts)
  }

  /** t has left, nothing is locked by it, and no deleted record is left that nobody needs. */
  ghost predicate Ended(i: Image, i': Image, t: Xid) {
    && HasLeft(i.active, t, i'.active, i'.oldest)
    && forall o :: o in i'.recs ==> i'.recs[o].lock != t && (i'.recs[o].cts != INF ==> Needed(i'.recs[o], i'.oldest))
  }

  /** What t has written is what the tables hold, dated t. */
  ghost predicate Installed(i: Image, i': Image, t: Xid, o: Oid) {
    match SeesIn(i, o, t)
    case Some(c) => o in i'.recs && i'.recs[o].lock == 0 && i'.recs[o].bts == t && i'.recs[o].cts == INF && i'.recs[o].content == c
    case None => o in i'.recs ==> i'.recs[o].lock == 0 && i'.recs[o].cts == t
  }

  /** A call on the tables i. */
  ghost predicate CallDone(call: Call, i: Image, i': Image) {
    match call
    case CallBegin(t) =>
      i.last < t < INF ==> i'.recs == i.recs && i'.active == i.active + [t] && i'.last == t && i'.oldest == i.oldest
    case CallRead(t, o) =>
      t in i.active && o in i.recs ==> OnlyChanges(i, i', o) && OnlyRead(i, i', o, t)
    case CallInsert(t, o, c) =>
      t in i.active && o !in i.used ==> OnlyChanges(i, i', o) && SeesIn(i', o, t) == Some(c) && o in i'.recs && i'.recs[o].lock == t
    case CallUpdate(t, o, ch) =>
      t in i.active && o in i.recs ==>
        && OnlyChanges(i, i', o)
        && if Updatable(i.recs[o], t)
           then o in i'.recs && i'.recs[o].lock == t && SeesIn(i, o, t).Some? && EditSeen(SeesIn(i, o, t), ch, SeesIn(i', o, t))
           else OnlyRead(i, i', o, t)
    case CallUpdateHeld(t, o, ch) =>
      t in i.active && (t, o) in i.handed ==>
        && o in i.recs && OnlyChanges(i, i', o)
        && if HeldUpdatable(i.recs[o], t)
           then o in i'.recs && i'.recs[o].lock == t && EditSeen(SeesIn(i, o, t), ch, SeesIn(i', o, t))
           else i'.recs == i.recs
    case CallDelete(t, o, orphaned) =>
      t in i.active && o in i.recs && i.recs[o].lock != t ==>
        && OnlyChanges(i, i', o)
        && if !orphaned && Updatable(i.recs[o], t)
           then o in i'.recs && i'.recs[o].lock == t && NodeById(i'.recs[o], t) == UnknownId
           else OnlyRead(i, i', o, t)
    case CallCommit(t) =>
      t in i.active ==> Ended(i, i', t) && forall o :: o in i.recs && i.recs[o].lock == t ==> Installed(i, i', t, o)
    case CallAbort(t) =>
      t in i.active ==> Ended(i, i', t)
  }

  // ------------------------------------------------------------------ calls of one step

  lemma SameRecords(s: Db, i: Image)
    requires Shows(s, i)
    ensures forall o :: o in i.recs <==> Present(s, o)
    ensures forall o :: o in i.recs ==> Present(s, o) && i.recs[o] == s.cells[o].rec.value
    ensures forall o, t :: SeesIn(i, o, t) == Sees(s, o, t)
  {
    Parts(s, i);
  }

  lemma SingleStep(s: Db, e: Event, s': Db)
    requires Ran(s, [e], s')
    ensures Enabled(s, e) && s' == Apply(s, e)
  {
    RanIsRun(s, [e], s');
    assert [e][1..] == [];
  }

  /** A step that stores one cell. */
  lemma OneCellStored(s: Db, i: Image, s': Db, i': Image, o: Oid)
    requires Shows(s, i) && Shows(s', i') && o in s'.cells && s'.cells == s.cells[o := s'.cells[o]]
    ensures OnlyChanges(i, i', o)
  {
    SameRecords(s, i);
    SameRecords(s', i');
    forall p | p != o ensures (p in i'.recs <==> p in i.recs) && (p in i.recs ==> i'.recs[p] == i.recs[p]) {
      assert Present(s', p) <==> Present(s, p);
    }
  }

  lemma ReadMeans(s: Db, i: Image, s': Db, i': Image, t: Xid, o: Oid)
    requires Shows(s, i) && Shows(s', i') && t in i.active && o in i.recs && Ran(s, [ReadNode(t, o)], s')
    ensures CallDone(CallRead(t, o), i, i')
  {
    SingleStep(s, ReadNode(t, o), s');
    OneCellStored(s, i, s', i', o);
    SameRecords(s, i);
    SameRecords(s', i');
  }

  lemma InsertMeans(s: Db, i: Image, s': Db, i': Image, t: Xid, o: Oid, c: Content)
    requires Shows(s, i) && Shows(s', i') && t in i.active && o !in i.used && Ran(s, [Insert(t, o, c)], s')
    ensures CallDone(CallInsert(t, o, c), i, i')
  {
    SingleStep(s, Insert(t, o, c), s');
    OneCellStored(s, i, s', i', o);
    XidShown(s, i, t);
    InsertSeen(t, c);
    SameRecords(s', i');
  }

  lemma UpdateMeans(s: Db, i: Image, s': Db, i': Image, t: Xid, o: Oid, ch: Change)
    requires Shows(s, i) && Shows(s', i') && t in i.active && o in i.recs && Ran(s, [UpdateFetched(t, o, ch)], s')
    ensures CallDone(CallUpdate(t, o, ch), i, i')
  {
    SingleStep(s, UpdateFetched(t, o, ch), s');
    OneCellStored(s, i, s', i', o);
    SameRecords(s, i);
    SameRecords(s', i');
    Parts(s, i);
    UpdateFetchedEffect(s, t, o, ch);
  }

  lemma UpdateHeldMeans(s: Db, i: Image, s': Db, i': Image, t: Xid, o: Oid, ch: Change)
    requires Shows(s, i) && Shows(s', i') && t in i.active && (t, o) in i.handed && Ran(s, [UpdateHeld(t, o, ch)], s')
    ensures CallDone(CallUpdateHeld(t, o, ch), i, i')
  {
    SingleStep(s, UpdateHeld(t, o, ch), s');
    OneCellStored(s, i, s', i', o);
    SameRecords(s, i);
    SameRecords(s', i');
    Parts(s, i);
    UpdateHeldEffect(s, t, o, ch);
    if !HeldUpdatable(i.recs[o], t) {
      assert i'.recs[o] == i.recs[o];
      assert i'.recs.Keys == i.recs.Keys;
    }
  }

  lemma DeleteMeans(s: Db, i: Image, s': Db, i': Image, t: Xid, o: Oid, orphaned: bool)
    requires Shows(s, i) && Shows(s', i') && t in i.active && o in i.recs && i.recs[o].lock != t
    requires Ran(s, [Delete(t, o, orphaned)], s')
    ensures CallDone(CallDelete(t, o, orphaned), i, i')
  {
    SingleStep(s, Delete(t, o, orphaned), s');
    OneCellStored(s, i, s', i', o);
    SameRecords(s, i);
    SameRecords(s', i');
    Parts(s, i);
    DeleteEffect(s, t, o, orphaned);
  }

  lemma BeginMeans(s: Db, i: Image, s': Db, i': Image, t: Xid)
    requires Shows(s, i) && Shows(s', i') && i.last < t < INF && Ran(s, [Begin(t)], s')
    ensures CallDone(CallBegin(t), i, i')
  {
    SingleStep(s, Begin(t), s');
    SameRecords(s, i);
    SameRecords(s', i');
    Parts(s, i);
    Parts(s', i');
    assert i'.recs.Keys == i.recs.Keys by {
      forall o ensures o in i'.recs <==> o in i.recs {
        assert Present(s', o) <==> Present(s, o);
      }
    }
  }

  // ------------------------------------------------------------------ commit and abort

  /** The state after t has left the active set and finished the first n of its objects. */
  ghost predicate Finishing(s0: Db, t: Xid, commit: bool, n: nat, s: Db)
    requires t in s0.txs && n <= |s0.txs[t].todo|
  {
    var todo := s0.txs[t].todo;
    && Inv(s) && t in s.txs && s.txs[t] == Tx(if commit then Committing else Aborting, todo[n..])
    && HasLeft(s0.active, t, s.active, s.oldest) && s.cells.Keys == s0.cells.Keys
    && (forall o :: o in s0.cells && o !in todo[..n] ==> s.cells[o] == s0.cells[o])
    && (commit ==> forall o :: o in todo[..n] ==> CommittedIn(s0, s, t, o))
  }

  ghost predicate CommittedIn(s0: Db, s: Db, t: Xid, o: Oid) {
    Present(s0, o) && o in s.cells && s.cells[o].rec == CommitRecord(s0.cells[o].rec.value, t, s.oldest)
  }

  lemma {:induction false} FinishLeads(s0: Db, t: Xid, commit: bool, n: nat) returns (s: Db)
    requires Inv(s0) && IsActive(s0.txs, t) && n <= |s0.txs[t].todo|
    ensures CanRun(s0, FinishEvents(t, commit, n)) && s == Run(s0, FinishEvents(t, commit, n))
    ensures Finishing(s0, t, commit, n, s)
  {
    if n == 0 {
      var e := if commit then StartCommit(t) else StartAbort(t);
      OldestAdvances(s0, t, commit);
      RunSnoc(s0, [], e);
      assert [] + [e] == [e];
      s := Apply(s0, e);
      StepKeepsInv(s0, e);
      assert s0.txs[t].todo[0..] == s0.txs[t].todo;
    } else {
      var m := FinishLeads(s0, t, commit, n - 1);
      var e := if commit then CommitObject(t) else AbortObject(t);
      s := FinishOne(s0, t, commit, n - 1, m);
      RunSnoc(s0, FinishEvents(t, commit, n - 1), e);
    }
  }

  lemma FinishOne(s0: Db, t: Xid, commit: bool, n: nat, m: Db) returns (s: Db)
    requires Inv(s0) && t in s0.txs && n < |s0.txs[t].todo| && Finishing(s0, t, commit, n, m)
    ensures var e := if commit then CommitObject(t) else AbortObject(t);
            Enabled(m, e) && s == Apply(m, e) && Finishing(s0, t, commit, n + 1, s)
  {
    var e := if commit then CommitObject(t) else AbortObject(t);
    var o := s0.txs[t].todo[n];
    NextTodo(s0, t, n);
    s := Apply(m, e);
    StepKeepsInv(m, e);
    ObjectStored(m, t, commit, o);
    if commit {
      CommittedOn(s0, t, n, m, s);
    }
  }

  /** The next object of a dirty list is not among the first ones. */
  lemma NextTodo(s: Db, t: Xid, n: nat)
    requires Inv(s) && t in s.txs && n < |s.txs[t].todo|
    ensures var todo := s.txs[t].todo;
            todo[n..] == [todo[n]] + todo[n + 1..] && todo[..n + 1] == todo[..n] + [todo[n]] && todo[n] !in todo[..n]
  {
    Clauses(s);
  }

  /** One object is committed or aborted; nothing else of the tables changes. */
  lemma ObjectStored(m: Db, t: Xid, commit: bool, o: Oid)
    requires Inv(m) && Enabled(m, if commit then CommitObject(t) else AbortObject(t)) && m.txs[t].todo[0] == o
    ensures var s := Apply(m, if commit then CommitObject(t) else AbortObject(t));
            && s.txs[t] == m.txs[t].(todo := m.txs[t].todo[1..]) && s.active == m.active && s.oldest == m.oldest
            && o in m.cells && o in s.cells && s.cells == m.cells[o := s.cells[o]]
            && (commit ==> m.cells[o].rec.Some? && s.cells[o].rec == CommitRecord(m.cells[o].rec.value, t, m.oldest))
  {
    HeadLocked(m, t);
    if commit {
      CommitNeverThrows(m, t);
    }
  }

  lemma CommittedOn(s0: Db, t: Xid, n: nat, m: Db, s: Db)
    requires t in s0.txs && n < |s0.txs[t].todo| && s.oldest == m.oldest && s0.txs[t].todo[n] !in s0.txs[t].todo[..n]
    requires s0.txs[t].todo[..n + 1] == s0.txs[t].todo[..n] + [s0.txs[t].todo[n]]
    requires forall o :: o in s0.txs[t].todo[..n] ==> CommittedIn(s0, m, t, o)
    requires var o := s0.txs[t].todo[n];
             && o in m.cells && o in s0.cells && m.cells[o] == s0.cells[o] && m.cells[o].rec.Some? && o in s.cells && s.cells == m.cells[o := s.cells[o]]
             && s.cells[o].rec == CommitRecord(m.cells[o].rec.value, t, m.oldest)
    ensures forall o :: o in s0.txs[t].todo[..n + 1] ==> CommittedIn(s0, s, t, o)
  {
    forall p | p in s0.txs[t].todo[..n + 1] ensures CommittedIn(s0, s, t, p) {
      if p != s0.txs[t].todo[n] {
        assert CommittedIn(s0, m, t, p);
      }
    }
  }

  /** The commit of one object installs what its writer sees. */
  lemma CommitInstalls(txs: map<Xid, Tx>, c: Cell, t: Xid, oldest: nat)
    requires CellInv(txs, c) && c.rec.Some? && c.rec.value.lock == t && 0 < t < INF && CommitRecord(c.rec.value, t, oldest).Some?
    ensures var r' := CommitRecord(c.rec.value, t, oldest).value;
            && r'.lock == 0
            && match Describe(c.rec.value, t)
               case Some(content) => r'.bts == t && r'.cts == INF && r'.content == content
               case None => r'.cts == t
  {
    CellClauses(txs, c);
    OwnerAfterWrite(txs, c, t);
  }

  /** The state after a whole commit or abort. */
  lemma WholeFinish(s: Db, i: Image, s': Db, t: Xid, commit: bool) returns (m: Db)
    requires Shows(s, i) && t in i.active && t in i.dirty && Ran(s, FinishRun(t, commit, |i.dirty[t]|), s')
    ensures t in s.txs && s.txs[t].todo == i.dirty[t] && Finishing(s, t, commit, |i.dirty[t]|, m) && s' == Apply(m, Vacuum)
  {
    ActiveShown(s, i, t);
    Parts(s, i);
    var n := |i.dirty[t]|;
    m := FinishLeads(s, t, commit, n);
    RunSnoc(s, FinishEvents(t, commit, n), Vacuum);
    RanIsRun(s, FinishRun(t, commit, n), s');
  }

  lemma EndMeans(s: Db, i: Image, s': Db, i': Image, t: Xid, commit: bool)
    requires Shows(s, i) && Shows(s', i') && t in i.active && t in i.dirty && Ran(s, FinishRun(t, commit, |i.dirty[t]|), s')
    ensures Ended(i, i', t)
  {
    var m := WholeFinish(s, i, s', t, commit);
    VacuumIds(m, 0);
    Parts(s, i);
    Parts(s', i');
    SameRecords(s', i');
    forall o | o in i'.recs ensures i'.recs[o].lock != t && (i'.recs[o].cts != INF ==> Needed(i'.recs[o], i'.oldest)) {
      FinishedHoldsNoLock(s', t, o);
      if i'.recs[o].cts != INF {
        NeededAfter(m, o);
      }
    }
  }

  lemma CommitMeans(s: Db, i: Image, s': Db, i': Image, t: Xid, o: Oid)
    requires Shows(s, i) && Shows(s', i') && t in i.active && t in i.dirty && Ran(s, FinishRun(t, true, |i.dirty[t]|), s')
    requires o in i.recs && i.recs[o].lock == t
    ensures Installed(i, i', t, o)
  {
    var m := WholeFinish(s, i, s', t, true);
    ActiveShown(s, i, t);
    Parts(s, i);
    SameRecords(s, i);
    SameRecords(s', i');
    XidShown(s, i, t);
    Clauses(s);
    CellOf(s, o);
    var todo := s.txs[t].todo;
    assert o in todo && todo[..|todo|] == todo;
    assert CommittedIn(s, m, t, o);
    CommittedPresent(s, m, t, o);
    CommitInstalls(s.txs, s.cells[o], t, m.oldest);
    VacuumRemoves(m, o);
  }

  lemma CommittedPresent(s0: Db, s: Db, t: Xid, o: Oid)
    requires Inv(s0) && LockedBy(s0, o, t) && t != 0 && t in s0.txs && CommittedIn(s0, s, t, o)
    ensures Present(s, o)
  {
    CellOf(s0, o);
    CellClauses(s0.txs, s0.cells[o]);
  }

  // -------------------------------------------------------------------- every history

  lemma CallMeans(call: Call, s: Db, i: Image, s': Db, i': Image)
    requires Shows(s, i) && Shows(s', i') && Ran(s, StepsOf(call, i), s')
    ensures CallDone(call, i, i')
  {
    match call
    case CallBegin(t) => if i.last < t < INF { BeginMeans(s, i, s', i', t); }
    case CallRead(t, o) => if t in i.active && o in i.recs { ReadMeans(s, i, s', i', t, o); }
    case CallInsert(t, o, c) => if t in i.active && o !in i.used { InsertMeans(s, i, s', i', t, o, c); }
    case CallUpdate(t, o, ch) => if t in i.active && o in i.recs { UpdateMeans(s, i, s', i', t, o, ch); }
    case CallUpdateHeld(t, o, ch) => if t in i.active && (t, o) in i.handed { UpdateHeldMeans(s, i, s', i', t, o, ch); }
    case CallDelete(t, o, orphaned) =>
      if t in i.active && o in i.recs && i.recs[o].lock != t { DeleteMeans(s, i, s', i', t, o, orphaned); }
    case CallCommit(t) =>
      if t in i.active {
        ActiveShown(s, i, t);
        EndMeans(s, i, s', i', t, true);
        forall o | o in i.recs && i.recs[o].lock == t ensures Installed(i, i', t, o) {
          CommitMeans(s, i, s', i', t, o);
        }
      }
    case CallAbort(t) =>
      if t in i.active {
        ActiveShown(s, i, t);
        EndMeans(s, i, s', i', t, false);
      }
  }

  /** In every sequence of calls on a new database each call does what it promises. */
  method CallsDone(calls: seq<Call>) returns (db: GraphDb, ghost images: seq<Image>)
    ensures fresh(db) && db.Valid() && |images| == |calls| + 1 && images[|calls|] == db.Value()
    ensures forall k :: 0 <= k < |calls| ==> CallDone(calls[k], images[k], images[k + 1])
  {
    ghost var states;
    db, states, images := CallsAreSerial(calls);
    forall k | 0 <= k < |calls| ensures CallDone(calls[k], images[k], images[k + 1]) {
      CallMeans(calls[k], states[k], images[k], states[k + 1], images[k + 1]);
    }
  }
}
