/** Serializability: in every run, reads and the final records are those of the
    committed transactions run alone, one after the other, in id order. */
module MvtoSerial {
  import opened Wrappers
  import opened Mvto
  import opened MvtoInvariant
  import opened MvtoSteps
  import opened MvtoRuns

  // ------------------------------------------------------- the serial execution

  function ApplyAll(c: Content, changes: seq<Change>): Content
    decreases |changes|
  {
    if changes == [] then c
    else Updated(ApplyAll(c, changes[..|changes| - 1]), changes[|changes| - 1])
  }

  function ApplyOp(op: Op, current: Option<Content>): Option<Content> {
    match op
    case Put(c) => Some(c)
    case Edit(_, changes) => if current.Some? then Some(ApplyAll(current.value, changes)) else None
    case Drop => None
  }

  function Get(store: map<Oid, Content>, o: Oid): Option<Content> {
    if o in store then Some(store[o]) else None
  }

  function After(s: Db, t: Xid, o: Oid, store: map<Oid, Content>): Option<Content>
    requires o in s.cells
  {
    if t in s.cells[o].ops then ApplyOp(s.cells[o].ops[t], Get(store, o)) else Get(store, o)
  }

  /** The operations of transaction t executed alone on a plain store. */
  function RunAlone(s: Db, t: Xid, store: map<Oid, Content>): map<Oid, Content> {
    map o | o in s.cells && After(s, t, o, store).Some? :: After(s, t, o, store).value
  }

  /** All committed transactions with id below n, executed in id order. */
  function SerialRun(s: Db, n: nat): map<Oid, Content> {
    if n == 0 then map[]
    else
      var before := SerialRun(s, n - 1);
      if Committed(s.txs, n - 1) then RunAlone(s, n - 1, before) else before
  }

  // ------------------------------------------------ operations explain the writes

  /** The operation of w yields its write; a change was applied to the largest
      committed version below w. */
  ghost predicate OpOk(txs: map<Xid, Tx>, c: Cell, w: Xid)
    requires w in c.writes && w in c.ops
  {
    match c.ops[w]
    case Put(content) =>
      && c.writes[w] == Some(content)
      && forall x :: x in c.writes && Committed(txs, x) ==> w <= x
    case Drop => c.writes[w] == None
    case Edit(base, changes) =>
      && LatestBelow(txs, c.writes, w, base) && c.writes[base].Some?
      && c.writes[w] == Some(ApplyAll(c.writes[base].value, changes))
  }

  ghost predicate CellOps(txs: map<Xid, Tx>, c: Cell) {
    && c.ops.Keys == c.writes.Keys
    && forall w :: w in c.writes && (Committed(txs, w) || IsActive(txs, w)) ==> OpOk(txs, c, w)
  }

  ghost predicate OpsInv(s: Db) {
    forall o :: o in s.cells ==> CellOps(s.txs, s.cells[o])
  }

  /** Replacing the write of a transaction that has not committed. */
  lemma PendingKeepsOps(txs: map<Xid, Tx>, c: Cell, c': Cell, t: Xid)
    requires CellOps(txs, c) && !Committed(txs, t) && t in c'.writes && t in c'.ops
    requires c'.writes == c.writes[t := c'.writes[t]] && c'.ops == c.ops[t := c'.ops[t]]
    requires OpOk(txs, c', t)
    ensures CellOps(txs, c')
  {
    forall w | w in c'.writes && w != t && (Committed(txs, w) || IsActive(txs, w)) ensures OpOk(txs, c', w) {
      assert OpOk(txs, c, w);
    }
  }

  lemma ApplyAllSnoc(c: Content, changes: seq<Change>, ch: Change)
    ensures ApplyAll(c, changes + [ch]) == Updated(ApplyAll(c, changes), ch)
    ensures ApplyAll(c, [ch]) == Updated(c, ch)
  {
    assert (changes + [ch])[..|changes|] == changes;
    assert [ch][..0] == [] && ApplyAll(c, []) == c;
  }

  lemma UpdateKeepsOps(txs: map<Xid, Tx>, c: Cell, f: Fetch, t: Xid, ch: Change)
    requires CellInv(txs, c) && CellOps(txs, c)
    requires IsActive(txs, t) && 0 < t < INF && HasReference(c, f, t)
    ensures CellOps(txs, UpdateCell(c, f, t, ch))
  {
    CellClauses(txs, c);
    if UpdateVia(c.rec.value, f, t, ch).Some? {
      if c.rec.value.lock == t {
        NextWriteShape(txs, c, f, t, ch);
        NextOpOk(txs, c, UpdateCell(c, f, t, ch), t, ch);
      } else {
        FirstWriteShape(txs, c, f, t, ch);
        ApplyAllSnoc(c.rec.value.content, [], ch);
      }
      PendingKeepsOps(txs, c, UpdateCell(c, f, t, ch), t);
    }
  }

  lemma NextOpOk(txs: map<Xid, Tx>, c: Cell, c': Cell, t: Xid, ch: Change)
    requires CellOps(txs, c) && IsActive(txs, t) && t != 0 && c.rec.Some? && c.rec.value.lock == t && t in c.writes
    requires c'.ops == c.ops[t := NextOp(c, t, ch)]
    requires c'.writes == c.writes[t := if c.writes[t].None? then None else Some(Updated(c.writes[t].value, ch))]
    ensures OpOk(txs, c', t)
  {
    assert OpOk(txs, c, t);
    if c.ops[t].Edit? {
      ApplyAllSnoc(c.writes[c.ops[t].base].value, c.ops[t].changes, ch);
    }
  }

  /** What a first update leaves behind. */
  lemma FirstWriteShape(txs: map<Xid, Tx>, c: Cell, f: Fetch, t: Xid, ch: Change)
    requires CellInv(txs, c) && IsActive(txs, t) && 0 < t < INF && HasReference(c, f, t)
    requires c.rec.value.lock != t && UpdateVia(c.rec.value, f, t, ch).Some?
    ensures var c' := UpdateCell(c, f, t, ch);
            var r := c.rec.value;
            && c'.writes == c.writes[t := Some(Updated(r.content, ch))] && c'.ops == c.ops[t := Edit(r.bts, [ch])]
            && t !in c.writes && LatestBelow(txs, c'.writes, t, r.bts) && c.writes[r.bts] == Some(r.content)
            && c'.snap == Some(r) && c'.rec == Some(PushCopies(r, t, Updated(r.content, ch), false))
  {
    CellClauses(txs, c);
    var r := c.rec.value;
    if f.Dirty? {
      StaleReferenceThrows(txs, c, t, ch);
    }
    NoneOwned(txs, c, t);
    var u := UpdateVia(r, f, t, ch);
    assert u.value == PushCopies(r, t, Updated(r.content, ch), false);
    assert DirtyVersionOf(u.value.dirty, t, 0) == 0;
    assert r.rts == t && r.bts <= t < r.cts by {
      if t in c.held { assert HeldOk(c, t); }
    }
    assert Settled(txs, c.writes, r);
    assert forall w :: w in c.writes ==> WriterOk(txs, c, w);
  }

  /** What a later update leaves behind. */
  lemma NextWriteShape(txs: map<Xid, Tx>, c: Cell, f: Fetch, t: Xid, ch: Change)
    requires CellInv(txs, c) && IsActive(txs, t) && 0 < t < INF && HasReference(c, f, t)
    requires c.rec.value.lock == t && UpdateVia(c.rec.value, f, t, ch).Some?
    ensures var c' := UpdateCell(c, f, t, ch);
            && t in c.writes && c'.ops == c.ops[t := NextOp(c, t, ch)]
            && c'.writes == c.writes[t := if c.writes[t].None? then None else Some(Updated(c.writes[t].value, ch))]
  {
    CellClauses(txs, c);
    var r := c.rec.value;
    assert r.dirty[0].lock == t;
    assert DirtyVersionOf(r.dirty, t, 0) == 0;
    if f.Dirty? {
      assert f.k == 0;
      assert r.dirty[0 := r.dirty[0].(lock := t)] == r.dirty;
    }
    var v := r.dirty[0];
    assert UpdateVia(r, f, t, ch).value == r.(dirty := r.dirty[0 := v.(content := Updated(v.content, ch))]);
    assert DirtyVersionOf(UpdateVia(r, f, t, ch).value.dirty, t, 0) == 0;
  }

  lemma DeleteKeepsOps(txs: map<Xid, Tx>, c: Cell, f: Fetch, t: Xid)
    requires CellInv(txs, c) && CellOps(txs, c) && IsActive(txs, t) && 0 < t < INF
    requires HasReference(c, f, t) && f == NodeById(c.rec.value, t) && c.rec.value.lock != t
    ensures CellOps(txs, DeleteCell(c, f, t))
  {
    CellClauses(txs, c);
    var c' := DeleteCell(c, f, t);
    if DeleteVia(c.rec.value, f, t).Some? {
      if f.Dirty? { StaleReferenceThrows(txs, c, t, Change(0, map[])); }
      forall w | w in c'.writes && w != t && (Committed(txs, w) || IsActive(txs, w)) ensures OpOk(txs, c', w) {
        assert OpOk(txs, c, w);
        assert WriterOk(txs, c, w);
      }
    }
  }

  /** Only its lock owner can commit a new write of an object, and the owner is
      above every earlier committed writer. */
  lemma PhaseKeepsOps(txs: map<Xid, Tx>, c: Cell, t: Xid, phase: Phase)
    requires CellInv(txs, c) && CellOps(txs, c) && IsActive(txs, t) && 0 < t < INF && !phase.Active?
    ensures CellOps(txs[t := txs[t].(phase := phase)], c)
  {
    CellClauses(txs, c);
    var txs' := txs[t := txs[t].(phase := phase)];
    assert forall w :: w in c.writes ==> WriterOk(txs, c, w);
    forall w | w in c.writes && (Committed(txs', w) || IsActive(txs', w)) ensures OpOk(txs', c, w) {
      assert OpOk(txs, c, w);
    }
  }

  lemma BeginKeepsOps(txs: map<Xid, Tx>, c: Cell, t: Xid)
    requires CellInv(txs, c) && CellOps(txs, c) && t !in txs && t != 0
    ensures CellOps(txs[t := Tx(Active, [])], c)
  {
    CellClauses(txs, c);
    var txs' := txs[t := Tx(Active, [])];
    assert forall w :: w in c.writes ==> WriterOk(txs, c, w);
    forall w | w in c.writes && (Committed(txs', w) || IsActive(txs', w)) ensures OpOk(txs', c, w) {
      assert OpOk(txs, c, w);
    }
  }

  /** Changes of dirty lists, records, reads and handles do not matter. */
  lemma SameHistoryKeepsOps(txs: map<Xid, Tx>, txs': map<Xid, Tx>, c: Cell, c': Cell)
    requires CellOps(txs, c) && c'.writes == c.writes && c'.ops == c.ops
    requires txs'.Keys == txs.Keys && forall t :: t in txs ==> txs'[t].phase == txs[t].phase
    ensures CellOps(txs', c')
  {
    forall w | w in c'.writes && (Committed(txs', w) || IsActive(txs', w)) ensures OpOk(txs', c', w) {
      assert OpOk(txs, c, w);
    }
  }

  lemma VacuumKeepsOps(s: Db, k: nat)
    requires OpsInv(s) && k <= |s.garbage|
    ensures OpsInv(VacuumFrom(s, k)) && VacuumFrom(s, k).txs == s.txs
    decreases |s.garbage| - k
  {
    if k < |s.garbage| {
      var o := s.garbage[k];
      if !Present(s, o) {
        VacuumKeepsOps(s, k + 1);
      } else {
        var c := VacuumCell(s.cells[o], s.oldest);
        SameHistoryKeepsOps(s.txs, s.txs, s.cells[o], c);
        if c.rec.None? {
          VacuumKeepsOps(s.(cells := s.cells[o := c], garbage := s.garbage[..k] + s.garbage[k + 1..]), k);
        } else {
          VacuumKeepsOps(s.(cells := s.cells[o := c]), k + 1);
        }
      }
    }
  }

  /** The cell that a write event stores satisfies the history invariant. */
  lemma WriteKeepsOps(s: Db, e: Event)
    requires Inv(s) && OpsInv(s) && Enabled(s, e)
    requires e.UpdateFetched? || e.UpdateHeld? || e.Delete? || e.Insert? || e.ReadNode?
    ensures CellOps(s.txs, Apply(s, e).cells[e.o])
  {
    Clauses(s);
    if !e.Insert? {
      var c0 := s.cells[e.o];
      FetchKeeps(s.txs, c0, e.t);
      var c := FetchCell(c0, e.t);
      SameHistoryKeepsOps(s.txs, s.txs, c0, c);
      match e
      case UpdateFetched(t, o, ch) => UpdateKeepsOps(s.txs, c, NodeById(c.rec.value, t), t, ch);
      case UpdateHeld(t, o, ch) => UpdateKeepsOps(s.txs, c0, Main, t, ch);
      case Delete(t, o, _) => DeleteKeepsOps(s.txs, c, NodeById(c.rec.value, t), t);
      case _ =>
    }
  }

  /** Steps that only change phases or the dirty lists. */
  lemma TransactionKeepsOps(s: Db, e: Event)
    requires Inv(s) && OpsInv(s) && Enabled(s, e)
    requires e.Begin? || e.StartCommit? || e.StartAbort?
    ensures OpsInv(Apply(s, e))
  {
    Clauses(s);
    forall o | o in s.cells ensures CellOps(Apply(s, e).txs, s.cells[o]) {
      match e
      case Begin(t) => BeginKeepsOps(s.txs, s.cells[o], t);
      case StartCommit(t) => PhaseKeepsOps(s.txs, s.cells[o], t, Committing);
      case StartAbort(t) => PhaseKeepsOps(s.txs, s.cells[o], t, Aborting);
    }
  }

  /** Storing one cell while the phases stay as they are. */
  lemma StoreKeepsOps(s: Db, s': Db, o: Oid, c: Cell)
    requires OpsInv(s) && CellOps(s.txs, c) && s'.cells == s.cells[o := c]
    requires s'.txs.Keys == s.txs.Keys && forall t :: t in s.txs ==> s'.txs[t].phase == s.txs[t].phase
    ensures OpsInv(s')
  {
    forall p | p in s'.cells ensures CellOps(s'.txs, s'.cells[p]) {
      SameHistoryKeepsOps(s.txs, s'.txs, s'.cells[p], s'.cells[p]);
    }
  }

  lemma FinishKeepsOps(s: Db, e: Event)
    requires Inv(s) && OpsInv(s) && Enabled(s, e) && (e.CommitObject? || e.AbortObject?)
    ensures OpsInv(Apply(s, e))
  {
    HeadLocked(s, e.t);
    var s' := Apply(s, e);
    var o := s.txs[e.t].todo[0];
    SameHistoryKeepsOps(s.txs, s.txs, s.cells[o], s'.cells[o]);
    StoreKeepsOps(s, s', o, s'.cells[o]);
  }

  lemma StepKeepsOps(s: Db, e: Event)
    requires Inv(s) && OpsInv(s) && Enabled(s, e)
    ensures OpsInv(Apply(s, e))
  {
    var s' := Apply(s, e);
    if e.Vacuum? {
      VacuumKeepsOps(s, 0);
    } else if e.Begin? || e.StartCommit? || e.StartAbort? {
      TransactionKeepsOps(s, e);
    } else if e.CommitObject? || e.AbortObject? {
      FinishKeepsOps(s, e);
    } else {
      WriteKeepsOps(s, e);
      StoreKeepsOps(s, s', e.o, s'.cells[e.o]);
    }
  }

  lemma {:induction false} RunKeepsOps(s: Db, es: seq<Event>)
    requires Inv(s) && OpsInv(s) && CanRun(s, es)
    ensures Inv(Run(s, es)) && OpsInv(Run(s, es))
    decreases |es|
  {
    if es != [] {
      StepKeepsInv(s, es[0]);
      StepKeepsOps(s, es[0]);
      RunKeepsOps(Apply(s, es[0]), es[1..]);
    }
  }

  // --------------------------------------------------------------- the theorem

  /** w is the largest committed writer of c below n, if there is one. */
  ghost predicate IsLatest(txs: map<Xid, Tx>, c: Cell, n: nat, w: Option<Xid>) {
    if w.Some? then LatestBelow(txs, c.writes, n, w.value)
    else forall x :: x in c.writes && Committed(txs, x) ==> n <= x
  }

  /** The serial run leaves in o what the largest committed writer wrote. */
  lemma {:induction false} SerialRunIsLatest(s: Db, o: Oid, n: nat, w: Option<Xid>)
    requires o in s.cells && CellOps(s.txs, s.cells[o]) && IsLatest(s.txs, s.cells[o], n, w)
    ensures Get(SerialRun(s, n), o) == if w.Some? then s.cells[o].writes[w.value] else None
  {
    if n > 0 {
      var c := s.cells[o];
      var t := n - 1;
      if Committed(s.txs, t) && t in c.writes {
        assert w == Some(t);
        assert OpOk(s.txs, c, t);
        if c.ops[t].Edit? {
          SerialRunIsLatest(s, o, t, Some(c.ops[t].base));
        }
      } else {
        SerialRunIsLatest(s, o, t, w);
      }
    }
  }

  /** In every run from an initial database: each successful read by a
      transaction of an object it had not written returns what the committed
      transactions below it, run alone in id order, would have left there, even
      those that committed after the read. */
  lemma ReadsAreSerial(s0: Db, es: seq<Event>, o: Oid, rd: Read)
    requires Init(s0) && CanRun(s0, es)
    requires o in Run(s0, es).cells && rd in Run(s0, es).cells[o].seen
    ensures Get(SerialRun(Run(s0, es), rd.xid), o) == Some(rd.content)
  {
    InitOps(s0);
    RunKeepsOps(s0, es);
    var s := Run(s0, es);
    CellOf(s, o);
    CellClauses(s.txs, s.cells[o]);
    assert ReadOk(s.txs, s.cells[o], rd);
    SerialRunIsLatest(s, o, rd.xid, Some(rd.writer));
  }

  lemma SettledLatest(s: Db, o: Oid) returns (w: Xid)
    requires Inv(s) && Present(s, o) && s.cells[o].rec.value.lock == 0
    ensures var r := s.cells[o].rec.value;
            && LatestBelow(s.txs, s.cells[o].writes, s.last + 1, w)
            && s.cells[o].writes[w] == if r.cts == INF then Some(r.content) else None
  {
    Clauses(s);
    CellClauses(s.txs, s.cells[o]);
    var c := s.cells[o];
    var r := c.rec.value;
    w := if r.cts == INF then r.bts else r.cts;
    assert Settled(s.txs, c.writes, r);
    assert forall x :: x in c.writes ==> WriterOk(s.txs, c, x);
  }

  /** In every run, a record that nobody is writing holds what the serial run of
      all committed transactions leaves; a deleted one is absent there. */
  lemma RecordsAreSerial(s0: Db, es: seq<Event>, o: Oid)
    requires Init(s0) && CanRun(s0, es)
    requires Present(Run(s0, es), o) && Run(s0, es).cells[o].rec.value.lock == 0
    ensures var s := Run(s0, es);
            var r := s.cells[o].rec.value;
            Get(SerialRun(s, s.last + 1), o) == if r.cts == INF then Some(r.content) else None
  {
    InitOps(s0);
    RunKeepsOps(s0, es);
    RecordIsSerial(Run(s0, es), o);
  }

  lemma RecordIsSerial(s: Db, o: Oid)
    requires Inv(s) && OpsInv(s) && Present(s, o) && s.cells[o].rec.value.lock == 0
    ensures var r := s.cells[o].rec.value;
            Get(SerialRun(s, s.last + 1), o) == if r.cts == INF then Some(r.content) else None
  {
    var w := SettledLatest(s, o);
    SerialRunIsLatest(s, o, s.last + 1, Some(w));
  }

  lemma InitOps(s: Db)
    requires Init(s)
    ensures Inv(s) && OpsInv(s)
  {
    InitInv(s);
  }
}
