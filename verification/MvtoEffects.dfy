/** What a call means to its caller: when it succeeds, and what the caller then sees, with
    every comparison and every value written out. */
module MvtoEffects {
  import opened Wrappers
  import opened Mvto
  import opened MvtoInvariant
  import opened MvtoSteps
  import opened MvtoRuns
  import opened MvtoSerial
  import opened MvtoVisibility

  // ------------------------------------------------------------------- one change

  /** c' is c after a change: the new label if there is one, the new value of every changed
      property, and the old value, or no value, of every other one. */
  ghost predicate Edited(c: Content, ch: Change, c': Content) {
    && c'.labelCode == (if ch.labelCode > 0 then ch.labelCode else c.labelCode)
    && (forall k :: k in ch.props ==> k in c'.props && c'.props[k] == ch.props[k])
    && (forall k :: k !in ch.props ==> (k in c'.props <==> k in c.props))
    && (forall k :: k !in ch.props && k in c.props ==> c'.props[k] == c.props[k])
  }

  lemma UpdatedIsEdited(c: Content, ch: Change)
    ensures Edited(c, ch, Updated(c, ch))
  {
  }

  // ------------------------------------------------------------------ kinds of answers

  /** The scan for i ends at version v: it is valid, or i has deleted the object. */
  predicate Ends(v: Version, i: Xid) {
    (v.lock == 0 || v.lock == i) && (v.bts <= i < v.cts || (v.lock == i && v.bts == v.cts))
  }

  /** The answer of `find_valid_version`: the first version at which the scan ends, if it
      is valid, and an unknown id if it is a deletion by i itself. */
  lemma {:induction false} ScanEnds(vs: seq<Version>, i: Xid, k: nat, abort: bool, j: nat)
    requires k <= j < |vs| && Ends(vs[j], i) && forall m :: k <= m < j ==> !Ends(vs[m], i)
    ensures FindValid(vs, i, k, abort) == if vs[j].bts <= i < vs[j].cts then Dirty(j) else UnknownId
    decreases |vs| - k
  {
    if k < j {
      ScanEnds(vs, i, k + 1, abort, j);
      ScanEnds(vs, i, k + 1, true, j);
    }
  }

  /** If it ends at none: a demand to abort if i can read some version, else an unknown id. */
  lemma {:induction false} ScanRunsOut(vs: seq<Version>, i: Xid, k: nat, abort: bool)
    requires k <= |vs| && forall m :: k <= m < |vs| ==> !Ends(vs[m], i)
    ensures FindValid(vs, i, k, abort) ==
            if abort || exists m :: k <= m < |vs| && (vs[m].lock == 0 || vs[m].lock == i) then MustAbort else UnknownId
    decreases |vs| - k
  {
    if k < |vs| {
      ScanRunsOut(vs, i, k + 1, abort);
      ScanRunsOut(vs, i, k + 1, true);
    }
  }

  /** The answer of `node_by_id`: the main record if it is not locked and valid, else that
      of the scan. */
  lemma FetchExact(r: Record, i: Xid)
    ensures NodeById(r, i) == Main <==> r.lock == 0 && r.bts <= i < r.cts
    ensures !(r.lock == 0 && r.bts <= i < r.cts) ==> NodeById(r, i) == FindValid(r.dirty, i, 0, false)
  {
  }

  /** An owner that has deleted the object gets an unknown id, and never an abort. */
  lemma OwnerAfterDelete(s: Db, o: Oid, t: Xid)
    requires Inv(s) && LockedBy(s, o, t) && t in s.txs && t in s.cells[o].writes && s.cells[o].writes[t].None?
    ensures NodeById(s.cells[o].rec.value, t) == UnknownId
  {
    Clauses(s);
    CellOf(s, o);
    CellClauses(s.txs, s.cells[o]);
    var r := s.cells[o].rec.value;
    assert Ends(r.dirty[0], t);
    ScanEnds(r.dirty, t, 0, false, 0);
  }

  /** An owner that has not deleted it gets its own version. */
  lemma OwnerAfterWrite(txs: map<Xid, Tx>, c: Cell, t: Xid)
    requires CellInv(txs, c) && c.rec.Some? && c.rec.value.lock == t && 0 < t < INF
    ensures var r := c.rec.value;
            && |r.dirty| > 0 && r.dirty[0].lock == t && r.dirty[0].rts <= t && r.cts == INF && Ends(r.dirty[0], t)
            && (r.dirty[0].cts == INF || r.dirty[0].bts == r.dirty[0].cts == t)
            && NodeById(r, t) == (if r.dirty[0].cts == INF then Dirty(0) else UnknownId)
            && Describe(r, t) == if r.dirty[0].cts == INF then Some(r.dirty[0].content) else None
  {
    CellClauses(txs, c);
    ScanEnds(c.rec.value.dirty, t, 0, false, 0);
  }

  // -------------------------------------------------------------------------- updates

  /** The content that t would write next: that of its own version, else of the record. */
  function OwnContent(r: Record, t: Xid): Content {
    var k := DirtyVersionOf(r.dirty, t, 0);
    if k < |r.dirty| then r.dirty[k].content else r.content
  }

  /** Every accepted update, through the main record or an own version, edits it. */
  lemma UpdateEdits(r: Record, f: Fetch, t: Xid, ch: Change)
    requires f.Dirty? ==> f.k < |r.dirty| && r.dirty[f.k].lock == t
    requires UpdateVia(r, f, t, ch).Some?
    ensures Edited(OwnContent(r, t), ch, OwnContent(UpdateVia(r, f, t, ch).value, t))
  {
    var k := DirtyVersionOf(r.dirty, t, 0);
    var r' := UpdateVia(r, f, t, ch).value;
    if f.Dirty? {
      assert r.dirty[f.k := r.dirty[f.k].(lock := t)] == r.dirty;
    }
    if k < |r.dirty| {
      var c' := Updated(r.dirty[k].content, ch);
      SameOwner(r.dirty, t, k, c');
      UpdatedIsEdited(r.dirty[k].content, ch);
    } else {
      assert DirtyVersionOf(r'.dirty, t, 0) == 0;
      UpdatedIsEdited(r.content, ch);
    }
  }

  lemma SameOwner(vs: seq<Version>, t: Xid, k: nat, c: Content)
    requires k < |vs| && DirtyVersionOf(vs, t, 0) == k
    ensures DirtyVersionOf(vs[k := vs[k].(content := c)], t, 0) == k
  {
    var vs' := vs[k := vs[k].(content := c)];
    var j := DirtyVersionOf(vs', t, 0);
    assert vs'[k].lock == t && forall i :: 0 <= i < k ==> vs'[i].lock == vs[i].lock != t;
  }

  /** Nobody else is writing the object, nobody younger than t has read or written it, and
      t has not deleted it. */
  ghost predicate Updatable(r: Record, t: Xid) {
    if r.lock == t then Describe(r, t).Some? else r.lock == 0 && r.bts <= t < r.cts && r.rts <= t
  }

  /** A main record fetched before: what was valid then need not be checked again. */
  predicate HeldUpdatable(r: Record, t: Xid) {
    (r.lock == t || r.lock == 0) && r.rts <= t
  }

  /** What t sees before and after a successful update. */
  ghost predicate EditSeen(before: Option<Content>, ch: Change, after: Option<Content>) {
    match before
    case None => after == None
    case Some(c) => after.Some? && Edited(c, ch, after.value)
  }

  /** A main record that nobody is writing and that t may write is seen by t. */
  lemma FreeRecord(txs: map<Xid, Tx>, c: Cell, t: Xid)
    requires CellInv(txs, c) && c.rec.Some? && IsActive(txs, t) && 0 < t < INF
    requires c.rec.value.lock == 0 && c.rec.value.rts <= t && t < c.rec.value.cts
    ensures var r := c.rec.value;
            r.cts == INF && (forall v :: v in r.dirty ==> v.lock != t) && (r.bts <= t ==> Describe(r, t) == Some(r.content))
  {
    CellClauses(txs, c);
    NoneOwned(txs, c, t);
  }

  lemma PushedSeen(r: Record, t: Xid, content: Content)
    requires 0 < t < INF && r.lock == 0
    ensures Describe(PushCopies(r, t, content, false), t) == Some(content)
    ensures NodeById(PushCopies(r, t, content, true), t) == UnknownId
  {
    var r1, r2 := PushCopies(r, t, content, false), PushCopies(r, t, content, true);
    assert Ends(r1.dirty[0], t) && Ends(r2.dirty[0], t);
    ScanEnds(r1.dirty, t, 0, false, 0);
    ScanEnds(r2.dirty, t, 0, false, 0);
  }

  lemma OwnUpdated(txs: map<Xid, Tx>, c: Cell, f: Fetch, t: Xid, ch: Change)
    requires CellInv(txs, c) && c.rec.Some? && c.rec.value.lock == t && 0 < t < INF
    requires f == Main || (f == Dirty(0) && |c.rec.value.dirty| > 0)
    ensures var u := UpdateVia(c.rec.value, f, t, ch);
            && (u.Some? <==> f == Dirty(0) || c.rec.value.rts <= t)
            && (u.Some? ==> EditSeen(Describe(c.rec.value, t), ch, Describe(u.value, t)))
  {
    OwnerAfterWrite(txs, c, t);
    var r := c.rec.value;
    var v := r.dirty[0];
    assert DirtyVersionOf(r.dirty, t, 0) == 0;
    assert r.dirty[0 := v.(lock := t)] == r.dirty;
    var r' := r.(dirty := r.dirty[0 := v.(content := Updated(v.content, ch))]);
    var u := UpdateVia(r, f, t, ch);
    assert u.Some? ==> u.value == r';
    assert Ends(v, t) && Ends(r'.dirty[0], t);
    ScanEnds(r'.dirty, t, 0, false, 0);
    UpdatedIsEdited(v.content, ch);
  }

  /** An update through a fetch succeeds exactly if the object is updatable, and then its
      caller sees the change. */
  lemma FetchedUpdate(txs: map<Xid, Tx>, c: Cell, t: Xid, ch: Change)
    requires CellInv(txs, c) && c.rec.Some? && IsActive(txs, t) && 0 < t < INF
    ensures var r := SetRts(c.rec.value, t);
            var u := UpdateVia(r, NodeById(r, t), t, ch);
            && (u.Some? <==> Updatable(c.rec.value, t))
            && (u.Some? ==> Describe(c.rec.value, t).Some? && EditSeen(Describe(c.rec.value, t), ch, Describe(u.value, t)))
  {
    var c1 := c.(rec := Some(SetRts(c.rec.value, t)));
    var r := c1.rec.value;
    SetRtsKeeps(txs, c, t);
    assert Describe(r, t) == Describe(c.rec.value, t);
    if r.lock == t {
      OwnerAfterWrite(txs, c1, t);
      if NodeById(r, t).Dirty? {
        OwnUpdated(txs, c1, NodeById(r, t), t, ch);
      }
    } else {
      FirstUpdate(txs, c1, NodeById(r, t), t, ch);
    }
  }

  /** A first write succeeds through the main record only. */
  lemma FirstUpdate(txs: map<Xid, Tx>, c: Cell, f: Fetch, t: Xid, ch: Change)
    requires CellInv(txs, c) && c.rec.Some? && c.rec.value.lock != t && IsActive(txs, t) && 0 < t < INF
    requires f == NodeById(c.rec.value, t) || (f == Main && t in c.held)
    ensures var r := c.rec.value;
            var u := UpdateVia(r, f, t, ch);
            && (u.Some? <==> f == Main && r.lock == 0 && r.rts <= t)
            && (u.Some? ==> Describe(r, t).Some? && EditSeen(Describe(r, t), ch, Describe(u.value, t)))
  {
    CellClauses(txs, c);
    var r := c.rec.value;
    if f.Dirty? {
      StaleReferenceThrows(txs, c, t, ch);
    } else if f.Main? && r.lock == 0 && r.rts <= t {
      assert t < r.cts && r.bts <= t by {
        if t in c.held { assert HeldOk(c, t); }
      }
      FreeRecord(txs, c, t);
      PushedSeen(r, t, Updated(r.content, ch));
      UpdatedIsEdited(r.content, ch);
    }
  }

  /** The same through a main record fetched before. */
  lemma HeldUpdate(txs: map<Xid, Tx>, c: Cell, t: Xid, ch: Change)
    requires CellInv(txs, c) && c.rec.Some? && IsActive(txs, t) && 0 < t < INF && t in c.held
    ensures var u := UpdateMain(c.rec.value, t, ch);
            && (u.Some? <==> HeldUpdatable(c.rec.value, t))
            && (u.Some? ==> EditSeen(Describe(c.rec.value, t), ch, Describe(u.value, t)))
  {
    if c.rec.value.lock == t {
      OwnUpdated(txs, c, Main, t, ch);
    } else {
      FirstUpdate(txs, c, Main, t, ch);
    }
  }

  /** In every reachable state: a fetch and an update by an active transaction. */
  lemma UpdateFetchedEffect(s: Db, t: Xid, o: Oid, ch: Change)
    requires Inv(s) && Enabled(s, UpdateFetched(t, o, ch))
    ensures var s' := Apply(s, UpdateFetched(t, o, ch));
            if Updatable(s.cells[o].rec.value, t)
            then LockedBy(s', o, t) && Sees(s, o, t).Some? && EditSeen(Sees(s, o, t), ch, Sees(s', o, t))
            else o in s'.cells && s'.cells[o].rec == Some(SetRts(s.cells[o].rec.value, t))
  {
    ActiveId(s, t);
    CellOf(s, o);
    FetchedUpdate(s.txs, s.cells[o], t, ch);
    FetchKeeps(s.txs, s.cells[o], t);
    var c := FetchCell(s.cells[o], t);
    UpdateKeeps(s.txs, c, NodeById(c.rec.value, t), t, ch);
    LocksAgree(c, NodeById(c.rec.value, t), t, ch);
  }

  lemma LocksAgree(c: Cell, f: Fetch, t: Xid, ch: Change)
    requires c.rec.Some? && (f.Dirty? ==> f.k < |c.rec.value.dirty|)
    ensures var u := UpdateVia(c.rec.value, f, t, ch);
            UpdateCell(c, f, t, ch).rec == if u.Some? then u else c.rec
  {
  }

  /** And an update through a main record fetched before. */
  lemma UpdateHeldEffect(s: Db, t: Xid, o: Oid, ch: Change)
    requires Inv(s) && Enabled(s, UpdateHeld(t, o, ch))
    ensures var s' := Apply(s, UpdateHeld(t, o, ch));
            if HeldUpdatable(s.cells[o].rec.value, t)
            then LockedBy(s', o, t) && EditSeen(Sees(s, o, t), ch, Sees(s', o, t))
            else o in s'.cells && s'.cells[o].rec == s.cells[o].rec
  {
    ActiveId(s, t);
    CellOf(s, o);
    HeldUpdate(s.txs, s.cells[o], t, ch);
    UpdateKeeps(s.txs, s.cells[o], Main, t, ch);
    LocksAgree(s.cells[o], Main, t, ch);
  }

  // ---------------------------------------------------------- inserts, deletes and reads

  /** An insert is seen by its transaction, with the content asked for. */
  lemma InsertSeen(t: Xid, c: Content)
    requires 0 < t < INF
    ensures Describe(FreshRecord(t, c), t) == Some(c)
  {
    assert Ends(FreshRecord(t, c).dirty[0], t);
    ScanEnds(FreshRecord(t, c).dirty, t, 0, false, 0);
  }

  /** A delete of an object not written before succeeds exactly if no relationship is left
      and the object is updatable; its caller then gets an unknown id. */
  lemma DeleteEffect(s: Db, t: Xid, o: Oid, orphaned: bool)
    requires Inv(s) && Enabled(s, Delete(t, o, orphaned))
    ensures var s' := Apply(s, Delete(t, o, orphaned));
            && Present(s', o)
            && if !orphaned && Updatable(s.cells[o].rec.value, t)
               then LockedBy(s', o, t) && NodeById(s'.cells[o].rec.value, t) == UnknownId && Sees(s', o, t) == None
               else s'.cells[o].rec == Some(SetRts(s.cells[o].rec.value, t))
  {
    ActiveId(s, t);
    CellOf(s, o);
    FetchKeeps(s.txs, s.cells[o], t);
    var c := FetchCell(s.cells[o], t);
    var r := c.rec.value;
    CellClauses(s.txs, c);
    if NodeById(r, t).Dirty? {
      StaleReferenceThrows(s.txs, c, t, Change(0, map[]));
    } else if r.lock == 0 && r.rts <= t {
      PushedSeen(r, t, r.content);
    }
  }

  /** Every successful read of an object that its transaction has not written is in the
      history that the serial theorem speaks of, and so is every main record handed out. */
  lemma ReadRecorded(s: Db, t: Xid, o: Oid)
    requires Inv(s) && Enabled(s, ReadNode(t, o)) && !LockedBy(s, o, t)
    ensures var s' := Apply(s, ReadNode(t, o));
            && Sees(s', o, t) == Sees(s, o, t)
            && (Sees(s, o, t).Some? ==> exists w :: Read(t, w, Sees(s, o, t).value) in s'.cells[o].seen)
            && (NodeById(s.cells[o].rec.value, t) == Main ==> t in s'.cells[o].held)
  {
    var c := FetchCell(s.cells[o], t);
    var r := c.rec.value;
    if Sees(s, o, t).Some? {
      var w := if NodeById(r, t).Main? then r.bts else r.dirty[NodeById(r, t).k].bts;
      assert Read(t, w, Sees(s, o, t).value) in c.seen;
    }
  }

  // ------------------------------------------------------------------ the serial run

  /** No change from the k-th on sets property p. */
  ghost predicate LeavesProp(changes: seq<Change>, k: nat, p: nat) {
    forall j :: k <= j < |changes| ==> p !in changes[j].props
  }

  ghost predicate LeavesLabel(changes: seq<Change>, k: nat) {
    forall j :: k <= j < |changes| ==> changes[j].labelCode == 0
  }

  /** Property p after the changes: the last one that sets it counts. */
  ghost predicate PropEdited(c: Content, changes: seq<Change>, c': Content, p: nat) {
    && (forall k: nat :: k < |changes| && p in changes[k].props && LeavesProp(changes, k + 1, p) ==>
          p in c'.props && c'.props[p] == changes[k].props[p])
    && (LeavesProp(changes, 0, p) ==> (p in c'.props <==> p in c.props) && (p in c.props ==> c'.props[p] == c.props[p]))
  }

  /** The label after the changes, likewise. */
  ghost predicate LabelEdited(c: Content, changes: seq<Change>, c': Content) {
    && (forall k: nat :: k < |changes| && changes[k].labelCode > 0 && LeavesLabel(changes, k + 1) ==> c'.labelCode == changes[k].labelCode)
    && (LeavesLabel(changes, 0) ==> c'.labelCode == c.labelCode)
  }

  /** c' is c after the changes. */
  ghost predicate EditedBy(c: Content, changes: seq<Change>, c': Content) {
    LabelEdited(c, changes, c') && forall p :: PropEdited(c, changes, c', p)
  }

  lemma {:induction false} LastProp(c: Content, changes: seq<Change>, p: nat, k: nat)
    requires k < |changes| && p in changes[k].props && LeavesProp(changes, k + 1, p)
    ensures p in ApplyAll(c, changes).props && ApplyAll(c, changes).props[p] == changes[k].props[p]
  {
    var n := |changes| - 1;
    UpdatedIsEdited(ApplyAll(c, changes[..n]), changes[n]);
    if k < n {
      assert p !in changes[n].props;
      LastProp(c, changes[..n], p, k);
    }
  }

  lemma {:induction false} NoProp(c: Content, changes: seq<Change>, p: nat)
    requires LeavesProp(changes, 0, p)
    ensures p in ApplyAll(c, changes).props <==> p in c.props
    ensures p in c.props ==> ApplyAll(c, changes).props[p] == c.props[p]
  {
    if changes != [] {
      var n := |changes| - 1;
      assert p !in changes[n].props;
      UpdatedIsEdited(ApplyAll(c, changes[..n]), changes[n]);
      NoProp(c, changes[..n], p);
    }
  }

  lemma {:induction false} LastLabel(c: Content, changes: seq<Change>, k: nat)
    requires k <= |changes| && LeavesLabel(changes, k) && (k > 0 ==> changes[k - 1].labelCode > 0)
    ensures ApplyAll(c, changes).labelCode == if k > 0 then changes[k - 1].labelCode else c.labelCode
  {
    if changes != [] {
      var n := |changes| - 1;
      UpdatedIsEdited(ApplyAll(c, changes[..n]), changes[n]);
      if k <= n {
        assert changes[n].labelCode == 0;
        LastLabel(c, changes[..n], k);
      }
    }
  }

  lemma AllApplied(c: Content, changes: seq<Change>)
    ensures EditedBy(c, changes, ApplyAll(c, changes))
  {
    LabelApplied(c, changes);
    forall p ensures PropEdited(c, changes, ApplyAll(c, changes), p) {
      PropApplied(c, changes, p);
    }
  }

  lemma PropApplied(c: Content, changes: seq<Change>, p: nat)
    ensures PropEdited(c, changes, ApplyAll(c, changes), p)
  {
    forall k: nat | k < |changes| && p in changes[k].props && LeavesProp(changes, k + 1, p)
      ensures p in ApplyAll(c, changes).props && ApplyAll(c, changes).props[p] == changes[k].props[p]
    {
      LastProp(c, changes, p, k);
    }
    if LeavesProp(changes, 0, p) {
      NoProp(c, changes, p);
    }
  }

  lemma LabelApplied(c: Content, changes: seq<Change>)
    ensures LabelEdited(c, changes, ApplyAll(c, changes))
  {
    forall k: nat | k < |changes| && changes[k].labelCode > 0 && LeavesLabel(changes, k + 1)
      ensures ApplyAll(c, changes).labelCode == changes[k].labelCode
    {
      LastLabel(c, changes, k + 1);
    }
    if LeavesLabel(changes, 0) {
      LastLabel(c, changes, 0);
    }
  }

  /** What running one transaction alone does to an object, by the operation on it. */
  lemma RunAloneMeans(s: Db, t: Xid, store: map<Oid, Content>, o: Oid)
    requires o in s.cells
    ensures var after := RunAlone(s, t, store);
            if t !in s.cells[o].ops then (o in after <==> o in store) && (o in store ==> after[o] == store[o])
            else match s.cells[o].ops[t]
              case Put(c) => o in after && after[o] == c
              case Drop => o !in after
              case Edit(_, changes) => (o in after <==> o in store) && (o in store ==> EditedBy(store[o], changes, after[o]))
  {
    if o in store && t in s.cells[o].ops && s.cells[o].ops[t].Edit? {
      AllApplied(store[o], s.cells[o].ops[t].changes);
    }
  }

  /** Every successful update adds its change to the operation of its transaction. */
  lemma UpdateRecorded(s: Db, t: Xid, o: Oid, ch: Change)
    requires Inv(s) && OpsInv(s) && Enabled(s, UpdateFetched(t, o, ch)) && Updatable(s.cells[o].rec.value, t)
    ensures var c, c' := s.cells[o], Apply(s, UpdateFetched(t, o, ch)).cells[o];
            && t in c'.ops
            && match c'.ops[t]
               case Put(content) => LockedBy(s, o, t) && t in c.ops && c.ops[t].Put? && Edited(c.ops[t].content, ch, content)
               case Edit(_, changes) =>
                 changes == (if LockedBy(s, o, t) && t in c.ops && c.ops[t].Edit? then c.ops[t].changes else []) + [ch]
               case Drop => false
  {
    ActiveId(s, t);
    CellOf(s, o);
    FetchedUpdate(s.txs, s.cells[o], t, ch);
    if LockedBy(s, o, t) {
      CellClauses(s.txs, s.cells[o]);
      OwnerReadsOwnWrite(s, o, t);
      assert CellOps(s.txs, s.cells[o]) && OpOk(s.txs, s.cells[o], t);
      if s.cells[o].ops[t].Put? {
        UpdatedIsEdited(s.cells[o].ops[t].content, ch);
      }
    }
  }
}
