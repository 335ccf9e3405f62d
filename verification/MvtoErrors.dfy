/** What kind of answer a fetch gives after an abort: the content seen is that of the
    snapshot, but an unknown id can turn into a demand to abort. */
module MvtoErrors {
  import opened Wrappers
  import opened Mvto
  import opened MvtoInvariant
  import opened MvtoSteps
  import opened MvtoRuns
  import opened MvtoVisibility
  import opened MvtoAbort

  /** Both refer to the main record, both to a version, or both are the same error. */
  predicate SameKind(f: Fetch, g: Fetch) {
    f.Main? == g.Main? && f.Dirty? == g.Dirty? && f.UnknownId? == g.UnknownId?
  }

  /** Versions in front shift the positions only. */
  lemma {:induction false} ScanShifts(front: seq<Version>, vs: seq<Version>, i: Xid, k: nat, abort: bool)
    requires k <= |vs|
    ensures SameKind(FindValid(front + vs, i, |front| + k, abort), FindValid(vs, i, k, abort))
    decreases |vs| - k
  {
    if k < |vs| {
      assert (front + vs)[|front| + k] == vs[k];
      ScanShifts(front, vs, i, k + 1, abort);
      ScanShifts(front, vs, i, k + 1, true);
    }
  }

  /** A readable version passed before turns an unknown id into an abort, and only that. */
  lemma {:induction false} ScanAborts(vs: seq<Version>, i: Xid, k: nat)
    requires k <= |vs| && forall v :: v in vs ==> v.lock != i
    ensures var f, g := FindValid(vs, i, k, false), FindValid(vs, i, k, true);
            if f.UnknownId? then g.MustAbort? else g == f
    decreases |vs| - k
  {
    if k < |vs| {
      ScanAborts(vs, i, k + 1);
    }
  }

  /** r is r0 after an aborted write of t: the unlocked old copy is on top of the list,
      perhaps below the marker of a deletion. */
  ghost predicate Restored(r0: Record, r: Record, t: Xid, marker: seq<Version>, copy: Version) {
    && 0 < t < INF && r.lock == r0.lock == 0 && r.bts == r0.bts && r.cts == r0.cts == INF
    && (marker == [] || (|marker| == 1 && marker[0].lock == t))
    && copy.lock == 0 && copy.bts == r0.bts && copy.cts == t
    && r.dirty == marker + ([copy] + r0.dirty)
  }

  /** Another id gets the same kind of answer unless the id was unknown to it and the old
      copy is readable but not valid for it; then it is told to abort. */
  lemma RestoredKind(r0: Record, r: Record, t: Xid, marker: seq<Version>, copy: Version, i: Xid)
    requires Restored(r0, r, t, marker, copy) && i != 0 && i != t && forall v :: v in r0.dirty ==> v.lock != i
    ensures var changed := NodeById(r0, i).UnknownId? && Readable(copy, i) && !ValidFor(copy.bts, copy.cts, i);
            && (SameKind(NodeById(r, i), NodeById(r0, i)) <==> !changed)
            && (changed ==> NodeById(r, i).MustAbort?)
  {
    if !ValidFor(r0.bts, r0.cts, i) {
      var vs := [copy] + r0.dirty;
      ScanShifts(marker, vs, i, 0, false);
      ScanShifts([copy], r0.dirty, i, 0, true);
      ScanAborts(r0.dirty, i, 0);
      if marker != [] {
        assert r.dirty[0] == marker[0] && !Readable(r.dirty[0], i);
        assert FindValid(r.dirty, i, 0, false) == FindValid(r.dirty, i, 1, false);
      }
      assert vs[0] == copy && Readable(vs[0], i) && !ValidFor(vs[0].bts, vs[0].cts, i);
      assert FindValid(vs, i, 0, false) == FindValid(vs, i, 1, true);
    }
  }

  /** The record that an abort leaves is such a restored snapshot. */
  lemma AbortLeavesCopy(s: Db, t: Xid, i: Xid) returns (marker: seq<Version>, copy: Version)
    requires Inv(s) && Enabled(s, AbortObject(t)) && i != 0 && !(i in s.txs && s.txs[i].phase.Aborting?)
    requires s.txs[t].todo[0] in s.cells && s.cells[s.txs[t].todo[0]].snap.Some?
    ensures var o := s.txs[t].todo[0];
            var c := s.cells[o];
            var c' := Apply(s, AbortObject(t)).cells[o];
            && c'.rec.Some? && Restored(c.snap.value, c'.rec.value, t, marker, copy)
            && forall v :: v in c.snap.value.dirty ==> v.lock != i
  {
    var o := s.txs[t].todo[0];
    HeadLocked(s, t);
    Clauses(s);
    CellOf(s, o);
    CellClauses(s.txs, s.cells[o]);
    var r := s.cells[o].rec.value;
    AbortShape(s.txs, s.cells[o], t);
    marker, copy := if r.dirty[0].cts == INF then [] else [r.dirty[0]], r.dirty[1];
    assert r.dirty[1..] == [copy] + r.dirty[2..] && r.dirty == [r.dirty[0]] + r.dirty[1..];
    forall v | v in r.dirty[2..] ensures v.lock != i {
      assert v in r.dirty[1..];
      assert OldOk(s.txs, s.cells[o].writes, r.rts, v);
    }
  }

  /** In every reachable state, the abort of a write changes the kind of answer that
      another id gets if and only if the id was unknown on the snapshot and the old copy
      left behind is readable but not valid for it. */
  lemma AbortKeepsKind(s: Db, t: Xid, i: Xid)
    requires Inv(s) && Enabled(s, AbortObject(t)) && i != 0 && i != t && !(i in s.txs && s.txs[i].phase.Aborting?)
    requires s.txs[t].todo[0] in s.cells && s.cells[s.txs[t].todo[0]].snap.Some?
    ensures var o := s.txs[t].todo[0];
            var r0, c' := s.cells[o].snap.value, Apply(s, AbortObject(t)).cells[o];
            && c'.rec.Some?
            && (SameKind(NodeById(c'.rec.value, i), NodeById(r0, i)) <==> !(NodeById(r0, i).UnknownId? && !ValidFor(r0.bts, t, i)))
            && (NodeById(r0, i).UnknownId? && !ValidFor(r0.bts, t, i) ==> NodeById(c'.rec.value, i).MustAbort?)
  {
    var marker, copy := AbortLeavesCopy(s, t, i);
    var o := s.txs[t].todo[0];
    RestoredKind(s.cells[o].snap.value, Apply(s, AbortObject(t)).cells[o].rec.value, t, marker, copy, i);
  }

  /** The answer does not depend on the read timestamp. */
  lemma RtsKeepsKind(r: Record, t: Xid, i: Xid)
    ensures NodeById(SetRts(r, t), i) == NodeById(r, i)
  {
  }

  /** Over runs: whatever happens between the first write of o by t and the abort of o,
      another id gets the same kind of answer before the write and after the abort if and
      only if o was not unknown to it, or the old copy is valid for it. */
  lemma AbortedWriteKeepsKind(s: Db, e: Event, es: seq<Event>, t: Xid, o: Oid, i: Xid)
    requires Inv(s) && FirstWrite(s, e, t, o) && CanRun(Apply(s, e), es) && i != 0 && i != t
    requires var s2 := Run(Apply(s, e), es);
             && Enabled(s2, AbortObject(t)) && s2.txs[t].todo[0] == o
             && !(i in s2.txs && s2.txs[i].phase.Aborting?)
    ensures o in Apply(Run(Apply(s, e), es), AbortObject(t)).cells
    ensures var c := Apply(Run(Apply(s, e), es), AbortObject(t)).cells[o];
            var r := s.cells[o].rec.value;
            && c.rec.Some?
            && (SameKind(NodeById(c.rec.value, i), NodeById(r, i)) <==> !(NodeById(r, i).UnknownId? && !ValidFor(r.bts, t, i)))
            && (NodeById(r, i).UnknownId? && !ValidFor(r.bts, t, i) ==> NodeById(c.rec.value, i).MustAbort?)
  {
    var r := s.cells[o].rec.value;
    var r0 := if e.UpdateHeld? then r else SetRts(r, t);
    var r1 := FirstWriteSnapshot(s, e, t, o, i);
    assert r1 == r0;
    StepKeepsInv(s, e);
    RunKeepsSnapshot(Apply(s, e), es, t, o, Some(r1));
    var s2 := Run(Apply(s, e), es);
    HeadLocked(s2, t);
    AbortKeepsKind(s2, t, i);
    RtsKeepsKind(r, t, i);
  }

  /** A record written by 5, updated by 7 and aborted: 3 did not know it before and is told
      to abort afterwards. */
  lemma AbortedUpdateMakesAbort(c: Content, ch: Change)
    ensures var r := Record(0, 5, INF, 0, c, []);
            var u := UpdateMain(SetRts(r, 7), 7, ch);
            && NodeById(r, 3) == UnknownId && u.Some?
            && var r' := AbortRecord(u.value, 7);
            && r'.Some? && NodeById(r'.value, 3) == MustAbort
  {
    var r := Record(0, 5, INF, 0, c, []);
    var u := UpdateMain(SetRts(r, 7), 7, ch).value;
    var newv, oldv := u.dirty[0], u.dirty[1];
    assert u.dirty == [newv, oldv] && [newv, oldv][1..] == [oldv] && [oldv][1..] == [];
    assert DirtyVersionOf(u.dirty, 7, 0) == 0;
    assert RemoveDirty([], 7) == [] && RemoveDirty([oldv], 7) == [oldv] && RemoveDirty(u.dirty, 7) == [oldv];
    assert FindValid([oldv], 3, 1, true) == MustAbort;
  }
}
