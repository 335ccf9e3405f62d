/** The delta store on its vectors, and what any sequence of stores and updates yields. */
module CsrStore {
  import opened Wrappers
  import opened Csr
  import opened CsrDelta

  datatype Outcome = Built(a: Arrays) | InvalidCsrUpdate | NothingToUpdate | Updated(a: Arrays)

  class DeltaStore {
    var recs: seq<DeltaRec>
    var ids: seq<nat>
    var weights: seq<real>
    var nextPos: nat
    var numRecs: nat
    var lastTxn: Option<nat>
    var csr: Arrays
    ghost var every: seq<DeltaRec>
    ghost var h: History

    ghost predicate Valid()
      reads this
    {
      && |ids| == |weights| == nextPos && numRecs == |recs|
      && RecsOk(recs, every, ids, weights, h) && CsrOk(h, lastTxn, csr)
      && (lastTxn.Some? ==> |csr.offsets| > 0)
    }

    constructor ()
      ensures Valid() && h.log == [] && recs == [] && nextPos == 0 && lastTxn == None
    {
      recs, ids, weights, nextPos, numRecs, lastTxn := [], [], [], 0, 0, None;
      csr := Arrays([], [], []);
      every, h := [], History([], [], []);
      new;
      LogClauses(h);
      CsrClauses(h, lastTxn, csr);
      RecClauses(recs, every, ids, weights, h);
    }

    /** Append the adjacency of a node as the committing transaction left it.
        Transactions that change the same node commit in id order. */
    method StoreDelta(txid: nat, nid: nat, row: Row)
      requires Valid() && RowOk(row) && nid < MAX_NODES
      requires forall k :: 0 <= k < |h.log| && h.log[k].nid == nid ==> h.log[k].txid < txid
      modifies this
      ensures Valid() && h == Stored(old(h), Entry(txid, nid, row, false))
      ensures lastTxn == old(lastTxn) && csr == old(csr)
      ensures recs == old(recs) + [DeltaRec(txid, nid, old(nextPos), |row.ids|, false)] && nextPos == old(nextPos) + |row.ids|
    {
      ghost var e := Entry(txid, nid, row, false);
      StoreKeeps(h, lastTxn, csr, e);
      StoreRecKeeps(recs, every, ids, weights, h, e);
      var rec := DeltaRec(txid, nid, nextPos, |row.ids|, false);
      recs, every := recs + [rec], every + [rec];
      nextPos, ids, weights := nextPos + |row.ids|, ids + row.ids, weights + row.weights;
      numRecs, h := numRecs + 1, Stored(h, e);
    }

    /** `clear_deltas`: the shared vectors keep growing, only the records go. */
    method ClearDeltas()
      modifies this`recs, this`numRecs
      ensures recs == [] && numRecs == 0
    {
      recs, numRecs := [], 0;
    }

    /** Mark what a build at txid has seen, and clear the records if nothing newer is left. */
    method MarkBuilt(txid: nat) returns (ghost marked: seq<DeltaRec>, ghost clear: bool)
      requires numRecs == |recs|
      modifies this`recs, this`numRecs
      ensures |marked| == |old(recs)|
      ensures forall j :: 0 <= j < |marked| ==> marked[j] == old(recs)[j].(merged := old(recs)[j].merged || old(recs)[j].txid < txid)
      ensures clear <==> forall j :: 0 <= j < |marked| ==> marked[j].txid < txid
      ensures recs == (if clear then [] else marked) && numRecs == |recs| && recs == AfterMark(old(recs), txid)
    {
      var k, seen, older := 0, [], true;
      while k < |recs|
        invariant k <= |recs| && |seen| == k && recs == old(recs)
        invariant forall j :: 0 <= j < k ==> seen[j] == recs[j].(merged := recs[j].merged || recs[j].txid < txid)
        invariant older <==> forall j :: 0 <= j < k ==> seen[j].txid < txid
      {
        if recs[k].txid < txid {
          seen := seen + [recs[k].(merged := true)];
        } else {
          seen := seen + [recs[k]];
          older := false;
        }
        k := k + 1;
      }
      recs, marked, clear := seen, seen, older;
      MarkedAll(old(recs), txid, seen);
      if older {
        ClearDeltas();
      }
    }

    /** The first build: adj is the adjacency visible to the building transaction,
        which has not stored deltas itself yet. */
    method HostCsrBuild(txid: nat, adj: seq<Row>)
      requires Valid() && lastTxn.None? && RowsOk(adj) && |adj| < WORD - 1
      requires forall k :: 0 <= k < |h.log| ==> h.log[k].txid != txid
      modifies this
      ensures Valid() && lastTxn == Some(txid) && csr == Encode(adj) && h == AfterBuild(old(h), txid, adj) && nextPos == old(nextPos)
      ensures recs == AfterMark(old(recs), txid)
      ensures WellFormed(csr) && LogOk(h) && RowsAre(csr, h.log, VisibleTo(h.log, txid), h.base)
    {
      var a := BuildArrays(adj);
      ghost var marked, clear := MarkBuilt(txid);
      BuildDone(old(recs), every, ids, weights, h, csr, txid, adj, marked, clear);
      csr, lastTxn, every, h := a, Some(txid), recs, AfterBuild(h, txid, adj);
    }

    /** `merge_deltas`: collect the deltas for a snapshot, mark their records and
        clear the records when no later snapshot needs one. */
    method MergeDeltas(txid: nat) returns (deltas: map<nat, Row>, ghost c: seq<bool>)
      requires Valid() && lastTxn.Some?
      modifies this`recs, this`numRecs, this`every
      ensures |ids| == |weights| == nextPos && numRecs == |recs|
      ensures Takes(h, lastTxn.value, txid, c) && DeltasAre(h, c, deltas) && DeltasOk(deltas)
      ensures RecsOk(recs, every, ids, weights, Merged(h, c))
      ensures recs == AfterMerge(old(recs), txid)
      ensures deltas == map[] <==> NothingTaken(old(recs), txid, lastTxn.value)
    {
      var last := lastTxn.value;
      ghost var d := |every| - |recs|;
      c := Taken(every, d, |every|, txid, last);
      var marked, clear;
      deltas, marked, clear := MergeRecords(recs, ids, weights, txid, last, every, h);
      MergeFacts(recs, every, ids, weights, h, txid, last, marked, clear);
      MergedAll(recs, txid, marked);
      recs := marked;
      every := MarkEvery(every, d, txid);
      if clear {
        ClearDeltas();
      }
    }

    /** The rest of the update: patch the arrays with the merged deltas. */
    method ApplyDeltas(txid: nat) returns (r: Outcome)
      requires Valid() && lastTxn.Some? && lastTxn.value <= txid && 0 < NumRows(csr)
      modifies this
      ensures Valid() && h.log == old(h).log && h.base == old(h).base && nextPos == old(nextPos)
      ensures WellFormed(csr) && RowsAre(csr, h.log, VisibleTo(h.log, txid), h.base)
      ensures (r == NothingToUpdate && csr == old(csr) && lastTxn == old(lastTxn)) || (r == Updated(csr) && lastTxn == Some(txid))
      ensures NumRows(csr) >= NumRows(old(csr))
      ensures recs == AfterMerge(old(recs), txid)
      ensures r == NothingToUpdate <==> NothingTaken(old(recs), txid, old(lastTxn).value)
    {
      CsrClauses(h, lastTxn, csr);
      var deltas, c := MergeDeltas(txid);
      if deltas == map[] {
        EmptyTakesNothing(h, c);
        MergeKeeps(h, lastTxn.value, csr, txid, c, deltas, csr);
        return NothingToUpdate;
      }
      var keys := OrderedKeys(deltas);
      NonEmptyKeys(keys, deltas);
      var a := Patch(csr, keys, deltas);
      PatchOverrides(csr, keys, deltas, a);
      PatchSize(h, c, NumRows(csr), keys, deltas);
      MergeKeeps(h, lastTxn.value, csr, txid, c, deltas, a);
      h, lastTxn, csr := Merged(h, c), Some(txid), a;
      return Updated(csr);
    }

    /** `host_csr_update_with_delta`. After it, every row of the cached arrays is the
        latest stored delta visible to the snapshot, else the row of the build. Exactly
        if no record is taken, it returns without filling the caller's arrays.
        Cached arrays without rows are excluded: see `PatchBounds`. */
    method UpdateWithDelta(txid: nat, adj: seq<Row>) returns (r: Outcome)
      requires Valid() && (lastTxn.Some? ==> 0 < NumRows(csr))
      requires lastTxn.None? ==> RowsOk(adj) && |adj| < WORD - 1 && forall k :: 0 <= k < |h.log| ==> h.log[k].txid != txid
      modifies this
      ensures Valid() && lastTxn.Some? && nextPos == old(nextPos)
      ensures old(lastTxn).None? ==>
                r == Built(csr) && csr == Encode(adj) && lastTxn == Some(txid) && h == AfterBuild(old(h), txid, adj)
      ensures old(lastTxn).None? ==> recs == AfterMark(old(recs), txid)
      ensures old(lastTxn).Some? && old(lastTxn).value > txid ==> recs == old(recs)
      ensures old(lastTxn).Some? && old(lastTxn).value <= txid ==> recs == AfterMerge(old(recs), txid)
      ensures old(lastTxn).Some? && old(lastTxn).value <= txid ==>
                (r == NothingToUpdate <==> NothingTaken(old(recs), txid, old(lastTxn).value))
      ensures old(lastTxn).Some? ==> NumRows(csr) >= NumRows(old(csr))
      ensures old(lastTxn).Some? ==> h.log == old(h).log && h.base == old(h).base
      ensures old(lastTxn).Some? && old(lastTxn).value > txid ==>
                r == InvalidCsrUpdate && csr == old(csr) && lastTxn == old(lastTxn)
      ensures old(lastTxn).Some? && old(lastTxn).value <= txid ==>
                (r == NothingToUpdate && csr == old(csr) && lastTxn == old(lastTxn)) || (r == Updated(csr) && lastTxn == Some(txid))
      ensures !r.InvalidCsrUpdate? ==>
                WellFormed(csr) && LogOk(h) && RowsAre(csr, h.log, VisibleTo(h.log, txid), h.base)
    {
      if lastTxn.None? {
        HostCsrBuild(txid, adj);
        r := Built(csr);
      } else if lastTxn.value > txid {
        r := InvalidCsrUpdate;
      } else {
        r := ApplyDeltas(txid);
      }
    }
  }
}
