/** The delta store: per-transaction adjacency deltas are merged into the cached
    CSR arrays, and every row stays the latest delta visible to the snapshot. */
module CsrDelta {
  import opened Wrappers
  import opened Csr

  /** A stored delta: the neighbours are `ids[pos..pos + count]`. */
  datatype DeltaRec = DeltaRec(txid: nat, nodeId: nat, pos: nat, count: nat, merged: bool)

  /** A delta as it was stored; `absorbed` says that a full build already saw it. */
  datatype Entry = Entry(txid: nat, nid: nat, row: Row, absorbed: bool)

  // -------------------------------------------------------- rows of the history

  /** The last of the first n entries for node i whose flag is set. */
  ghost function LastRow(log: seq<Entry>, f: seq<bool>, i: nat, n: nat): Option<Row>
    requires n <= |log| == |f|
  {
    if n == 0 then None
    else if f[n - 1] && log[n - 1].nid == i then Some(log[n - 1].row)
    else LastRow(log, f, i, n - 1)
  }

  /** The flags of the entries visible to a snapshot. */
  ghost function VisibleTo(log: seq<Entry>, snapshot: nat): seq<bool> {
    seq(|log|, k requires 0 <= k < |log| => !log[k].absorbed && log[k].txid <= snapshot)
  }

  ghost function BaseRow(base: seq<Row>, i: nat): Row {
    if i < |base| then base[i] else EMPTY_ROW
  }

  ghost function RowOrEmpty(a: Arrays, i: nat): Row
    requires WellFormed(a)
  {
    if i < NumRows(a) then RowAt(a, i) else EMPTY_ROW
  }

  /** Every row of the arrays is the last flagged entry of its node, else the base row. */
  ghost predicate RowsAre(a: Arrays, log: seq<Entry>, f: seq<bool>, base: seq<Row>)
    requires |log| == |f| && WellFormed(a)
  {
    forall i: nat :: RowOrEmpty(a, i) ==
                     match LastRow(log, f, i, |log|)
                     case Some(r) => r
                     case None => BaseRow(base, i)
  }

  /** Transactions that changed the same node commit in id order. */
  ghost predicate IncreasingPerNode(log: seq<Entry>) {
    forall j, k :: 0 <= j < k < |log| && log[j].nid == log[k].nid ==> log[j].txid < log[k].txid
  }

  ghost function Or(f: seq<bool>, c: seq<bool>): seq<bool>
    requires |f| == |c|
  {
    seq(|f|, k requires 0 <= k < |f| => f[k] || c[k])
  }

  /** If no entry that was applied before is newer than one considered now, the
      considered entries override the applied ones node by node. */
  lemma {:induction false} Override(log: seq<Entry>, f: seq<bool>, c: seq<bool>, i: nat, n: nat)
    requires |log| == |f| == |c| && n <= |log|
    requires forall j, k :: 0 <= j < k < |log| && log[j].nid == log[k].nid && c[j] && f[k] ==> c[k]
    ensures LastRow(log, Or(f, c), i, n) ==
            if LastRow(log, c, i, n).Some? then LastRow(log, c, i, n) else LastRow(log, f, i, n)
  {
    if n > 0 {
      Override(log, f, c, i, n - 1);
      var k := n - 1;
      if log[k].nid == i && f[k] && !c[k] {
        NothingBefore(log, c, i, k);
      }
    }
  }

  lemma {:induction false} NothingBefore(log: seq<Entry>, c: seq<bool>, i: nat, n: nat)
    requires |log| == |c| && n <= |log|
    requires forall j :: 0 <= j < n && log[j].nid == i ==> !c[j]
    ensures LastRow(log, c, i, n) == None
  {
    if n > 0 {
      NothingBefore(log, c, i, n - 1);
    }
  }

  /** Only the first n entries matter. */
  lemma {:induction false} LastRowPrefix(log: seq<Entry>, f: seq<bool>, log': seq<Entry>, f': seq<bool>, i: nat, n: nat)
    requires n <= |log| == |f| && n <= |log'| == |f'|
    requires forall k :: 0 <= k < n ==> log[k] == log'[k] && f[k] == f'[k]
    ensures LastRow(log, f, i, n) == LastRow(log', f', i, n)
  {
    if n > 0 {
      LastRowPrefix(log, f, log', f', i, n - 1);
    }
  }

  // --------------------------------------------------------------- the history

  /** All deltas stored since the last build and which of them are in the arrays. */
  datatype History = History(log: seq<Entry>, applied: seq<bool>, base: seq<Row>)

  ghost function Flags(h: History): seq<bool>
    requires |h.log| == |h.applied|
  {
    seq(|h.log|, k requires 0 <= k < |h.log| => h.applied[k] && !h.log[k].absorbed)
  }

  /** Node ids stay below this, so that the number of rows fits in a word. */
  const MAX_NODES: nat := WORD - 2

  datatype LogClause = OrderClause | EntriesClause | AbsorbedClause

  ghost predicate LogMeets(c: LogClause, h: History) {
    match c
    case OrderClause => IncreasingPerNode(h.log)
    case EntriesClause => forall k :: 0 <= k < |h.log| ==> RowOk(h.log[k].row) && h.log[k].nid < MAX_NODES
    case AbsorbedClause => |h.log| == |h.applied| && forall k :: 0 <= k < |h.log| && h.log[k].absorbed ==> h.applied[k]
  }

  ghost predicate LogOk(h: History) {
    |h.log| == |h.applied| && forall c :: LogMeets(c, h)
  }

  lemma LogClauses(h: History)
    ensures LogOk(h) <==>
              && |h.log| == |h.applied|
              && IncreasingPerNode(h.log)
              && (forall k :: 0 <= k < |h.log| ==> RowOk(h.log[k].row) && h.log[k].nid < MAX_NODES)
              && (forall k :: 0 <= k < |h.log| && h.log[k].absorbed ==> h.applied[k])
  {
    if LogOk(h) {
      assert LogMeets(OrderClause, h) && LogMeets(EntriesClause, h) && LogMeets(AbsorbedClause, h);
    } else if LogMeets(OrderClause, h) && LogMeets(EntriesClause, h) && LogMeets(AbsorbedClause, h) {
      forall c ensures LogMeets(c, h) {
        match c
        case OrderClause => case EntriesClause => case AbsorbedClause =>
      }
    }
  }

  /** Applied entries are not newer than the last update and, for each node, come first. */
  ghost predicate AppliedOk(h: History, last: nat)
    requires |h.log| == |h.applied|
  {
    && (forall k :: 0 <= k < |h.log| && h.applied[k] ==> h.log[k].txid <= last)
    && (forall k :: 0 <= k < |h.log| && h.log[k].absorbed ==> h.log[k].txid < last)
    && (forall j, k :: 0 <= j < k < |h.log| && h.log[j].nid == h.log[k].nid && h.applied[k] ==> h.applied[j])
  }

  datatype CsrClause = AppliedClause | ArraysClause

  ghost predicate CsrMeets(c: CsrClause, h: History, last: Option<nat>, csr: Arrays)
    requires |h.log| == |h.applied|
  {
    match c
    case AppliedClause =>
      if last.None? then forall k :: 0 <= k < |h.log| ==> !h.applied[k] else AppliedOk(h, last.value)
    case ArraysClause =>
      last.Some? ==> WellFormed(csr) && NumRows(csr) < WORD - 1 && RowsAre(csr, h.log, Flags(h), h.base)
  }

  /** The arrays hold, for each node, its last applied delta. */
  ghost predicate CsrOk(h: History, last: Option<nat>, csr: Arrays) {
    LogOk(h) && forall c :: CsrMeets(c, h, last, csr)
  }

  lemma CsrClauses(h: History, last: Option<nat>, csr: Arrays)
    ensures CsrOk(h, last, csr) <==> LogOk(h) && CsrMeets(AppliedClause, h, last, csr) && CsrMeets(ArraysClause, h, last, csr)
  {
    if LogOk(h) && CsrMeets(AppliedClause, h, last, csr) && CsrMeets(ArraysClause, h, last, csr) {
      forall c ensures CsrMeets(c, h, last, csr) {
        match c
        case AppliedClause => case ArraysClause =>
      }
    }
  }

  ghost function Stored(h: History, e: Entry): History {
    h.(log := h.log + [e], applied := h.applied + [false])
  }

  lemma StoreKeeps(h: History, last: Option<nat>, csr: Arrays, e: Entry)
    requires CsrOk(h, last, csr) && RowOk(e.row) && !e.absorbed && e.nid < MAX_NODES
    requires forall k :: 0 <= k < |h.log| && h.log[k].nid == e.nid ==> h.log[k].txid < e.txid
    ensures CsrOk(Stored(h, e), last, csr)
  {
    var h' := Stored(h, e);
    CsrClauses(h, last, csr);
    LogClauses(h);
    LogClauses(h');
    CsrClauses(h', last, csr);
    if last.Some? {
      forall i: nat ensures LastRow(h'.log, Flags(h'), i, |h'.log|) == LastRow(h.log, Flags(h), i, |h.log|) {
        LastRowPrefix(h.log, Flags(h), h'.log, Flags(h'), i, |h.log|);
      }
    }
  }

  /** An update at a snapshot applies the considered entries c. */
  ghost predicate Takes(h: History, last: nat, snapshot: nat, c: seq<bool>) {
    && |c| == |h.log| == |h.applied|
    && (forall k :: 0 <= k < |c| && c[k] ==> h.log[k].txid <= snapshot && !(h.log[k].txid < last && h.applied[k]))
    && (forall k :: 0 <= k < |c| && !h.applied[k] && h.log[k].txid <= snapshot ==> c[k])
  }

  ghost function Merged(h: History, c: seq<bool>): History
    requires |h.log| == |h.applied| == |c|
  {
    h.(applied := Or(h.applied, c))
  }

  lemma MergeKeepsApplied(h: History, last: nat, snapshot: nat, c: seq<bool>)
    requires LogOk(h) && AppliedOk(h, last) && last <= snapshot && Takes(h, last, snapshot, c)
    ensures LogOk(Merged(h, c)) && AppliedOk(Merged(h, c), snapshot)
    ensures Flags(Merged(h, c)) == Or(Flags(h), c) == VisibleTo(h.log, snapshot)
  {
    var h' := Merged(h, c);
    LogClauses(h);
    LogClauses(h');
    forall k | 0 <= k < |h.log| ensures Flags(h')[k] == (Flags(h)[k] || c[k]) == VisibleTo(h.log, snapshot)[k] {
    }
  }

  /** No applied entry is newer than a considered one of the same node. */
  lemma MergeOrder(h: History, last: nat, snapshot: nat, c: seq<bool>)
    requires LogOk(h) && AppliedOk(h, last) && Takes(h, last, snapshot, c)
    ensures forall j, k :: 0 <= j < k < |h.log| && h.log[j].nid == h.log[k].nid && c[j] && Flags(h)[k] ==> c[k]
  {
    LogClauses(h);
  }

  /** deltas maps each node with a considered entry to the last such row. */
  ghost predicate DeltasAre(h: History, c: seq<bool>, deltas: map<nat, Row>)
    requires |h.log| == |c|
  {
    forall i: nat ::
      LastRow(h.log, c, i, |h.log|) == if i in deltas then Some(deltas[i]) else None
  }

  /** Overriding rows by the merged deltas brings the arrays to the snapshot. */
  lemma MergeKeeps(h: History, last: nat, csr: Arrays, snapshot: nat, c: seq<bool>, deltas: map<nat, Row>, csr': Arrays)
    requires CsrOk(h, Some(last), csr) && last <= snapshot && Takes(h, last, snapshot, c) && DeltasAre(h, c, deltas)
    requires WellFormed(csr') && WellFormed(csr) && NumRows(csr') < WORD - 1
    requires forall i: nat :: RowOrEmpty(csr', i) == if i in deltas then deltas[i] else RowOrEmpty(csr, i)
    ensures CsrOk(Merged(h, c), Some(snapshot), csr')
    ensures RowsAre(csr', h.log, VisibleTo(h.log, snapshot), h.base)
  {
    CsrClauses(h, Some(last), csr);
    CsrClauses(Merged(h, c), Some(snapshot), csr');
    MergeKeepsApplied(h, last, snapshot, c);
    MergeOrder(h, last, snapshot, c);
    forall i: nat ensures LastRow(h.log, Or(Flags(h), c), i, |h.log|) ==
                          (if i in deltas then Some(deltas[i]) else LastRow(h.log, Flags(h), i, |h.log|))
    {
      Override(h.log, Flags(h), c, i, |h.log|);
    }
  }

  // ------------------------------------------------------------------ the merge

  /** Whether merging at a snapshot takes this record. */
  predicate Considered(r: DeltaRec, snapshot: nat, last: nat) {
    r.txid <= snapshot && !(r.txid < last && r.merged)
  }

  /** Record r stores entry e at its place in the shared vectors. */
  ghost predicate RecOk(r: DeltaRec, e: Entry, done: bool, ids: seq<nat>, weights: seq<real>) {
    && r.txid == e.txid && r.nodeId == e.nid && r.merged == done
    && r.pos + r.count <= |ids| == |weights|
    && ids[r.pos..r.pos + r.count] == e.row.ids && weights[r.pos..r.pos + r.count] == e.row.weights
  }

  /** `every` are the records of all entries; those since the last clear, the
      last |recs| of them, are still in the store. */
  ghost predicate RecsOk(recs: seq<DeltaRec>, every: seq<DeltaRec>, ids: seq<nat>, weights: seq<real>, h: History) {
    && |recs| <= |every| == |h.log| == |h.applied|
    && forall c :: RecsMeet(c, recs, every, ids, weights, h)
  }

  datatype RecClause = SuffixClause | RecordClause | ClearedClause

  ghost predicate RecsMeet(c: RecClause, recs: seq<DeltaRec>, every: seq<DeltaRec>, ids: seq<nat>, weights: seq<real>, h: History)
    requires |recs| <= |every| == |h.log| == |h.applied|
  {
    match c
    case SuffixClause => forall k :: 0 <= k < |recs| ==> recs[k] == every[|every| - |recs| + k]
    case RecordClause => forall k :: 0 <= k < |every| ==> RecOk(every[k], h.log[k], h.applied[k], ids, weights)
    case ClearedClause => forall k :: 0 <= k < |every| - |recs| ==> h.applied[k]
  }

  lemma RecClauses(recs: seq<DeltaRec>, every: seq<DeltaRec>, ids: seq<nat>, weights: seq<real>, h: History)
    ensures RecsOk(recs, every, ids, weights, h) <==>
              && |recs| <= |every| == |h.log| == |h.applied| && recs == every[|every| - |recs|..]
              && (forall k :: 0 <= k < |every| ==> RecOk(every[k], h.log[k], h.applied[k], ids, weights))
              && (forall k :: 0 <= k < |every| - |recs| ==> h.applied[k])
  {
    if |recs| <= |every| == |h.log| == |h.applied| {
      if && RecsMeet(SuffixClause, recs, every, ids, weights, h)
         && RecsMeet(RecordClause, recs, every, ids, weights, h)
         && RecsMeet(ClearedClause, recs, every, ids, weights, h)
      {
        forall c ensures RecsMeet(c, recs, every, ids, weights, h) {
          match c
          case SuffixClause => case RecordClause => case ClearedClause =>
        }
      }
    }
  }

  /** The entries from d up to n that a merge considers. */
  ghost function Taken(every: seq<DeltaRec>, d: nat, n: nat, snapshot: nat, last: nat): seq<bool>
    requires d <= n <= |every|
  {
    seq(|every|, k requires 0 <= k < |every| => d <= k < n && Considered(every[k], snapshot, last))
  }

  /** Afterwards every record up to the snapshot is merged. */
  function MarkMerged(r: DeltaRec, snapshot: nat): DeltaRec {
    r.(merged := r.merged || r.txid <= snapshot)
  }

  /** No record is taken: there is nothing to merge. */
  predicate NothingTaken(recs: seq<DeltaRec>, snapshot: nat, last: nat) {
    forall k :: 0 <= k < |recs| ==> recs[k].txid > snapshot || (recs[k].txid < last && recs[k].merged)
  }

  predicate NoneAfter(recs: seq<DeltaRec>, snapshot: nat) {
    forall k :: 0 <= k < |recs| ==> recs[k].txid <= snapshot
  }

  /** The records after a merge: marked, or cleared if none is newer than the snapshot. */
  function AfterMerge(recs: seq<DeltaRec>, snapshot: nat): seq<DeltaRec> {
    if NoneAfter(recs, snapshot) then [] else seq(|recs|, k requires 0 <= k < |recs| => MarkMerged(recs[k], snapshot))
  }

  function MarkBelow(r: DeltaRec, txid: nat): DeltaRec {
    r.(merged := r.merged || r.txid < txid)
  }

  predicate AllBelow(recs: seq<DeltaRec>, txid: nat) {
    forall k :: 0 <= k < |recs| ==> recs[k].txid < txid
  }

  /** The same after a full build at txid. */
  function AfterMark(recs: seq<DeltaRec>, txid: nat): seq<DeltaRec> {
    if AllBelow(recs, txid) then [] else seq(|recs|, k requires 0 <= k < |recs| => MarkBelow(recs[k], txid))
  }

  lemma MergedAll(recs: seq<DeltaRec>, snapshot: nat, marked: seq<DeltaRec>)
    requires |marked| == |recs| && forall k :: 0 <= k < |recs| ==> marked[k] == MarkMerged(recs[k], snapshot)
    ensures AfterMerge(recs, snapshot) == if NoneAfter(recs, snapshot) then [] else marked
  {
  }

  lemma MarkedAll(recs: seq<DeltaRec>, txid: nat, marked: seq<DeltaRec>)
    requires |marked| == |recs| && forall k :: 0 <= k < |recs| ==> marked[k] == MarkBelow(recs[k], txid)
    ensures AfterMark(recs, txid) == if AllBelow(marked, txid) then [] else marked
  {
    if AllBelow(marked, txid) {
      forall k | 0 <= k < |recs| ensures recs[k].txid < txid {
        assert marked[k].txid < txid;
      }
    } else {
      var k :| 0 <= k < |marked| && !(marked[k].txid < txid);
      assert !AllBelow(recs, txid);
    }
  }

  /** What a merge has collected from the first n records. */
  ghost predicate Collected(recs: seq<DeltaRec>, every: seq<DeltaRec>, h: History, snapshot: nat, last: nat, n: nat,
                            deltas: map<nat, Row>, nidToTxid: map<nat, nat>)
    requires n <= |recs| <= |every| == |h.log|
  {
    && DeltasAre(h, Taken(every, |every| - |recs|, |every| - |recs| + n, snapshot, last), deltas) && DeltasOk(deltas)
    && nidToTxid.Keys == deltas.Keys
    && forall i, k :: i in nidToTxid && n <= k < |recs| && recs[k].nodeId == i ==> nidToTxid[i] < recs[k].txid
  }

  lemma CollectNone(recs: seq<DeltaRec>, every: seq<DeltaRec>, h: History, snapshot: nat, last: nat)
    requires |recs| <= |every| == |h.log|
    ensures Collected(recs, every, h, snapshot, last, 0, map[], map[])
  {
    TakenNone(every, h, |every| - |recs|, snapshot, last);
  }

  /** The next record overrides an earlier delta of its node: its id is larger. */
  lemma CollectNext(recs: seq<DeltaRec>, every: seq<DeltaRec>, ids: seq<nat>, weights: seq<real>, h: History, snapshot: nat, last: nat,
                    n: nat, deltas: map<nat, Row>, nidToTxid: map<nat, nat>)
    requires RecsOk(recs, every, ids, weights, h) && LogOk(h) && n < |recs| && Collected(recs, every, h, snapshot, last, n, deltas, nidToTxid)
    ensures recs[n].pos + recs[n].count <= |ids| == |weights|
    ensures recs[n].nodeId in nidToTxid ==> nidToTxid[recs[n].nodeId] < recs[n].txid
    ensures var rec := recs[n];
            var row := Row(ids[rec.pos..rec.pos + rec.count], weights[rec.pos..rec.pos + rec.count]);
            if Considered(rec, snapshot, last)
            then Collected(recs, every, h, snapshot, last, n + 1, deltas[rec.nodeId := row], nidToTxid[rec.nodeId := rec.txid])
            else Collected(recs, every, h, snapshot, last, n + 1, deltas, nidToTxid)
  {
    RecAt(recs, every, ids, weights, h, n);
    TakenStep(every, ids, weights, h, |every| - |recs|, |every| - |recs| + n, snapshot, last, deltas);
    LaterRecords(recs, every, ids, weights, h, n);
  }

  /** `merge_deltas` without the final clear: the deltas of the considered records
      and the records with their flags set. */
  method MergeRecords(recs: seq<DeltaRec>, ids: seq<nat>, weights: seq<real>, snapshot: nat, last: nat,
                      ghost every: seq<DeltaRec>, ghost h: History)
    returns (deltas: map<nat, Row>, marked: seq<DeltaRec>, clear: bool)
    requires RecsOk(recs, every, ids, weights, h) && LogOk(h)
    ensures DeltasAre(h, Taken(every, |every| - |recs|, |every|, snapshot, last), deltas) && DeltasOk(deltas)
    ensures |marked| == |recs| && forall k :: 0 <= k < |recs| ==> marked[k] == MarkMerged(recs[k], snapshot)
    ensures clear <==> NoneAfter(recs, snapshot)
    ensures deltas == map[] <==> NothingTaken(recs, snapshot, last)
  {
    var nidToTxid: map<nat, nat> := map[];
    deltas, marked, clear := map[], [], true;
    var n := 0;
    CollectNone(recs, every, h, snapshot, last);
    while n < |recs|
      invariant n <= |recs| && |marked| == n
      invariant Collected(recs, every, h, snapshot, last, n, deltas, nidToTxid)
      invariant forall k :: 0 <= k < n ==> marked[k] == MarkMerged(recs[k], snapshot)
      invariant clear <==> forall k :: 0 <= k < n ==> recs[k].txid <= snapshot
      invariant deltas == map[] <==> forall k :: 0 <= k < n ==> !Considered(recs[k], snapshot, last)
    {
      var rec := recs[n];
      CollectNext(recs, every, ids, weights, h, snapshot, last, n, deltas, nidToTxid);
      if rec.txid > snapshot {
        clear := false;
        marked := marked + [rec];
      } else if rec.txid < last && rec.merged {
        marked := marked + [rec];
      } else {
        var row := Row(ids[rec.pos..rec.pos + rec.count], weights[rec.pos..rec.pos + rec.count]);
        deltas, nidToTxid := deltas[rec.nodeId := row], nidToTxid[rec.nodeId := rec.txid];
        assert rec.nodeId in deltas && Considered(recs[n], snapshot, last);
        marked := marked + [rec.(merged := true)];
      }
      n := n + 1;
    }
  }

  lemma RecAt(recs: seq<DeltaRec>, every: seq<DeltaRec>, ids: seq<nat>, weights: seq<real>, h: History, n: nat)
    requires RecsOk(recs, every, ids, weights, h) && n < |recs|
    ensures var k := |every| - |recs| + n;
            recs[n] == every[k] && RecOk(every[k], h.log[k], h.applied[k], ids, weights)
  {
    RecClauses(recs, every, ids, weights, h);
  }

  lemma TakenNone(every: seq<DeltaRec>, h: History, d: nat, snapshot: nat, last: nat)
    requires d <= |every| == |h.log|
    ensures DeltasAre(h, Taken(every, d, d, snapshot, last), map[])
  {
    forall i: nat ensures LastRow(h.log, Taken(every, d, d, snapshot, last), i, |h.log|) == None {
      NothingBefore(h.log, Taken(every, d, d, snapshot, last), i, |h.log|);
    }
  }

  /** Records of the same node come with increasing ids. */
  lemma LaterRecords(recs: seq<DeltaRec>, every: seq<DeltaRec>, ids: seq<nat>, weights: seq<real>, h: History, n: nat)
    requires RecsOk(recs, every, ids, weights, h) && LogOk(h) && n < |recs|
    ensures forall k :: n < k < |recs| && recs[k].nodeId == recs[n].nodeId ==> recs[n].txid < recs[k].txid
  {
    RecClauses(recs, every, ids, weights, h);
    LogClauses(h);
    var d := |every| - |recs|;
    forall k | n < k < |recs| && recs[k].nodeId == recs[n].nodeId ensures recs[n].txid < recs[k].txid {
      assert RecOk(every[d + k], h.log[d + k], h.applied[d + k], ids, weights);
      assert RecOk(every[d + n], h.log[d + n], h.applied[d + n], ids, weights);
    }
  }

  /** Taking record n overrides the delta of its node. */
  lemma TakenStep(every: seq<DeltaRec>, ids: seq<nat>, weights: seq<real>, h: History, d: nat, n: nat, snapshot: nat, last: nat,
                  deltas: map<nat, Row>)
    requires LogOk(h) && d <= n < |every| == |h.log|
    requires RecOk(every[n], h.log[n], h.applied[n], ids, weights)
    requires DeltasAre(h, Taken(every, d, n, snapshot, last), deltas)
    ensures var r := every[n];
            && r.pos + r.count <= |ids| == |weights|
            && var row := Row(ids[r.pos..r.pos + r.count], weights[r.pos..r.pos + r.count]);
            && RowOk(row)
            && DeltasAre(h, Taken(every, d, n + 1, snapshot, last),
                         if Considered(r, snapshot, last) then deltas[r.nodeId := row] else deltas)
  {
    LogClauses(h);
    var r := every[n];
    var c, c' := Taken(every, d, n, snapshot, last), Taken(every, d, n + 1, snapshot, last);
    forall i: nat
      ensures LastRow(h.log, c', i, |h.log|) ==
              if Considered(r, snapshot, last) && i == r.nodeId then Some(h.log[n].row) else LastRow(h.log, c, i, |h.log|)
    {
      LastRowFrom(h.log, c', i, n + 1, |h.log|);
      LastRowFrom(h.log, c, i, n, |h.log|);
      LastRowPrefix(h.log, c, h.log, c', i, n);
    }
  }

  /** Unflagged entries at the end do not matter. */
  lemma {:induction false} LastRowFrom(log: seq<Entry>, f: seq<bool>, i: nat, m: nat, n: nat)
    requires m <= n <= |log| == |f| && forall k :: m <= k < n ==> !f[k]
    ensures LastRow(log, f, i, n) == LastRow(log, f, i, m)
  {
    if m < n {
      LastRowFrom(log, f, i, m, n - 1);
    }
  }

  /** An entry that is flagged shows up in its node's row. */
  lemma {:induction false} FlaggedShows(log: seq<Entry>, f: seq<bool>, k: nat, n: nat)
    requires k < n <= |log| == |f| && f[k]
    ensures LastRow(log, f, log[k].nid, n).Some?
  {
    if k < n - 1 {
      FlaggedShows(log, f, k, n - 1);
    }
  }

  /** If there are no deltas, nothing was considered. */
  lemma EmptyTakesNothing(h: History, c: seq<bool>)
    requires LogOk(h) && |c| == |h.log| && DeltasAre(h, c, map[])
    ensures Merged(h, c) == h
  {
    forall k | 0 <= k < |c| ensures !c[k] {
      if c[k] { FlaggedShows(h.log, c, k, |c|); }
    }
    assert Or(h.applied, c) == h.applied;
  }

  lemma TakenTakes(recs: seq<DeltaRec>, every: seq<DeltaRec>, ids: seq<nat>, weights: seq<real>, h: History, snapshot: nat, last: nat)
    requires RecsOk(recs, every, ids, weights, h)
    ensures Takes(h, last, snapshot, Taken(every, |every| - |recs|, |every|, snapshot, last))
  {
    RecClauses(recs, every, ids, weights, h);
    forall k | 0 <= k < |every| ensures every[k].txid == h.log[k].txid && every[k].merged == h.applied[k] {
      assert RecOk(every[k], h.log[k], h.applied[k], ids, weights);
    }
  }

  ghost function MarkEvery(every: seq<DeltaRec>, d: nat, snapshot: nat): seq<DeltaRec> {
    seq(|every|, k requires 0 <= k < |every| => if d <= k then MarkMerged(every[k], snapshot) else every[k])
  }

  lemma MarkedTail(recs: seq<DeltaRec>, every: seq<DeltaRec>, d: nat, snapshot: nat, last: nat, marked: seq<DeltaRec>)
    requires d <= |every| && recs == every[d..] && |marked| == |recs|
    requires forall k :: 0 <= k < |recs| ==> marked[k] == MarkMerged(recs[k], snapshot)
    ensures marked == MarkEvery(every, d, snapshot)[d..]
  {
    forall k | 0 <= k < |recs| ensures recs[k] == every[d + k] {
    }
  }

  lemma MarkedRec(r: DeltaRec, e: Entry, done: bool, ids: seq<nat>, weights: seq<real>, r': DeltaRec, taken: bool)
    requires RecOk(r, e, done, ids, weights) && r' == r.(merged := done || taken)
    ensures RecOk(r', e, done || taken, ids, weights)
  {
  }

  /** Marking the considered records, and clearing when none is left for later. */
  lemma MarkKeeps(recs: seq<DeltaRec>, every: seq<DeltaRec>, ids: seq<nat>, weights: seq<real>, h: History, snapshot: nat, last: nat,
                  marked: seq<DeltaRec>)
    requires RecsOk(recs, every, ids, weights, h) && |marked| == |recs|
    requires forall k :: 0 <= k < |recs| ==> marked[k] == MarkMerged(recs[k], snapshot)
    ensures var d := |every| - |recs|;
            var h' := Merged(h, Taken(every, d, |every|, snapshot, last));
            var every' := MarkEvery(every, d, snapshot);
            && RecsOk(marked, every', ids, weights, h')
            && ((forall k :: 0 <= k < |recs| ==> recs[k].txid <= snapshot) ==> RecsOk([], every', ids, weights, h'))
  {
    RecClauses(recs, every, ids, weights, h);
    var d := |every| - |recs|;
    var c := Taken(every, d, |every|, snapshot, last);
    var h' := Merged(h, c);
    var every' := MarkEvery(every, d, snapshot);
    forall k | 0 <= k < |every| ensures RecOk(every'[k], h'.log[k], h'.applied[k], ids, weights) {
      MarkedRec(every[k], h.log[k], h.applied[k], ids, weights, every'[k], c[k]);
    }
    MarkedTail(recs, every, d, snapshot, last, marked);
    if forall k :: 0 <= k < |recs| ==> recs[k].txid <= snapshot {
      AllApplied(recs, every, ids, weights, h, snapshot, last);
      assert every'[|every'|..] == [];
    }
  }

  /** The store after a merge. */
  lemma MergeFacts(recs: seq<DeltaRec>, every: seq<DeltaRec>, ids: seq<nat>, weights: seq<real>, h: History, snapshot: nat, last: nat,
                   marked: seq<DeltaRec>, clear: bool)
    requires RecsOk(recs, every, ids, weights, h) && |marked| == |recs|
    requires forall k :: 0 <= k < |recs| ==> marked[k] == MarkMerged(recs[k], snapshot)
    requires clear <==> forall k :: 0 <= k < |recs| ==> recs[k].txid <= snapshot
    ensures var d := |every| - |recs|;
            var c := Taken(every, d, |every|, snapshot, last);
            && Takes(h, last, snapshot, c)
            && RecsOk(if clear then [] else marked, MarkEvery(every, d, snapshot), ids, weights, Merged(h, c))
  {
    TakenTakes(recs, every, ids, weights, h, snapshot, last);
    MarkKeeps(recs, every, ids, weights, h, snapshot, last, marked);
  }

  lemma AllApplied(recs: seq<DeltaRec>, every: seq<DeltaRec>, ids: seq<nat>, weights: seq<real>, h: History, snapshot: nat, last: nat)
    requires RecsOk(recs, every, ids, weights, h) && forall k :: 0 <= k < |recs| ==> recs[k].txid <= snapshot
    ensures var applied := Merged(h, Taken(every, |every| - |recs|, |every|, snapshot, last)).applied;
            forall k :: 0 <= k < |every| ==> applied[k]
  {
    RecClauses(recs, every, ids, weights, h);
    var d := |every| - |recs|;
    forall k | d <= k < |every| && !Considered(every[k], snapshot, last) ensures h.applied[k] {
      assert every[k] == recs[k - d];
      assert RecOk(every[k], h.log[k], h.applied[k], ids, weights);
    }
  }

  /** The keys of the ordered map, in iteration order. */
  method OrderedKeys(deltas: map<nat, Row>) returns (keys: seq<nat>)
    ensures InOrder(keys, deltas)
  {
    keys := [];
    var rest := deltas.Keys;
    while rest != {}
      invariant rest <= deltas.Keys
      invariant forall i, j :: 0 <= i < j < |keys| ==> keys[i] < keys[j]
      invariant forall k :: k in keys <==> k in deltas && k !in rest
    {
      var k :| k in rest;
      keys := InsertKey(keys, k);
      rest := rest - {k};
    }
    assert forall i :: 0 <= i < |keys| ==> keys[i] in keys;
  }

  method InsertKey(keys: seq<nat>, k: nat) returns (r: seq<nat>)
    requires k !in keys && forall i, j :: 0 <= i < j < |keys| ==> keys[i] < keys[j]
    ensures forall i, j :: 0 <= i < j < |r| ==> r[i] < r[j]
    ensures forall x :: x in r <==> x in keys || x == k
  {
    var p := 0;
    while p < |keys| && keys[p] < k
      invariant p <= |keys| && forall i :: 0 <= i < p ==> keys[i] < k
    {
      p := p + 1;
    }
    r := keys[..p] + [k] + keys[p..];
    forall x | x in keys ensures x in r {
      var i :| 0 <= i < |keys| && keys[i] == x;
      assert r[if i < p then i else i + 1] == x;
    }
    assert r[p] == k;
  }

  /** Patching overrides rows, also past the end of the old arrays. */
  lemma PatchOverrides(prev: Arrays, keys: seq<nat>, deltas: map<nat, Row>, a: Arrays)
    requires WellFormed(prev) && InOrder(keys, deltas) && keys != []
    requires WellFormed(a) && NumRows(a) == NumTargets(NumRows(prev), keys)
    requires forall i :: 0 <= i < NumRows(a) ==> RowAt(a, i) == Target(Rows(prev), deltas, i)
    ensures forall i: nat :: RowOrEmpty(a, i) == if i in deltas then deltas[i] else RowOrEmpty(prev, i)
  {
    forall i: nat ensures RowOrEmpty(a, i) == if i in deltas then deltas[i] else RowOrEmpty(prev, i) {
      if i in deltas {
        assert i in keys;
        var k :| 0 <= k < |keys| && keys[k] == i;
        assert keys[k] <= keys[|keys| - 1];
      }
    }
  }

  // ------------------------------------------------------------------ a full build

  /** The inner loop of `host_csr_build`: append the relationships of one node. */
  method AppendEdges(cols0: seq<nat>, vals0: seq<real>, r: Row) returns (cols: seq<nat>, vals: seq<real>)
    requires RowOk(r)
    ensures cols == cols0 + r.ids && vals == vals0 + r.weights
  {
    cols, vals := cols0, vals0;
    var e := 0;
    while e < |r.ids|
      invariant e <= |r.ids| && cols == cols0 + r.ids[..e] && vals == vals0 + r.weights[..e]
    {
      cols := cols + [r.ids[e]];
      vals := vals + [r.weights[e]];
      e := e + 1;
    }
  }

  /** The outer loop of `host_csr_build` over the adjacency of all node slots. */
  method BuildArrays(adj: seq<Row>) returns (a: Arrays)
    requires RowsOk(adj)
    ensures a == Encode(adj)
  {
    a := Arrays([0], [], []);
    var nid := 0;
    while nid < |adj|
      invariant nid <= |adj| && a == Encode(adj[..nid])
    {
      EncodeSnoc(adj[..nid], adj[nid]);
      assert adj[..nid + 1] == adj[..nid] + [adj[nid]];
      var cols, vals := AppendEdges(a.cols, a.vals, adj[nid]);
      a := Arrays(a.offsets + [|cols|], cols, vals);
      nid := nid + 1;
    }
    assert adj[..nid] == adj;
  }

  /** A full build at txid: deltas below it are in the arrays already. */
  ghost function BuiltHistory(h: History, txid: nat, adj: seq<Row>): History
    requires |h.log| == |h.applied|
  {
    History(seq(|h.log|, k requires 0 <= k < |h.log| => h.log[k].(absorbed := h.log[k].txid < txid)),
            seq(|h.log|, k requires 0 <= k < |h.log| => h.log[k].txid < txid), adj)
  }

  ghost predicate AllOlder(log: seq<Entry>, txid: nat) {
    forall k :: 0 <= k < |log| ==> log[k].txid < txid
  }

  /** The history after a full build, which forgets all deltas if none is newer. */
  ghost function AfterBuild(h: History, txid: nat, adj: seq<Row>): History
    requires |h.log| == |h.applied|
  {
    if AllOlder(h.log, txid) then History([], [], adj) else BuiltHistory(h, txid, adj)
  }

  lemma BuildKeeps(h: History, txid: nat, adj: seq<Row>)
    requires LogOk(h) && RowsOk(adj) && |adj| < WORD - 1
    ensures CsrOk(AfterBuild(h, txid, adj), Some(txid), Encode(adj))
  {
    EncodeRows(adj);
    LogClauses(h);
    var h' := AfterBuild(h, txid, adj);
    LogClauses(h');
    CsrClauses(h', Some(txid), Encode(adj));
    forall i: nat ensures RowOrEmpty(Encode(adj), i) == BaseRow(adj, i) {
      if i < |adj| { assert Rows(Encode(adj))[i] == RowAt(Encode(adj), i); }
    }
    forall i: nat ensures LastRow(h'.log, Flags(h'), i, |h'.log|) == None {
      NothingBefore(h'.log, Flags(h'), i, |h'.log|);
    }
  }

  lemma NonEmptyKeys(keys: seq<nat>, deltas: map<nat, Row>)
    requires InOrder(keys, deltas) && deltas != map[]
    ensures keys != []
  {
    var i :| i in deltas;
    assert i in keys;
  }

  ghost predicate FirstApplied(h: History) {
    |h.applied| > 0 && h.applied[0]
  }

  /** Before the first build no record is merged and none has been cleared. */
  lemma AllPending(recs: seq<DeltaRec>, every: seq<DeltaRec>, ids: seq<nat>, weights: seq<real>, h: History)
    requires RecsOk(recs, every, ids, weights, h) && forall k :: 0 <= k < |h.log| ==> !h.applied[k]
    ensures recs == every && forall k :: 0 <= k < |recs| ==> !recs[k].merged
  {
    RecClauses(recs, every, ids, weights, h);
    assert |recs| < |every| ==> FirstApplied(h);
    assert every[0..] == every;
    forall k | 0 <= k < |every| ensures !every[k].merged {
      assert RecOk(every[k], h.log[k], h.applied[k], ids, weights);
    }
  }

  lemma StoreRecKeeps(recs: seq<DeltaRec>, every: seq<DeltaRec>, ids: seq<nat>, weights: seq<real>, h: History, e: Entry)
    requires RecsOk(recs, every, ids, weights, h) && RowOk(e.row) && |ids| == |weights|
    ensures var rec := DeltaRec(e.txid, e.nid, |ids|, |e.row.ids|, false);
            RecsOk(recs + [rec], every + [rec], ids + e.row.ids, weights + e.row.weights, Stored(h, e))
  {
    RecClauses(recs, every, ids, weights, h);
    var every' := every + [DeltaRec(e.txid, e.nid, |ids|, |e.row.ids|, false)];
    var h' := Stored(h, e);
    var ids', weights' := ids + e.row.ids, weights + e.row.weights;
    forall k | 0 <= k < |every'| ensures RecOk(every'[k], h'.log[k], h'.applied[k], ids', weights') {
      if k < |every| {
        AppendKeepsRec(every[k], h.log[k], h.applied[k], ids, weights, e.row);
      }
    }
  }

  lemma AppendKeepsRec(r: DeltaRec, e: Entry, done: bool, ids: seq<nat>, weights: seq<real>, row: Row)
    requires RecOk(r, e, done, ids, weights) && RowOk(row)
    ensures RecOk(r, e, done, ids + row.ids, weights + row.weights)
  {
    assert (ids + row.ids)[r.pos..r.pos + r.count] == ids[r.pos..r.pos + r.count];
    assert (weights + row.weights)[r.pos..r.pos + r.count] == weights[r.pos..r.pos + r.count];
  }

  /** The records after the marking of a build, and the clear if none is newer. */
  lemma BuiltRecs(recs: seq<DeltaRec>, ids: seq<nat>, weights: seq<real>, h: History, txid: nat, adj: seq<Row>, marked: seq<DeltaRec>, clear: bool)
    requires RecsOk(recs, recs, ids, weights, h) && |marked| == |recs|
    requires forall k :: 0 <= k < |recs| ==> !recs[k].merged
    requires forall k :: 0 <= k < |recs| ==> marked[k] == recs[k].(merged := recs[k].merged || recs[k].txid < txid)
    requires clear <==> forall k :: 0 <= k < |recs| ==> marked[k].txid < txid
    ensures var kept := if clear then [] else marked;
            RecsOk(kept, kept, ids, weights, AfterBuild(h, txid, adj))
  {
    SameAge(recs, ids, weights, h, txid, marked);
    if clear {
      RecClauses([], [], ids, weights, History([], [], adj));
    } else {
      MarkedRecs(recs, ids, weights, h, txid, adj, marked);
    }
  }

  lemma SameAge(recs: seq<DeltaRec>, ids: seq<nat>, weights: seq<real>, h: History, txid: nat, marked: seq<DeltaRec>)
    requires RecsOk(recs, recs, ids, weights, h) && |marked| == |recs|
    requires forall k :: 0 <= k < |recs| ==> marked[k].txid == recs[k].txid
    ensures AllOlder(h.log, txid) <==> forall k :: 0 <= k < |recs| ==> marked[k].txid < txid
  {
    RecClauses(recs, recs, ids, weights, h);
    forall k | 0 <= k < |recs| ensures marked[k].txid == h.log[k].txid {
      assert RecOk(recs[k], h.log[k], h.applied[k], ids, weights);
    }
  }

  lemma MarkedRecs(recs: seq<DeltaRec>, ids: seq<nat>, weights: seq<real>, h: History, txid: nat, adj: seq<Row>, marked: seq<DeltaRec>)
    requires RecsOk(recs, recs, ids, weights, h) && |marked| == |recs|
    requires forall k :: 0 <= k < |recs| ==> !recs[k].merged
    requires forall k :: 0 <= k < |recs| ==> marked[k] == recs[k].(merged := recs[k].merged || recs[k].txid < txid)
    ensures RecsOk(marked, marked, ids, weights, BuiltHistory(h, txid, adj))
  {
    RecClauses(recs, recs, ids, weights, h);
    var h' := BuiltHistory(h, txid, adj);
    forall k | 0 <= k < |recs| ensures RecOk(marked[k], h'.log[k], h'.applied[k], ids, weights) {
      assert RecOk(recs[k], h.log[k], h.applied[k], ids, weights);
    }
    assert marked[0..] == marked;
    RecClauses(marked, marked, ids, weights, h');
  }

  /** Right after a build at txid nothing is pending for the snapshot txid. */
  lemma BuildIsVisible(h: History, txid: nat, adj: seq<Row>)
    requires LogOk(h) && forall k :: 0 <= k < |h.log| ==> h.log[k].txid != txid
    ensures var h' := AfterBuild(h, txid, adj);
            |h'.log| == |h'.applied| && Flags(h') == VisibleTo(h'.log, txid)
  {
  }

  /** The store after a full build. */
  lemma BuildDone(recs: seq<DeltaRec>, every: seq<DeltaRec>, ids: seq<nat>, weights: seq<real>, h: History, csr: Arrays, txid: nat, adj: seq<Row>,
                  marked: seq<DeltaRec>, clear: bool)
    requires RecsOk(recs, every, ids, weights, h) && CsrOk(h, None, csr) && RowsOk(adj) && |adj| < WORD - 1 && |marked| == |recs|
    requires forall k :: 0 <= k < |h.log| ==> h.log[k].txid != txid
    requires forall k :: 0 <= k < |recs| ==> marked[k] == recs[k].(merged := recs[k].merged || recs[k].txid < txid)
    requires clear <==> forall k :: 0 <= k < |recs| ==> marked[k].txid < txid
    ensures var kept, h' := if clear then [] else marked, AfterBuild(h, txid, adj);
            && RecsOk(kept, kept, ids, weights, h') && CsrOk(h', Some(txid), Encode(adj))
            && WellFormed(Encode(adj)) && RowsAre(Encode(adj), h'.log, VisibleTo(h'.log, txid), h'.base)
  {
    var h' := AfterBuild(h, txid, adj);
    CsrClauses(h, None, csr);
    AllPending(recs, every, ids, weights, h);
    BuildKeeps(h, txid, adj);
    BuildIsVisible(h, txid, adj);
    BuiltRecs(recs, ids, weights, h, txid, adj, marked, clear);
    CsrClauses(h', Some(txid), Encode(adj));
  }

  /** Rows are only ever added, up to the largest node with a delta. */
  lemma PatchSize(h: History, c: seq<bool>, prev: nat, keys: seq<nat>, deltas: map<nat, Row>)
    requires LogOk(h) && |c| == |h.log| && DeltasAre(h, c, deltas) && InOrder(keys, deltas) && keys != [] && prev < WORD - 1
    ensures prev <= NumTargets(prev, keys) < WORD - 1
  {
    var i := keys[|keys| - 1];
    assert i in keys;
    assert LastRow(h.log, c, i, |h.log|).Some?;
    LastRowFound(h.log, c, i, |h.log|);
    LogClauses(h);
  }

  lemma {:induction false} LastRowFound(log: seq<Entry>, f: seq<bool>, i: nat, n: nat)
    requires n <= |log| == |f| && LastRow(log, f, i, n).Some?
    ensures exists k :: 0 <= k < n && log[k].nid == i
  {
    if !(f[n - 1] && log[n - 1].nid == i) {
      LastRowFound(log, f, i, n - 1);
    }
  }
}
