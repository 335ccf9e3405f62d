/** Every sequence of stores and updates: each update returns arrays whose rows are the
    latest stored deltas visible to its snapshot, on top of the first full build. */
module CsrRuns {
  import opened Wrappers
  import opened Csr
  import opened CsrDelta
  import opened CsrStore

  /** `adj` is the adjacency the updating transaction sees, read only by the first build. */
  datatype Call = Store(txid: nat, nid: nat, row: Row) | Update(txid: nat, adj: seq<Row>)

  /** The first update, how many deltas had been stored before it, and the id of the
      last update that filled the arrays of its caller. */
  datatype Build = Build(txid: nat, adj: seq<Row>, seen: nat, last: nat)

  /** All deltas stored, the build, and the records that are still in the store. */
  datatype Past = Past(stores: seq<Entry>, build: Option<Build>, pending: seq<DeltaRec>, filled: nat)

  function AfterCall(p: Past, c: Call): Past {
    match c
    case Store(txid, nid, row) =>
      p.(stores := p.stores + [Entry(txid, nid, row, false)],
         pending := p.pending + [DeltaRec(txid, nid, p.filled, |row.ids|, false)], filled := p.filled + |row.ids|)
    case Update(txid, adj) =>
      if p.build.None? then
        p.(build := Some(Build(txid, adj, |p.stores|, txid)), pending := AfterMark(p.pending, txid))
      else if Refuses(p, txid) then p
      else
        var b := p.build.value;
        p.(build := Some(b.(last := if NothingTaken(p.pending, txid, b.last) then b.last else txid)),
           pending := AfterMerge(p.pending, txid))
  }

  /** The arrays hold the snapshot of a later transaction. */
  predicate Refuses(p: Past, txid: nat) {
    p.build.Some? && txid < p.build.value.last
  }

  /** An accepted update finds no record to merge. */
  predicate FindsNothing(p: Past, txid: nat) {
    p.build.Some? && p.build.value.last <= txid && NothingTaken(p.pending, txid, p.build.value.last)
  }

  const NO_CALLS := Past([], None, [], 0)

  function PastOf(calls: seq<Call>): Past {
    if calls == [] then NO_CALLS else AfterCall(PastOf(calls[..|calls| - 1]), calls[|calls| - 1])
  }

  /** What the source relies on: transactions that change the same node commit in id
      order, and the first build meets at least one node slot and no delta of its own. */
  ghost predicate Proper(p: Past, c: Call) {
    match c
    case Store(txid, nid, row) =>
      && RowOk(row) && nid < MAX_NODES
      && forall k :: 0 <= k < |p.stores| && p.stores[k].nid == nid ==> p.stores[k].txid < txid
    case Update(txid, adj) =>
      p.build.None? ==> RowsOk(adj) && 0 < |adj| < WORD - 1 && forall k :: 0 <= k < |p.stores| ==> p.stores[k].txid != txid
  }

  /** The first build has read delta k. */
  ghost predicate SeenByBuild(p: Past, k: nat)
    requires k < |p.stores| && p.build.Some?
  {
    k < p.build.value.seen && p.stores[k].txid < p.build.value.txid
  }

  /** The deltas visible at a snapshot that the build has not read. */
  ghost function Window(p: Past, snapshot: nat): seq<bool>
    requires p.build.Some?
  {
    seq(|p.stores|, k requires 0 <= k < |p.stores| => !SeenByBuild(p, k) && p.stores[k].txid <= snapshot)
  }

  /** The row of node i at a snapshot: its latest such delta, else the row of the build. */
  ghost function RowThen(p: Past, snapshot: nat, i: nat): Row
    requires p.build.Some?
  {
    match LastRow(p.stores, Window(p, snapshot), i, |p.stores|)
    case Some(r) => r
    case None => BaseRow(p.build.value.adj, i)
  }

  ghost predicate RowsThen(a: Arrays, p: Past, snapshot: nat) {
    p.build.Some? && WellFormed(a) && forall i: nat :: RowOrEmpty(a, i) == RowThen(p, snapshot, i)
  }

  /** Delta k belongs to the snapshot, and the build has not read it. */
  predicate InSnapshot(p: Past, snapshot: nat, k: nat)
    requires k < |p.stores| && p.build.Some?
  {
    p.stores[k].txid <= snapshot && !(k < p.build.value.seen && p.stores[k].txid < p.build.value.txid)
  }

  /** The row of a node is that of its last such delta; without one, that of the build. */
  lemma RowThenMeans(p: Past, snapshot: nat, i: nat)
    requires p.build.Some?
    ensures forall k: nat :: k < |p.stores| && p.stores[k].nid == i && InSnapshot(p, snapshot, k) &&
                             (forall j :: k < j < |p.stores| && p.stores[j].nid == i ==> !InSnapshot(p, snapshot, j)) ==>
                             RowThen(p, snapshot, i) == p.stores[k].row
    ensures (forall k :: 0 <= k < |p.stores| && p.stores[k].nid == i ==> !InSnapshot(p, snapshot, k)) ==>
            RowThen(p, snapshot, i) == if i < |p.build.value.adj| then p.build.value.adj[i] else Row([], [])
  {
    forall k: nat | k < |p.stores| && p.stores[k].nid == i && InSnapshot(p, snapshot, k) &&
                    (forall j :: k < j < |p.stores| && p.stores[j].nid == i ==> !InSnapshot(p, snapshot, j))
      ensures RowThen(p, snapshot, i) == p.stores[k].row
    {
      LastIs(p.stores, Window(p, snapshot), i, k, |p.stores|);
    }
    if forall k :: 0 <= k < |p.stores| && p.stores[k].nid == i ==> !InSnapshot(p, snapshot, k) {
      NothingBefore(p.stores, Window(p, snapshot), i, |p.stores|);
    }
  }

  lemma {:induction false} LastIs(log: seq<Entry>, f: seq<bool>, i: nat, k: nat, n: nat)
    requires k < n <= |log| == |f| && log[k].nid == i && f[k] && forall j :: k < j < n && log[j].nid == i ==> !f[j]
    ensures LastRow(log, f, i, n) == Some(log[k].row)
  {
    if k < n - 1 {
      LastIs(log, f, i, k, n - 1);
    }
  }

  // ------------------------------------------------------- the store follows the past

  /** The history of the store: the deltas from the d-th on; the build has read the others. */
  ghost predicate Tracks(h: History, p: Past, d: nat) {
    && d + |h.log| == |p.stores|
    && if p.build.None? then d == 0 && h.log == p.stores
       else
         && p.build.value.seen <= |p.stores| && d <= p.build.value.seen && h.base == p.build.value.adj
         && (forall k :: 0 <= k < d ==> SeenByBuild(p, k))
         && (forall k :: 0 <= k < |h.log| ==> h.log[k] == p.stores[d + k].(absorbed := SeenByBuild(p, d + k)))
  }

  /** An update after the build changes neither the stores nor what the build has read. */
  lemma TracksUpdate(h: History, p: Past, h': History, d: nat, txid: nat, adj: seq<Row>)
    requires Tracks(h, p, d) && p.build.Some? && h'.log == h.log && h'.base == h.base
    ensures Tracks(h', AfterCall(p, Update(txid, adj)), d)
  {
    var p' := AfterCall(p, Update(txid, adj));
    forall k | 0 <= k < |p.stores| ensures SeenByBuild(p', k) == SeenByBuild(p, k) {
    }
  }

  lemma {:induction false} SameLastRow(h: History, p: Past, d: nat, snapshot: nat, i: nat, n: nat)
    requires Tracks(h, p, d) && p.build.Some? && n <= |p.stores|
    ensures LastRow(p.stores, Window(p, snapshot), i, n) ==
            if n <= d then None else LastRow(h.log, VisibleTo(h.log, snapshot), i, n - d)
  {
    if n > 0 {
      SameLastRow(h, p, d, snapshot, i, n - 1);
    }
  }

  lemma TrackedRows(h: History, p: Past, d: nat, snapshot: nat, a: Arrays)
    requires Tracks(h, p, d) && p.build.Some? && WellFormed(a) && RowsAre(a, h.log, VisibleTo(h.log, snapshot), h.base)
    ensures RowsThen(a, p, snapshot)
  {
    forall i: nat ensures RowOrEmpty(a, i) == RowThen(p, snapshot, i) {
      SameLastRow(h, p, d, snapshot, i, |p.stores|);
    }
  }

  lemma TracksStore(h: History, p: Past, d: nat, txid: nat, nid: nat, row: Row)
    requires Tracks(h, p, d) && Proper(p, Store(txid, nid, row))
    ensures Tracks(Stored(h, Entry(txid, nid, row, false)), AfterCall(p, Store(txid, nid, row)), d)
    ensures forall k :: 0 <= k < |h.log| && h.log[k].nid == nid ==> h.log[k].txid < txid
  {
    var p' := AfterCall(p, Store(txid, nid, row));
    forall k | 0 <= k < |h.log| ensures h.log[k].nid == p.stores[d + k].nid && h.log[k].txid == p.stores[d + k].txid {
    }
    if p.build.Some? {
      forall k | 0 <= k < |p.stores| ensures SeenByBuild(p', k) == SeenByBuild(p, k) {
      }
      assert !SeenByBuild(p', |p.stores|);
    }
  }

  lemma TracksBuild(h: History, p: Past, txid: nat, adj: seq<Row>) returns (d: nat)
    requires Tracks(h, p, 0) && p.build.None? && |h.log| == |h.applied| && (forall k :: 0 <= k < |p.stores| ==> !p.stores[k].absorbed)
    ensures Tracks(AfterBuild(h, txid, adj), AfterCall(p, Update(txid, adj)), d)
  {
    d := if AllOlder(h.log, txid) then |h.log| else 0;
  }

  // ------------------------------------------------------------------------ the calls

  datatype FollowClause = TrackClause | RecordsClause | RowsClause

  ghost predicate FollowMeets(c: FollowClause, store: DeltaStore, p: Past, d: nat)
    reads store
  {
    match c
    case TrackClause => Tracks(store.h, p, d) && forall k :: 0 <= k < |p.stores| ==> !p.stores[k].absorbed
    case RecordsClause => store.recs == p.pending && store.nextPos == p.filled
    case RowsClause =>
      match p.build
      case None => store.lastTxn == None
      case Some(b) => store.lastTxn == Some(b.last) && |store.csr.offsets| > 1
  }

  /** The state of the store after some calls. */
  ghost predicate Follows(store: DeltaStore, p: Past, d: nat)
    reads store
  {
    forall c :: FollowMeets(c, store, p, d)
  }

  lemma FollowClauses(store: DeltaStore, p: Past, d: nat)
    ensures Follows(store, p, d) <==>
              && FollowMeets(TrackClause, store, p, d) && FollowMeets(RecordsClause, store, p, d)
              && FollowMeets(RowsClause, store, p, d)
  {
    if FollowMeets(TrackClause, store, p, d) && FollowMeets(RecordsClause, store, p, d) && FollowMeets(RowsClause, store, p, d) {
      forall c ensures FollowMeets(c, store, p, d) {
        match c
        case TrackClause => case RecordsClause => case RowsClause =>
      }
    }
  }

  lemma NothingTracked(store: DeltaStore)
    requires store.h.log == [] && store.recs == [] && store.nextPos == 0 && store.lastTxn == None
    ensures Follows(store, NO_CALLS, 0)
  {
    assert Tracks(store.h, NO_CALLS, 0);
    assert FollowMeets(TrackClause, store, NO_CALLS, 0);
    FollowClauses(store, NO_CALLS, 0);
  }

  method NewStore() returns (store: DeltaStore)
    ensures fresh(store) && store.Valid() && Follows(store, NO_CALLS, 0)
  {
    store := new DeltaStore();
    NothingTracked(store);
  }

  /** What a call gives its caller: Unfilled is a return that leaves the caller's
      arrays as they were, Refused the exception. */
  datatype Answer = Accepted | Filled(a: Arrays) | Unfilled | Refused

  /** The answer after the calls p, in each case exactly. */
  ghost predicate AnswerOk(p: Past, c: Call, answer: Answer) {
    match c
    case Store(_, _, _) => answer == Accepted
    case Update(txid, _) =>
      if Refuses(p, txid) then answer == Refused
      else if FindsNothing(p, txid) then answer == Unfilled
      else answer.Filled? && RowsThen(answer.a, AfterCall(p, c), txid)
  }

  /** One call; the cached arrays stand at the snapshot of any update not refused. */
  method Perform(store: DeltaStore, c: Call, ghost p: Past, ghost d: nat) returns (answer: Answer, ghost d': nat)
    requires store.Valid() && Follows(store, p, d) && Proper(p, c)
    modifies store
    ensures store.Valid() && Follows(store, AfterCall(p, c), d')
    ensures AnswerOk(p, c, answer)
    ensures c.Update? && answer != Refused ==> RowsThen(store.csr, AfterCall(p, c), c.txid)
  {
    FollowClauses(store, p, d);
    match c {
    case Store(txid, nid, row) =>
      TracksStore(store.h, p, d, txid, nid, row);
      store.StoreDelta(txid, nid, row);
      answer, d' := Accepted, d;
    case Update(txid, adj) =>
      d' := d;
      ghost var h := store.h;
      if p.build.None? {
        d' := TracksBuild(h, p, txid, adj);
      }
      var r := store.UpdateWithDelta(txid, adj);
      if p.build.Some? {
        TracksUpdate(h, p, store.h, d, txid, adj);
      }
      if !r.InvalidCsrUpdate? {
        TrackedRows(store.h, AfterCall(p, c), d', txid, store.csr);
      }
      match r {
      case InvalidCsrUpdate => answer := Refused;
      case NothingToUpdate => answer := Unfilled;
      case Built(a) => answer := Filled(a);
      case Updated(a) => answer := Filled(a);
      }
    }
    FollowClauses(store, AfterCall(p, c), d');
  }

  ghost predicate Answered(calls: seq<Call>, answers: seq<Answer>) {
    && |answers| == |calls|
    && (calls == [] ||
        var n := |calls| - 1;
        Answered(calls[..n], answers[..n]) && AnswerOk(PastOf(calls[..n]), calls[n], answers[n]))
  }

  /** Every call is proper at its time. */
  ghost predicate AllProper(calls: seq<Call>) {
    calls == [] ||
    var n := |calls| - 1;
    AllProper(calls[..n]) && Proper(PastOf(calls[..n]), calls[n])
  }

  /** Any interleaving of stores and updates on a new store. */
  method PerformAll(calls: seq<Call>) returns (store: DeltaStore, answers: seq<Answer>, ghost d: nat)
    requires AllProper(calls)
    ensures Answered(calls, answers) && forall n :: 0 <= n < |calls| ==> Explained(calls, answers, n)
    ensures fresh(store) && store.Valid() && Follows(store, PastOf(calls), d)
    decreases |calls|
  {
    if calls == [] {
      store := NewStore();
      answers, d := [], 0;
    } else {
      var n := |calls| - 1;
      store, answers, d := PerformAll(calls[..n]);
      var answer;
      answer, d := Perform(store, calls[n], PastOf(calls[..n]), d);
      assert (answers + [answer])[..n] == answers;
      answers := answers + [answer];
    }
    AllExplained(calls, answers);
  }

  // ------------------------------------------------- when the caller gets no arrays

  /** Call b is an update that was not refused. */
  ghost predicate Took(calls: seq<Call>, answers: seq<Answer>, b: nat) {
    b < |calls| == |answers| && calls[b].Update? && answers[b] != Refused
  }

  /** Call l is the last of the first n that filled its caller's arrays. */
  ghost predicate LastFill(answers: seq<Answer>, n: nat, l: nat) {
    l < n <= |answers| && answers[l].Filled? && forall j :: l < j < n ==> !answers[j].Filled?
  }

  /** Every delta stored before call b has at most the id of b. */
  ghost predicate NoneNewer(calls: seq<Call>, b: nat) {
    b < |calls| && forall a :: 0 <= a < b && calls[a].Store? ==> calls[a].txid <= calls[b].txid
  }

  /** The delta that call a stored is settled by the fill l: it was stored before and is
      older, or has the same id and was dropped by an update that met no newer delta. */
  ghost predicate SettledBy(calls: seq<Call>, answers: seq<Answer>, l: nat, a: nat) {
    && a < l < |calls|
    && (calls[a].txid < calls[l].txid ||
        (calls[a].txid == calls[l].txid && exists b :: a < b <= l && Took(calls, answers, b) && NoneNewer(calls, b)))
  }

  ghost predicate AllSettled(calls: seq<Call>, answers: seq<Answer>, l: nat, n: nat)
    requires n < |calls|
  {
    forall a :: 0 <= a < n && calls[a].Store? && calls[a].txid <= calls[n].txid ==> SettledBy(calls, answers, l, a)
  }

  /** The answer to call n by comparing ids of past calls: the first update fills; then an
      update is refused if and only if its id is below that of the last fill, and leaves
      the arrays unfilled if and only if that fill has settled every delta up to its id. */
  ghost predicate Explained(calls: seq<Call>, answers: seq<Answer>, n: nat)
    requires n < |calls| == |answers|
  {
    if calls[n].Store? then answers[n] == Accepted
    else
      && answers[n] != Accepted
      && ((forall j :: 0 <= j < n ==> !answers[j].Filled?) ==> answers[n].Filled?)
      && forall l: nat :: LastFill(answers, n, l) ==>
           && (answers[n] == Refused <==> calls[n].txid < calls[l].txid)
           && (answers[n] == Unfilled <==> calls[l].txid <= calls[n].txid && AllSettled(calls, answers, l, n))
  }

  datatype KeptClause = PlaceClause | SettledClause | NewerClause | FillClause

  /** Record j of the store after n calls was stored by call at[j]; l is the last fill. */
  ghost predicate KeptMeets(c: KeptClause, calls: seq<Call>, answers: seq<Answer>, n: nat, at: seq<nat>, l: nat)
    requires n <= |calls| == |answers|
  {
    var p := PastOf(calls[..n]);
    match c
    case PlaceClause =>
      |at| == |p.pending| && forall j :: 0 <= j < |at| ==> at[j] < n && calls[at[j]].Store? && calls[at[j]].txid == p.pending[j].txid
    case SettledClause =>
      forall a :: 0 <= a < n && calls[a].Store? && a !in at ==> p.build.Some? && SettledBy(calls, answers, l, a)
    case NewerClause =>
      forall j, b :: 0 <= j < |at| && at[j] < b < n && Took(calls, answers, b) ==> !NoneNewer(calls, b)
    case FillClause =>
      |at| == |p.pending| &&
      if p.build.None?
      then (forall b :: 0 <= b < n ==> !answers[b].Filled? && !Took(calls, answers, b)) && forall j :: 0 <= j < |at| ==> !p.pending[j].merged
      else
        && LastFill(answers, n, l) && l < |calls| && calls[l].Update? && calls[l].txid == p.build.value.last
        && forall j :: 0 <= j < |at| ==> (p.pending[j].merged <==> at[j] < l && p.pending[j].txid <= calls[l].txid)
  }

  ghost predicate Kept(calls: seq<Call>, answers: seq<Answer>, n: nat, at: seq<nat>, l: nat)
    requires n <= |calls| == |answers|
  {
    forall c :: KeptMeets(c, calls, answers, n, at, l)
  }

  lemma KeptClauses(calls: seq<Call>, answers: seq<Answer>, n: nat, at: seq<nat>, l: nat)
    requires n <= |calls| == |answers|
    ensures Kept(calls, answers, n, at, l) <==>
              && KeptMeets(PlaceClause, calls, answers, n, at, l) && KeptMeets(SettledClause, calls, answers, n, at, l)
              && KeptMeets(NewerClause, calls, answers, n, at, l) && KeptMeets(FillClause, calls, answers, n, at, l)
  {
    if && KeptMeets(PlaceClause, calls, answers, n, at, l) && KeptMeets(SettledClause, calls, answers, n, at, l)
       && KeptMeets(NewerClause, calls, answers, n, at, l) && KeptMeets(FillClause, calls, answers, n, at, l)
    {
      forall c ensures KeptMeets(c, calls, answers, n, at, l) {
        match c
        case PlaceClause => case SettledClause => case NewerClause => case FillClause =>
      }
    }
  }

  lemma PastNext(calls: seq<Call>, n: nat)
    requires n < |calls|
    ensures PastOf(calls[..n + 1]) == AfterCall(PastOf(calls[..n]), calls[n])
    ensures AllProper(calls[..n + 1]) <==> AllProper(calls[..n]) && Proper(PastOf(calls[..n]), calls[n])
  {
    assert calls[..n + 1][..n] == calls[..n];
  }

  lemma KeepStore(calls: seq<Call>, answers: seq<Answer>, n: nat, at: seq<nat>, l: nat)
    requires n < |calls| == |answers| && Kept(calls, answers, n, at, l) && calls[n].Store? && answers[n] == Accepted
    ensures Kept(calls, answers, n + 1, at + [n], l)
  {
    KeptClauses(calls, answers, n, at, l);
    assert calls[..n + 1][..n] == calls[..n];
    KeptClauses(calls, answers, n + 1, at + [n], l);
    assert (at + [n])[|at|] == n;
    forall a | 0 <= a < n + 1 && calls[a].Store? && a !in at + [n] ensures a < n && a !in at {
    }
  }

  /** The first update: it drops the records if none is newer. */
  lemma KeepBuild(calls: seq<Call>, answers: seq<Answer>, n: nat, at: seq<nat>, l: nat) returns (at': seq<nat>)
    requires n < |calls| == |answers| && Kept(calls, answers, n, at, l) && calls[n].Update? && answers[n].Filled?
    requires PastOf(calls[..n]).build.None? && Proper(PastOf(calls[..n]), calls[n])
    ensures Kept(calls, answers, n + 1, at', n)
  {
    if AllBelow(PastOf(calls[..n]).pending, calls[n].txid) {
      at' := [];
      BuildDrops(calls, answers, n, at, l);
    } else {
      at' := at;
      BuildMarks(calls, answers, n, at, l);
    }
  }

  lemma BuildDrops(calls: seq<Call>, answers: seq<Answer>, n: nat, at: seq<nat>, l: nat)
    requires n < |calls| == |answers| && Kept(calls, answers, n, at, l) && calls[n].Update? && answers[n].Filled?
    requires PastOf(calls[..n]).build.None? && AllBelow(PastOf(calls[..n]).pending, calls[n].txid)
    ensures Kept(calls, answers, n + 1, [], n)
  {
    KeptClauses(calls, answers, n, at, l);
    PastNext(calls, n);
    forall a | 0 <= a < n && calls[a].Store? ensures SettledBy(calls, answers, n, a) {
      assert a in at;
    }
    KeptClauses(calls, answers, n + 1, [], n);
  }

  lemma BuildMarks(calls: seq<Call>, answers: seq<Answer>, n: nat, at: seq<nat>, l: nat)
    requires n < |calls| == |answers| && Kept(calls, answers, n, at, l) && calls[n].Update? && answers[n].Filled?
    requires PastOf(calls[..n]).build.None? && Proper(PastOf(calls[..n]), calls[n]) && !AllBelow(PastOf(calls[..n]).pending, calls[n].txid)
    ensures Kept(calls, answers, n + 1, at, n)
  {
    KeptClauses(calls, answers, n, at, l);
    BuildMarksRecords(calls, answers, n, at, l);
    var j :| 0 <= j < |at| && calls[n].txid < calls[at[j]].txid;
    assert !NoneNewer(calls, n);
    KeptClauses(calls, answers, n + 1, at, n);
  }

  lemma BuildMarksRecords(calls: seq<Call>, answers: seq<Answer>, n: nat, at: seq<nat>, l: nat)
    requires n < |calls| == |answers| && Kept(calls, answers, n, at, l) && calls[n].Update? && answers[n].Filled?
    requires PastOf(calls[..n]).build.None? && Proper(PastOf(calls[..n]), calls[n]) && !AllBelow(PastOf(calls[..n]).pending, calls[n].txid)
    ensures KeptMeets(PlaceClause, calls, answers, n + 1, at, n) && KeptMeets(FillClause, calls, answers, n + 1, at, n)
    ensures PastOf(calls[..n + 1]).build.Some? && exists j :: 0 <= j < |at| && at[j] < n && calls[n].txid < calls[at[j]].txid
  {
    KeptClauses(calls, answers, n, at, l);
    PastNext(calls, n);
    var p, p' := PastOf(calls[..n]), PastOf(calls[..n + 1]);
    NeverEqual(calls[..n], calls[n]);
    forall k | 0 <= k < |at| ensures p'.pending[k].txid == p.pending[k].txid && (p'.pending[k].merged <==> p.pending[k].txid < calls[n].txid) {
      assert p'.pending[k] == MarkBelow(p.pending[k], calls[n].txid);
    }
    var j :| 0 <= j < |p.pending| && calls[n].txid <= p.pending[j].txid;
    assert calls[n].txid < calls[at[j]].txid;
  }

  lemma NeverEqual(calls: seq<Call>, first: Call)
    requires PastOf(calls).build.None? && first.Update? && Proper(PastOf(calls), first)
    ensures forall j :: 0 <= j < |PastOf(calls).pending| ==> PastOf(calls).pending[j].txid != first.txid
  {
    var p := PastOf(calls);
    PendingBeforeBuild(calls);
    forall j | 0 <= j < |p.pending| ensures p.pending[j].txid != first.txid {
      assert p.stores[j].txid != first.txid;
    }
  }

  lemma KeepRefused(calls: seq<Call>, answers: seq<Answer>, n: nat, at: seq<nat>, l: nat)
    requires n < |calls| == |answers| && Kept(calls, answers, n, at, l) && calls[n].Update? && answers[n] == Refused
    requires Refuses(PastOf(calls[..n]), calls[n].txid)
    ensures Kept(calls, answers, n + 1, at, l)
  {
    KeptClauses(calls, answers, n, at, l);
    assert calls[..n + 1][..n] == calls[..n];
    KeptClauses(calls, answers, n + 1, at, l);
  }

  /** What an accepted update drops. */
  function AtAfter(p: Past, txid: nat, at: seq<nat>): seq<nat> {
    if NoneAfter(p.pending, txid) then [] else at
  }

  lemma NewerLeft(calls: seq<Call>, answers: seq<Answer>, n: nat, at: seq<nat>, l: nat)
    requires n < |calls| == |answers| && Kept(calls, answers, n, at, l) && calls[n].Update?
    ensures AtAfter(PastOf(calls[..n]), calls[n].txid, at) != [] ==> !NoneNewer(calls, n)
  {
    KeptClauses(calls, answers, n, at, l);
    var p := PastOf(calls[..n]);
    if !NoneAfter(p.pending, calls[n].txid) {
      var j :| 0 <= j < |p.pending| && p.pending[j].txid > calls[n].txid;
      assert calls[at[j]].txid > calls[n].txid;
    }
  }

  lemma KeepUnfilled(calls: seq<Call>, answers: seq<Answer>, n: nat, at: seq<nat>, l: nat)
    requires n < |calls| == |answers| && Kept(calls, answers, n, at, l) && calls[n].Update? && answers[n] == Unfilled
    requires FindsNothing(PastOf(calls[..n]), calls[n].txid)
    ensures Kept(calls, answers, n + 1, AtAfter(PastOf(calls[..n]), calls[n].txid, at), l)
  {
    KeptClauses(calls, answers, n, at, l);
    assert calls[..n + 1][..n] == calls[..n];
    var p := PastOf(calls[..n]);
    var at' := AtAfter(p, calls[n].txid, at);
    NewerLeft(calls, answers, n, at, l);
    forall a | 0 <= a < n && calls[a].Store? && a !in at' ensures SettledBy(calls, answers, l, a) {
      if a in at {
        var j :| 0 <= j < |at| && at[j] == a;
        assert !Considered(p.pending[j], calls[n].txid, p.build.value.last);
      }
    }
    KeptClauses(calls, answers, n + 1, at', l);
  }

  lemma KeepFilled(calls: seq<Call>, answers: seq<Answer>, n: nat, at: seq<nat>, l: nat)
    requires n < |calls| == |answers| && Kept(calls, answers, n, at, l) && calls[n].Update? && answers[n].Filled?
    requires var p := PastOf(calls[..n]);
             p.build.Some? && !Refuses(p, calls[n].txid) && !FindsNothing(p, calls[n].txid)
    ensures Kept(calls, answers, n + 1, AtAfter(PastOf(calls[..n]), calls[n].txid, at), n)
  {
    KeptClauses(calls, answers, n, at, l);
    assert calls[..n + 1][..n] == calls[..n];
    var p := PastOf(calls[..n]);
    var at' := AtAfter(p, calls[n].txid, at);
    NewerLeft(calls, answers, n, at, l);
    forall a | 0 <= a < n && calls[a].Store? && a !in at' ensures SettledBy(calls, answers, n, a) {
      SettledOn(calls, answers, n, at, l, a);
    }
    KeptClauses(calls, answers, n + 1, at', n);
  }

  /** The next fill settles what the last one has settled and what it drops. */
  lemma SettledOn(calls: seq<Call>, answers: seq<Answer>, n: nat, at: seq<nat>, l: nat, a: nat)
    requires n < |calls| == |answers| && Kept(calls, answers, n, at, l) && Took(calls, answers, n)
    requires PastOf(calls[..n]).build.Some? && l < n && calls[l].Update? && calls[l].txid <= calls[n].txid
    requires a < n && calls[a].Store? && a !in AtAfter(PastOf(calls[..n]), calls[n].txid, at)
    ensures SettledBy(calls, answers, n, a)
  {
    KeptClauses(calls, answers, n, at, l);
    var p := PastOf(calls[..n]);
    if a in at {
      assert NoneNewer(calls, n) by {
        forall c | 0 <= c < n && calls[c].Store? ensures calls[c].txid <= calls[n].txid {
          if c in at {
            var j :| 0 <= j < |at| && at[j] == c;
            assert p.pending[j].txid <= calls[n].txid;
          } else {
            assert SettledBy(calls, answers, l, c);
          }
        }
      }
    } else {
      assert SettledBy(calls, answers, l, a);
    }
  }

  /** A record with the id of the last fill is still there because a newer one was. */
  lemma NotDropped(calls: seq<Call>, answers: seq<Answer>, n: nat, at: seq<nat>, l: nat, j: nat)
    requires n <= |calls| == |answers| && Kept(calls, answers, n, at, l) && j < |at| && l < n
    ensures at[j] < n && (calls[at[j]].txid == calls[l].txid ==> !SettledBy(calls, answers, l, at[j]))
  {
    KeptClauses(calls, answers, n, at, l);
  }

  /** No record of the store is to be taken if and only if the last fill has settled every
      delta up to the id. */
  lemma NothingIsSettled(calls: seq<Call>, answers: seq<Answer>, n: nat, at: seq<nat>, l: nat)
    requires n < |calls| == |answers| && Kept(calls, answers, n, at, l) && calls[n].Update?
    requires PastOf(calls[..n]).build.Some? && l < n && calls[l].Update? && calls[l].txid <= calls[n].txid
    ensures FindsNothing(PastOf(calls[..n]), calls[n].txid) <==> AllSettled(calls, answers, l, n)
  {
    KeptClauses(calls, answers, n, at, l);
    var p := PastOf(calls[..n]);
    if FindsNothing(p, calls[n].txid) {
      forall a | 0 <= a < n && calls[a].Store? && calls[a].txid <= calls[n].txid ensures SettledBy(calls, answers, l, a) {
        if a in at {
          var j :| 0 <= j < |at| && at[j] == a;
          assert !Considered(p.pending[j], calls[n].txid, p.build.value.last);
        }
      }
    }
    if AllSettled(calls, answers, l, n) {
      forall j | 0 <= j < |p.pending| ensures !Considered(p.pending[j], calls[n].txid, p.build.value.last) {
        if p.pending[j].txid <= calls[n].txid {
          assert SettledBy(calls, answers, l, at[j]);
          NotDropped(calls, answers, n, at, l, j);
        }
      }
    }
  }

  lemma OneLastFill(answers: seq<Answer>, n: nat, l: nat, m: nat)
    requires LastFill(answers, n, l) && LastFill(answers, n, m)
    ensures l == m
  {
  }

  lemma NextExplained(calls: seq<Call>, answers: seq<Answer>, n: nat, at: seq<nat>, l: nat)
    requires n < |calls| == |answers| && Kept(calls, answers, n, at, l)
    requires AnswerOk(PastOf(calls[..n]), calls[n], answers[n])
    ensures Explained(calls, answers, n)
  {
    KeptClauses(calls, answers, n, at, l);
    var p := PastOf(calls[..n]);
    if calls[n].Update? {
      if p.build.None? {
        assert forall j :: 0 <= j < n ==> !answers[j].Filled?;
      } else {
        if calls[l].txid <= calls[n].txid {
          NothingIsSettled(calls, answers, n, at, l);
        }
        forall m | LastFill(answers, n, m) ensures m == l {
          OneLastFill(answers, n, l, m);
        }
      }
    }
  }

  lemma NextKept(calls: seq<Call>, answers: seq<Answer>, n: nat, at: seq<nat>, l: nat) returns (at': seq<nat>, l': nat)
    requires n < |calls| == |answers| && Kept(calls, answers, n, at, l)
    requires AnswerOk(PastOf(calls[..n]), calls[n], answers[n]) && Proper(PastOf(calls[..n]), calls[n])
    ensures Kept(calls, answers, n + 1, at', l')
  {
    var p := PastOf(calls[..n]);
    if calls[n].Store? {
      KeepStore(calls, answers, n, at, l);
      at', l' := at + [n], l;
    } else if p.build.None? {
      at' := KeepBuild(calls, answers, n, at, l);
      l' := n;
    } else if Refuses(p, calls[n].txid) {
      KeepRefused(calls, answers, n, at, l);
      at', l' := at, l;
    } else if FindsNothing(p, calls[n].txid) {
      KeepUnfilled(calls, answers, n, at, l);
      at', l' := AtAfter(p, calls[n].txid, at), l;
    } else {
      KeepFilled(calls, answers, n, at, l);
      at', l' := AtAfter(p, calls[n].txid, at), n;
    }
  }

  lemma {:induction false} AnsweredAt(calls: seq<Call>, answers: seq<Answer>, n: nat)
    requires AllProper(calls) && Answered(calls, answers) && n < |calls|
    ensures AnswerOk(PastOf(calls[..n]), calls[n], answers[n]) && Proper(PastOf(calls[..n]), calls[n])
  {
    var m := |calls| - 1;
    if n < m {
      AnsweredAt(calls[..m], answers[..m], n);
      assert calls[..m][..n] == calls[..n];
    }
  }

  lemma {:induction false} KeptAt(calls: seq<Call>, answers: seq<Answer>, n: nat) returns (at: seq<nat>, l: nat)
    requires AllProper(calls) && Answered(calls, answers) && n <= |calls|
    ensures Kept(calls, answers, n, at, l)
  {
    if n == 0 {
      at, l := [], 0;
      KeptClauses(calls, answers, 0, at, l);
    } else {
      at, l := KeptAt(calls, answers, n - 1);
      AnsweredAt(calls, answers, n - 1);
      at, l := NextKept(calls, answers, n - 1, at, l);
    }
  }

  /** Every answer of every run, by the ids of the calls before it. */
  lemma AllExplained(calls: seq<Call>, answers: seq<Answer>)
    requires AllProper(calls) && Answered(calls, answers)
    ensures forall n :: 0 <= n < |calls| ==> Explained(calls, answers, n)
  {
    forall n | 0 <= n < |calls| ensures Explained(calls, answers, n) {
      var at, l := KeptAt(calls, answers, n);
      AnsweredAt(calls, answers, n);
      NextExplained(calls, answers, n, at, l);
    }
  }

  /** A repeated update at the id of the last fill fills again if a delta of that id was
      stored before that fill, and every update since then has met a newer one. */
  lemma RepeatedUpdateFills(calls: seq<Call>, answers: seq<Answer>, n: nat, l: nat, a: nat)
    requires AllProper(calls) && Answered(calls, answers) && n < |calls| && LastFill(answers, n, l)
    requires calls[n].Update? && calls[n].txid == calls[l].txid
    requires a < l && calls[a].Store? && calls[a].txid == calls[l].txid
    requires forall b :: a < b <= l && Took(calls, answers, b) ==> !NoneNewer(calls, b)
    ensures answers[n].Filled?
  {
    AllExplained(calls, answers);
    assert Explained(calls, answers, n);
    assert !SettledBy(calls, answers, l, a);
  }

  const TWICE := [Update(1, [EMPTY_ROW]), Store(5, 0, EMPTY_ROW), Store(9, 1, EMPTY_ROW), Update(5, []), Update(5, [])]

  const FIRST_BUILD := Build(1, [EMPTY_ROW], 0, 1)

  /** The records before the two updates for 5. */
  lemma TwiceBefore()
    ensures AllProper(TWICE[..3])
    ensures PastOf(TWICE[..3]) == Past([Entry(5, 0, EMPTY_ROW, false), Entry(9, 1, EMPTY_ROW, false)], Some(FIRST_BUILD),
                                       [DeltaRec(5, 0, 0, 0, false), DeltaRec(9, 1, 0, 0, false)], 0)
  {
    assert TWICE[..0] == [];
    PastNext(TWICE, 0);
    assert PastOf(TWICE[..1]) == Past([], Some(FIRST_BUILD), [], 0);
    PastNext(TWICE, 1);
    assert PastOf(TWICE[..2]) == Past([Entry(5, 0, EMPTY_ROW, false)], Some(FIRST_BUILD), [DeltaRec(5, 0, 0, 0, false)], 0);
    PastNext(TWICE, 2);
  }

  /** And between them. */
  lemma TwiceBetween()
    ensures AllProper(TWICE)
    ensures var p := PastOf(TWICE[..4]);
            p.build.Some? && p.build.value.last == 5 && p.pending == [DeltaRec(5, 0, 0, 0, true), DeltaRec(9, 1, 0, 0, false)]
  {
    TwiceBefore();
    PastNext(TWICE, 3);
    PastNext(TWICE, 4);
    assert TWICE[..5] == TWICE;
    var recs := [DeltaRec(5, 0, 0, 0, false), DeltaRec(9, 1, 0, 0, false)];
    assert Considered(recs[0], 5, 1) && recs[1].txid > 5;
    assert AfterMerge(recs, 5) == [DeltaRec(5, 0, 0, 0, true), DeltaRec(9, 1, 0, 0, false)];
  }

  /** Two updates for 5 that both fill: the delta of 5 is taken twice, since that of 9 is
      kept and keeps it. */
  lemma TakenTwice(answers: seq<Answer>)
    requires Answered(TWICE, answers)
    ensures AllProper(TWICE) && answers[3].Filled? && answers[4].Filled?
  {
    TwiceBefore();
    TwiceBetween();
    AnsweredAt(TWICE, answers, 3);
    AnsweredAt(TWICE, answers, 4);
    assert PastOf(TWICE[..3]).pending[0].txid == 5 && PastOf(TWICE[..4]).pending[0].txid == 5;
  }

  /** An update is refused only after an update for a later transaction. */
  lemma {:induction false} RefusedAfterLater(calls: seq<Call>, txid: nat)
    requires Refuses(PastOf(calls), txid)
    ensures exists j :: 0 <= j < |calls| && calls[j].Update? && calls[j].txid > txid
  {
    var n := |calls| - 1;
    if Refuses(PastOf(calls[..n]), txid) {
      RefusedAfterLater(calls[..n], txid);
      var j :| 0 <= j < n && calls[..n][j].Update? && calls[..n][j].txid > txid;
      assert calls[j] == calls[..n][j];
    } else {
      assert calls[n].Update?;
    }
  }

  lemma {:induction false} PendingBeforeBuild(calls: seq<Call>)
    requires PastOf(calls).build.None?
    ensures var p := PastOf(calls);
            |p.pending| == |p.stores| && forall k :: 0 <= k < |p.stores| ==> p.pending[k].txid == p.stores[k].txid
  {
    if calls != [] {
      PendingBeforeBuild(calls[..|calls| - 1]);
    }
  }

  /** Of two updates with no store between them the second leaves its caller's arrays
      unfilled, if no delta is newer than the first. */
  lemma SecondUpdateUnfilled(calls: seq<Call>, first: Call, txid: nat)
    requires var p := PastOf(calls); first.Update? && Proper(p, first) && !Refuses(p, first.txid) && NoneAfter(p.pending, first.txid)
    requires first.txid <= txid
    ensures FindsNothing(PastOf(calls + [first]), txid)
  {
    assert (calls + [first])[..|calls|] == calls;
    var p := PastOf(calls);
    if p.build.None? {
      PendingBeforeBuild(calls);
      forall k | 0 <= k < |p.pending| ensures p.pending[k].txid < first.txid {
        assert p.stores[k].txid != first.txid;
      }
    }
  }

  /** The shortest such run. */
  lemma TwoUpdates(answers: seq<Answer>)
    requires Answered([Update(1, [EMPTY_ROW]), Update(2, [EMPTY_ROW])], answers)
    ensures AllProper([Update(1, [EMPTY_ROW]), Update(2, [EMPTY_ROW])])
    ensures answers[1] == Unfilled
  {
    var calls := [Update(1, [EMPTY_ROW]), Update(2, [EMPTY_ROW])];
    assert calls[..1] == [calls[0]];
  }
}
