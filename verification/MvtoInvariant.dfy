/** The invariant of the multiversion step system and its preservation. */
module MvtoInvariant {
  import opened Wrappers
  import opened Mvto

  // ------------------------------------------------------ the object invariant

  /** w is the largest committed writer of the object below t. */
  ghost predicate LatestBelow(txs: map<Xid, Tx>, writes: map<Xid, Option<Content>>, t: Xid, w: Xid) {
    && w in writes && Committed(txs, w) && w < t
    && forall x :: x in writes && Committed(txs, x) && x < t ==> x <= w
  }

  /** A version that describes committed history: it was written by a committed
      transaction and no committed writer falls inside its interval. The other
      kind is the deletion marker that an aborted deleter leaves behind. */
  ghost predicate OldOk(txs: map<Xid, Tx>, writes: map<Xid, Option<Content>>, rts: nat, v: Version) {
    if v.lock == 0 then
      && v.bts in writes && Committed(txs, v.bts) && writes[v.bts] == Some(v.content)
      && v.bts < v.cts <= v.rts && v.cts <= rts && v.cts < INF
      && forall w :: w in writes && Committed(txs, w) ==> w <= v.bts || v.cts <= w
    else
      && v.bts == v.cts == v.lock && v.lock < INF
      && v.lock in txs && txs[v.lock].phase.Aborting?
  }

  ghost predicate OldsOk(txs: map<Xid, Tx>, writes: map<Xid, Option<Content>>, rts: nat, vs: seq<Version>) {
    forall v :: v in vs ==> OldOk(txs, writes, rts, v)
  }

  /** The main record carries its writer's content. */
  ghost predicate BaseOk(txs: map<Xid, Tx>, writes: map<Xid, Option<Content>>, r: Record) {
    && r.bts in writes && Committed(txs, r.bts) && r.bts < r.cts
    && (r.cts == INF ==> writes[r.bts] == Some(r.content))
  }

  /** Every active transaction that could still see a deleted record finds its
      content in the version list. */
  ghost predicate Covered(txs: map<Xid, Tx>, r: Record) {
    || (forall a :: IsActive(txs, a) ==> r.cts <= a)
    || (exists v :: v in r.dirty && v.lock == 0 && v.bts == r.bts && v.cts == r.cts)
  }

  /** Nobody is writing the object. */
  ghost predicate Settled(txs: map<Xid, Tx>, writes: map<Xid, Option<Content>>, r: Record) {
    && r.lock == 0
    && BaseOk(txs, writes, r)
    && OldsOk(txs, writes, r.rts, r.dirty)
    && (forall w :: w in writes && Committed(txs, w) ==> w <= r.bts || w == r.cts)
    && (r.cts != INF ==>
          && r.cts in writes && Committed(txs, r.cts) && writes[r.cts] == None
          && r.cts <= r.rts && Covered(txs, r))
  }

  /** The lock owner has pushed an old and a new copy on top of snapshot r0. */
  ghost predicate Overlaid(r: Record, r0: Record) {
    && |r.dirty| >= 2
    && r0 == Record(0, r.bts, r.cts, r0.rts, r.content, r.dirty[2..])
    && r.dirty[1] == Version(0, r.bts, r.lock, r.dirty[1].rts, r.content, true)
  }

  ghost predicate Writing(txs: map<Xid, Tx>, writes: map<Xid, Option<Content>>, r: Record, snap: Option<Record>) {
    && r.lock != 0 && r.lock in txs && r.lock in writes && r.cts == INF && r.bts < r.lock < INF
    && snap.Some? && Overlaid(r, snap.value)
    && BaseOk(txs, writes, r)
    && NewOk(r.dirty[0], r.lock, writes[r.lock])
    && OldsOk(txs, writes, r.rts, r.dirty[1..])
    && (forall v :: v in r.dirty[1..] ==> v.lock != r.lock && (v.lock == 0 ==> v.cts <= r.lock))
    && (forall w :: w in writes && Committed(txs, w) ==> w <= r.bts || w == r.lock)
  }

  /** The new copy is locked by its writer and carries the writer's last write. */
  ghost predicate NewOk(v: Version, t: Xid, w: Option<Content>) {
    && v.lock == t && v.bts == t && v.rts <= t && v.updated
    && (if w.None? then v.cts == t else v.cts == INF && w == Some(v.content))
  }

  /** The object was inserted by its lock owner, who has not committed it yet. */
  ghost predicate Fresh(txs: map<Xid, Tx>, writes: map<Xid, Option<Content>>, r: Record) {
    && r.lock != 0 && r.lock in txs && r.bts == 0 && r.cts == INF && |r.dirty| == 1
    && var v := r.dirty[0];
    && v == Version(r.lock, 0, INF, v.rts, v.content, false) && v.rts <= r.lock
    && writes == map[r.lock := Some(v.content)]
  }

  ghost predicate RecOk(txs: map<Xid, Tx>, c: Cell, r: Record) {
    || Settled(txs, c.writes, r)
    || (Fresh(txs, c.writes, r) && c.held == {} && c.snap == None)
    || Writing(txs, c.writes, r, c.snap)
  }

  ghost predicate ReadOk(txs: map<Xid, Tx>, c: Cell, rd: Read) {
    && rd.xid in txs && LatestBelow(txs, c.writes, rd.xid, rd.writer)
    && c.writes[rd.writer] == Some(rd.content)
    && (c.rec.Some? ==> rd.xid <= c.rec.value.rts && (c.rec.value.lock != 0 ==> rd.xid <= c.rec.value.lock))
  }

  /** A main record fetched by an active transaction is still there; if its
      read timestamp does not forbid the write, it is still the version fetched. */
  ghost predicate HeldOk(c: Cell, t: Xid) {
    && c.rec.Some?
    && var r := c.rec.value;
    && t <= r.rts && t < r.cts && (t < r.rts || r.bts <= t) && (r.lock != 0 ==> t <= r.lock)
  }

  ghost predicate WriterOk(txs: map<Xid, Tx>, c: Cell, w: Xid) {
    && (w == 0 || w in txs) && w < INF
    && (IsActive(txs, w) ==> w != 0 && c.rec.Some? && c.rec.value.lock == w)
  }

  datatype CellClause = RecordClause | SeenClause | HeldClause | WritersClause

  ghost predicate CellMeets(k: CellClause, txs: map<Xid, Tx>, c: Cell) {
    match k
    case RecordClause => c.rec.Some? ==> RecOk(txs, c, c.rec.value)
    case SeenClause => forall rd :: rd in c.seen ==> ReadOk(txs, c, rd)
    case HeldClause => forall t :: t in c.held ==> t in txs && (IsActive(txs, t) ==> HeldOk(c, t))
    case WritersClause => forall w :: w in c.writes ==> WriterOk(txs, c, w)
  }

  /** The invariant of an object and its history. */
  ghost predicate CellInv(txs: map<Xid, Tx>, c: Cell) {
    forall k :: CellMeets(k, txs, c)
  }

  lemma CellClauses(txs: map<Xid, Tx>, c: Cell)
    requires CellInv(txs, c)
    ensures c.rec.Some? ==> RecOk(txs, c, c.rec.value)
    ensures forall rd :: rd in c.seen ==> ReadOk(txs, c, rd)
    ensures forall t :: t in c.held ==> t in txs && (IsActive(txs, t) ==> HeldOk(c, t))
    ensures forall w :: w in c.writes ==> WriterOk(txs, c, w)
  {
    assert CellMeets(RecordClause, txs, c) && CellMeets(SeenClause, txs, c);
    assert CellMeets(HeldClause, txs, c) && CellMeets(WritersClause, txs, c);
  }

  lemma CellInvBy(txs: map<Xid, Tx>, c: Cell)
    requires CellMeets(RecordClause, txs, c) && CellMeets(SeenClause, txs, c)
    requires CellMeets(HeldClause, txs, c) && CellMeets(WritersClause, txs, c)
    ensures CellInv(txs, c)
  {
    forall k ensures CellMeets(k, txs, c) {
      match k
      case RecordClause => case SeenClause => case HeldClause => case WritersClause =>
    }
  }

  // ---------------------------------------------------- the database invariant

  ghost predicate NoDuplicates<T>(xs: seq<T>) {
    forall i, j :: 0 <= i < j < |xs| ==> xs[i] != xs[j]
  }

  ghost predicate Increasing(xs: seq<nat>) {
    forall i, j :: 0 <= i < j < |xs| ==> xs[i] < xs[j]
  }

  ghost predicate LockedBy(s: Db, o: Oid, t: Xid) {
    o in s.cells && s.cells[o].rec.Some? && s.cells[o].rec.value.lock == t
  }

  /** The dirty lists are exactly the locks that are held. */
  ghost predicate TodoOk(s: Db) {
    && (forall t :: t in s.txs ==> NoDuplicates(s.txs[t].todo))
    && (forall t, o :: t in s.txs && o in s.txs[t].todo ==> LockedBy(s, o, t))
    && (forall o :: Present(s, o) && s.cells[o].rec.value.lock != 0 ==>
                      var t := s.cells[o].rec.value.lock;
                      t in s.txs && o in s.txs[t].todo)
  }

  ghost predicate IdsOk(s: Db) {
    && (forall t :: t in s.txs ==> 0 < t <= s.last && t < INF)
    && Increasing(s.active)
    && (forall t :: t in s.active <==> IsActive(s.txs, t))
    && (forall t :: t in s.active ==> s.oldest <= t)
    && s.oldest <= s.last
  }

  /** The record of o is still there, with a committed deletion. */
  ghost predicate IsDeleted(s: Db, o: Oid) {
    Present(s, o) && s.cells[o].rec.value.cts != INF
  }

  /** The garbage list is exactly the deleted records that are still there. */
  ghost predicate GarbageOk(s: Db) {
    && NoDuplicates(s.garbage)
    && (forall o :: o in s.garbage ==> LockedBy(s, o, 0) && s.cells[o].rec.value.cts != INF)
    && forall o :: IsDeleted(s, o) ==> o in s.garbage
  }

  datatype Clause = IdsClause | TodoClause | GarbageClause | CellsClause

  ghost predicate Meets(k: Clause, s: Db) {
    match k
    case IdsClause => IdsOk(s)
    case TodoClause => TodoOk(s)
    case GarbageClause => GarbageOk(s)
    case CellsClause => forall o :: o in s.cells ==> CellInv(s.txs, s.cells[o])
  }

  /** The invariant of the database. */
  ghost predicate Inv(s: Db) {
    forall k :: Meets(k, s)
  }

  lemma Clauses(s: Db)
    requires Inv(s)
    ensures IdsOk(s) && TodoOk(s) && GarbageOk(s)
    ensures forall o :: o in s.cells ==> CellInv(s.txs, s.cells[o])
  {
    assert Meets(IdsClause, s) && Meets(TodoClause, s) && Meets(GarbageClause, s) && Meets(CellsClause, s);
  }

  lemma CellOf(s: Db, o: Oid)
    requires Inv(s) && o in s.cells
    ensures CellInv(s.txs, s.cells[o])
  {
    assert Meets(CellsClause, s);
  }

  lemma ActiveId(s: Db, t: Xid)
    requires Inv(s) && IsActive(s.txs, t)
    ensures 0 < t < INF && s.oldest <= t <= s.last
  {
    assert Meets(IdsClause, s);
    assert t in s.active;
  }
}
