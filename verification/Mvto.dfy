/** Multiversion timestamp ordering: records, version lists and the step system.

    Each object has a main record and a list of volatile versions, newest first.
    The functions below are the values of the database calls; `GraphDb.dfy`
    runs the same calls as imperative methods against them. */
module Mvto {
  import opened Wrappers

  type Xid = nat
  type Oid = nat

  /** The commit timestamp of a version that nobody has superseded. */
  const INF: nat := 0xFFFF_FFFF_FFFF_FFFF

  datatype Content = Content(labelCode: nat, props: map<nat, nat>)

  /** What a caller asks `update_node` to change; label code 0 keeps the label. */
  datatype Change = Change(labelCode: nat, props: map<nat, nat>)

  function Updated(c: Content, ch: Change): Content {
    Content(if ch.labelCode > 0 then ch.labelCode else c.labelCode, c.props + ch.props)
  }

  /** A volatile copy of a record; `updated` is false for a fresh insert. */
  datatype Version = Version(lock: Xid, bts: nat, cts: nat, rts: nat, content: Content, updated: bool)

  /** The main record of an object with its version list. */
  datatype Record = Record(lock: Xid, bts: nat, cts: nat, rts: nat, content: Content, dirty: seq<Version>)

  predicate ValidFor(bts: nat, cts: nat, xid: Xid) {
    bts <= xid < cts
  }

  // ---------------------------------------------------------------- reading

  /** What a fetch refers to: the main record, the k-th version, or an error. */
  datatype Fetch = Main | Dirty(k: nat) | UnknownId | MustAbort

  predicate Found(f: Fetch) {
    f.Main? || f.Dirty?
  }

  predicate Readable(v: Version, xid: Xid) {
    v.lock == 0 || v.lock == xid
  }

  /** The scan of `find_valid_version` from position k on; `abort` says that a
      readable but invalid version was passed. */
  function FindValid(vs: seq<Version>, xid: Xid, k: nat, abort: bool): (f: Fetch)
    requires k <= |vs|
    ensures !f.Main?
    ensures f.Dirty? ==>
              && k <= f.k < |vs| && Readable(vs[f.k], xid) && ValidFor(vs[f.k].bts, vs[f.k].cts, xid)
              && forall j :: k <= j < f.k && Readable(vs[j], xid) ==> !ValidFor(vs[j].bts, vs[j].cts, xid)
    decreases |vs| - k
  {
    if k == |vs| then if abort then MustAbort else UnknownId
    else if !Readable(vs[k], xid) then FindValid(vs, xid, k + 1, abort)
    else if ValidFor(vs[k].bts, vs[k].cts, xid) then Dirty(k)
    else if vs[k].lock == xid && vs[k].bts == vs[k].cts then UnknownId
    else FindValid(vs, xid, k + 1, true)
  }

  /** `get_valid_node_version` after `prepare`. */
  function NodeById(r: Record, xid: Xid): (f: Fetch) {
    if r.lock == 0 && ValidFor(r.bts, r.cts, xid) then Main
    else FindValid(r.dirty, xid, 0, false)
  }

  /** The content that `get_node_description` reports. A committed delete has
      already emptied the main record, so the content then comes from the list. */
  function Describe(r: Record, xid: Xid): Option<Content> {
    match NodeById(r, xid)
    case Main =>
      if r.dirty == [] || r.cts == INF then Some(r.content)
      else
        var f := FindValid(r.dirty, xid, 0, false);
        if f.Dirty? then Some(r.dirty[f.k].content) else None
    case Dirty(k) => Some(r.dirty[k].content)
    case _ => None
  }

  function SetRts(r: Record, xid: Xid): Record {
    if r.rts < xid then r.(rts := xid) else r
  }

  // ---------------------------------------------------------------- writing

  /** The position of the first version locked by xid, or the list length. */
  function DirtyVersionOf(vs: seq<Version>, xid: Xid, k: nat): (j: nat)
    requires k <= |vs|
    ensures k <= j <= |vs| && (j < |vs| ==> vs[j].lock == xid)
    ensures forall i :: k <= i < j ==> vs[i].lock != xid
    decreases |vs| - k
  {
    if k == |vs| || vs[k].lock == xid then k else DirtyVersionOf(vs, xid, k + 1)
  }

  /** Lock the main record and push the old copy and then the new copy. */
  function PushCopies(r: Record, xid: Xid, content: Content, deleted: bool): Record {
    var oldv := Version(0, r.bts, xid, r.rts, r.content, true);
    var newv := Version(xid, xid, if deleted then xid else INF, r.rts, content, true);
    r.(lock := xid, dirty := [newv, oldv] + r.dirty)
  }

  predicate MayWrite(lock: Xid, rts: nat, xid: Xid) {
    rts <= xid && (lock == xid || lock == 0)
  }

  /** `update_node` through a reference to the main record (or `None` if it throws). */
  function UpdateMain(r: Record, xid: Xid, ch: Change): Option<Record> {
    if !MayWrite(r.lock, r.rts, xid) then None
    else
      var k := DirtyVersionOf(r.dirty, xid, 0);
      if k < |r.dirty| then
        var v := r.dirty[k];
        Some(r.(lock := xid, dirty := r.dirty[k := v.(content := Updated(v.content, ch))]))
      else Some(PushCopies(r, xid, Updated(r.content, ch), false))
  }

  /** `update_node` through a reference to the k-th version: the checks and the
      lock then are those of the version itself. */
  function UpdateVersion(r: Record, k: nat, xid: Xid, ch: Change): Option<Record>
    requires k < |r.dirty|
  {
    var v := r.dirty[k];
    if !MayWrite(v.lock, v.rts, xid) then None
    else
      var vs := r.dirty[k := v.(lock := xid)];
      var j := DirtyVersionOf(vs, xid, 0);
      assert vs[k].lock == xid;
      Some(r.(dirty := vs[j := vs[j].(content := Updated(vs[j].content, ch))]))
  }

  function UpdateVia(r: Record, f: Fetch, xid: Xid, ch: Change): Option<Record>
    requires f.Dirty? ==> f.k < |r.dirty|
  {
    match f
    case Main => UpdateMain(r, xid, ch)
    case Dirty(k) => UpdateVersion(r, k, xid, ch)
    case _ => None
  }

  /** `delete_node` through reference f, once no relationship is left. */
  function DeleteVia(r: Record, f: Fetch, xid: Xid): Option<Record>
    requires f.Dirty? ==> f.k < |r.dirty|
  {
    match f
    case Main =>
      if MayWrite(r.lock, r.rts, xid) then Some(PushCopies(r, xid, r.content, true)) else None
    case Dirty(k) =>
      var v := r.dirty[k];
      if !MayWrite(v.lock, v.rts, xid) then None
      else
        // the old copy takes its properties from the stored list, not from the version
        var oldv := Version(0, v.bts, xid, v.rts, Content(v.content.labelCode, r.content.props), true);
        var newv := Version(xid, xid, xid, v.rts, v.content, true);
        Some(r.(dirty := [newv, oldv] + r.dirty[k := v.(lock := xid)]))
    case _ => None
  }

  function FreshRecord(xid: Xid, c: Content): Record {
    var blank := Content(c.labelCode, map[]);
    Record(xid, 0, INF, 0, blank, [Version(xid, 0, INF, 0, c, false)])
  }

  // ------------------------------------------------- commit, abort and GC

  function Gc(vs: seq<Version>, oldest: nat): (r: seq<Version>)
    ensures forall v :: v in r <==> v in vs && v.cts > oldest
    ensures |r| <= |vs|
  {
    if vs == [] then []
    else if vs[0].cts <= oldest then Gc(vs[1..], oldest)
    else [vs[0]] + Gc(vs[1..], oldest)
  }

  function RemoveDirty(vs: seq<Version>, xid: Xid): (r: seq<Version>)
    ensures forall v :: v in r <==> v in vs && !(v.lock == xid && v.cts == INF)
  {
    if vs == [] then []
    else if vs[0].lock == xid && vs[0].cts == INF then RemoveDirty(vs[1..], xid)
    else [vs[0]] + RemoveDirty(vs[1..], xid)
  }

  /** `commit_dirty_node`; `None` where the source throws `transaction_abort`. */
  function CommitRecord(r: Record, xid: Xid, oldest: nat): Option<Record> {
    if r.cts != INF then Some(r.(dirty := RemoveDirty(r.dirty, 0)))
    else if r.dirty == [] then None
    else
      var dn := r.dirty[0];
      var rest := r.dirty[1..];
      if !dn.updated then
        Some(Record(0, xid, INF, r.rts, dn.content, Gc(rest, oldest)))
      else if rest == [] then None
      else
        var released := [rest[0].(lock := 0)] + rest[1..];
        if dn.bts == dn.cts then
          Some(Record(0, r.bts, xid, r.rts, Content(r.content.labelCode, map[]), Gc(released, oldest)))
        else
          Some(Record(0, xid, INF, r.rts, dn.content, Gc(released, oldest)))
  }

  /** The abort of one object; `None` when the record is physically removed. */
  function AbortRecord(r: Record, xid: Xid): Option<Record> {
    var k := DirtyVersionOf(r.dirty, xid, 0);
    if k < |r.dirty| && r.dirty[k].updated
    then Some(r.(lock := 0, dirty := RemoveDirty(r.dirty, xid)))
    else None
  }

  // ------------------------------------------------------------ the database

  /** A successful read by `xid` of an object it had not written, with the begin
      timestamp of the version that was read. */
  datatype Read = Read(xid: Xid, writer: Xid, content: Content)

  /** What a transaction asked to be done to an object: store a content, apply
      changes to the version begun by `base`, or delete it. */
  datatype Op = Put(content: Content) | Edit(base: Xid, changes: seq<Change>) | Drop

  /** An object with its history: `writes` is the last write of every
      transaction (`None` is a delete) and `ops` the operation behind it, `seen`
      the successful reads, `held` the transactions that obtained a reference to
      the main record, and `snap` the record before the write in progress. */
  datatype Cell = Cell(rec: Option<Record>, writes: map<Xid, Option<Content>>, ops: map<Xid, Op>,
                       seen: set<Read>, held: set<Xid>, snap: Option<Record>)

  datatype Phase = Active | Committing | Aborting

  /** `todo` is the dirty list that commit or abort still has to process. */
  datatype Tx = Tx(phase: Phase, todo: seq<Oid>)

  datatype Db = Db(cells: map<Oid, Cell>, txs: map<Xid, Tx>, active: seq<Xid>, oldest: nat,
                   garbage: seq<Oid>, last: Xid)

  /** Transaction 0 stands for the import that produced the initial records. */
  predicate Committed(txs: map<Xid, Tx>, t: Xid) {
    t == 0 || (t in txs && txs[t].phase.Committing?)
  }

  predicate IsActive(txs: map<Xid, Tx>, t: Xid) {
    t in txs && txs[t].phase.Active?
  }

  datatype Event =
    | Begin(t: Xid)
    | ReadNode(t: Xid, o: Oid)
    | Insert(t: Xid, o: Oid, content: Content)
    | UpdateFetched(t: Xid, o: Oid, change: Change)  // fetch and update in one go
    | UpdateHeld(t: Xid, o: Oid, change: Change)     // through a main record fetched earlier
    | Delete(t: Xid, o: Oid, orphaned: bool)
    | StartCommit(t: Xid)
    | CommitObject(t: Xid)
    | StartAbort(t: Xid)
    | AbortObject(t: Xid)
    | Vacuum

  predicate Present(s: Db, o: Oid) {
    o in s.cells && s.cells[o].rec.Some?
  }

  predicate Enabled(s: Db, e: Event) {
    match e
    case Begin(t) => s.last < t < INF
    case ReadNode(t, o) => IsActive(s.txs, t) && Present(s, o)
    case Insert(t, o, _) => IsActive(s.txs, t) && o !in s.cells
    case UpdateFetched(t, o, _) => IsActive(s.txs, t) && Present(s, o)
    case UpdateHeld(t, o, _) => IsActive(s.txs, t) && Present(s, o) && t in s.cells[o].held
    case Delete(t, o, _) => IsActive(s.txs, t) && Present(s, o) && s.cells[o].rec.value.lock != t
    case StartCommit(t) => IsActive(s.txs, t)
    case CommitObject(t) => t in s.txs && s.txs[t].phase.Committing? && s.txs[t].todo != []
    case StartAbort(t) => IsActive(s.txs, t)
    case AbortObject(t) => t in s.txs && s.txs[t].phase.Aborting? && s.txs[t].todo != []
    case Vacuum => true
  }

  /** The effect of `node_by_id` on the object and its history. */
  function FetchCell(c: Cell, t: Xid): (c': Cell)
    requires c.rec.Some?
    ensures c'.rec == Some(SetRts(c.rec.value, t))
  {
    var r := SetRts(c.rec.value, t);
    var f := NodeById(r, t);
    var d := Describe(r, t);
    var news := if d.Some? && r.lock != t
                then {Read(t, if f.Main? then r.bts else if f.Dirty? then r.dirty[f.k].bts else 0, d.value)}
                else {};
    c.(rec := Some(r), seen := c.seen + news, held := c.held + (if f.Main? then {t} else {}))
  }

  /** Record the write of t that turned the main record r into r'. */
  function WriteCell(c: Cell, r': Record, t: Xid, w: Option<Content>, op: Op): Cell
    requires c.rec.Some?
  {
    var r := c.rec.value;
    c.(rec := Some(r'), writes := c.writes[t := w], ops := c.ops[t := op],
    snap := if r.lock == t then c.snap else Some(r))
  }

  /** The operation of t on c after one more change. */
  function NextOp(c: Cell, t: Xid, ch: Change): Op
    requires c.rec.Some?
  {
    if c.rec.value.lock != t || t !in c.ops then Edit(c.rec.value.bts, [ch])
    else match c.ops[t]
      case Put(content) => Put(Updated(content, ch))
      case Edit(base, changes) => Edit(base, changes + [ch])
      case Drop => Drop
  }

  /** The update of c by t through reference f, if it does not throw. */
  function UpdateCell(c: Cell, f: Fetch, t: Xid, ch: Change): Cell
    requires c.rec.Some?
    requires f.Dirty? ==> f.k < |c.rec.value.dirty|
  {
    var r := c.rec.value;
    var u := UpdateVia(r, f, t, ch);
    if u.None? then c
    else
      var k := DirtyVersionOf(u.value.dirty, t, 0);
      var v := if k < |u.value.dirty| then u.value.dirty[k] else Version(0, 0, 0, 0, r.content, true);
      WriteCell(c, u.value, t, if v.bts == v.cts then None else Some(v.content), NextOp(c, t, ch))
  }

  function DeleteCell(c: Cell, f: Fetch, t: Xid): Cell
    requires c.rec.Some?
    requires f.Dirty? ==> f.k < |c.rec.value.dirty|
  {
    var d := DeleteVia(c.rec.value, f, t);
    if d.None? then c else WriteCell(c, d.value, t, None, Drop)
  }

  function AddTodo(txs: map<Xid, Tx>, t: Xid, o: Oid, was: Option<Record>): map<Xid, Tx>
    requires t in txs
  {
    if was.Some? && was.value.lock == t then txs
    else txs[t := txs[t].(todo := txs[t].todo + [o])]
  }

  function PutWritten(s: Db, t: Xid, o: Oid, c: Cell, was: Option<Record>): Db
    requires t in s.txs
  {
    s.(cells := s.cells[o := c],
    txs := if c.rec.Some? && c.rec.value.lock == t then AddTodo(s.txs, t, o, was) else s.txs)
  }

  function Without(ts: seq<Xid>, t: Xid): (r: seq<Xid>)
    ensures forall x :: x in r <==> x in ts && x != t
  {
    if ts == [] then [] else if ts[0] == t then Without(ts[1..], t) else [ts[0]] + Without(ts[1..], t)
  }

  /** Leave the active set and recompute the oldest active id. */
  function Leave(s: Db, t: Xid, phase: Phase): Db
    requires t in s.txs
  {
    var active := Without(s.active, t);
    s.(active := active, oldest := if active != [] then active[0] else t,
    txs := s.txs[t := s.txs[t].(phase := phase)])
  }

  function VacuumCell(c: Cell, oldest: nat): Cell
    requires c.rec.Some?
  {
    var r := c.rec.value;
    var vs := Gc(r.dirty, oldest);
    c.(rec := if vs == [] then None else Some(r.(dirty := vs)))
  }

  /** One pass of `vacuum` over the garbage list from position k on. */
  function VacuumFrom(s: Db, k: nat): Db
    requires k <= |s.garbage|
    decreases |s.garbage| - k
  {
    if k == |s.garbage| then s
    else
      var o := s.garbage[k];
      if !Present(s, o) then VacuumFrom(s, k + 1)
      else
        var c := VacuumCell(s.cells[o], s.oldest);
        if c.rec.None?
        then VacuumFrom(s.(cells := s.cells[o := c], garbage := s.garbage[..k] + s.garbage[k + 1..]), k)
        else VacuumFrom(s.(cells := s.cells[o := c]), k + 1)
  }

  function Apply(s: Db, e: Event): Db
    requires Enabled(s, e)
  {
    match e
    case Begin(t) =>
      s.(txs := s.txs[t := Tx(Active, [])], active := s.active + [t], last := t)
    case ReadNode(t, o) => s.(cells := s.cells[o := FetchCell(s.cells[o], t)])
    case Insert(t, o, content) =>
      var c := Cell(Some(FreshRecord(t, content)), map[t := Some(content)], map[t := Put(content)], {}, {}, None);
      PutWritten(s, t, o, c, None)
    case UpdateFetched(t, o, ch) =>
      var c := FetchCell(s.cells[o], t);
      PutWritten(s, t, o, UpdateCell(c, NodeById(c.rec.value, t), t, ch), c.rec)
    case UpdateHeld(t, o, ch) =>
      var c := s.cells[o];
      PutWritten(s, t, o, UpdateCell(c, Main, t, ch), c.rec)
    case Delete(t, o, orphaned) =>
      var c := FetchCell(s.cells[o], t);
      if orphaned then s.(cells := s.cells[o := c])
      else PutWritten(s, t, o, DeleteCell(c, NodeById(c.rec.value, t), t), c.rec)
    case StartCommit(t) => Leave(s, t, Committing)
    case CommitObject(t) =>
      var tx := s.txs[t];
      var o := tx.todo[0];
      var next := s.txs[t := tx.(todo := tx.todo[1..])];
      if !Present(s, o) then s.(txs := next)
      else
        var r := s.cells[o].rec.value;
        var r' := CommitRecord(r, t, s.oldest);
        if r'.None? then s.(txs := next)
        else
          var deleted := r.cts == INF && r'.value.cts != INF;
          s.(txs := next, cells := s.cells[o := s.cells[o].(rec := r')],
          garbage := if deleted then s.garbage + [o] else s.garbage)
    case StartAbort(t) => Leave(s, t, Aborting)
    case AbortObject(t) =>
      var tx := s.txs[t];
      var o := tx.todo[0];
      var next := s.txs[t := tx.(todo := tx.todo[1..])];
      if !Present(s, o) then s.(txs := next)
      else s.(txs := next, cells := s.cells[o := s.cells[o].(rec := AbortRecord(s.cells[o].rec.value, t))])
    case Vacuum => VacuumFrom(s, 0)
  }

  /** Initially every object is an imported record nobody has touched. */
  ghost predicate Init(s: Db) {
    && s.txs == map[] && s.active == [] && s.oldest == 0 && s.garbage == [] && s.last == 0
    && forall o :: o in s.cells ==>
                     && var c := s.cells[o];
                     && c.rec.Some? && c.seen == {} && c.held == {} && c.snap == None
                     && var r := c.rec.value;
                     && r.lock == 0 && r.bts == 0 && r.cts == INF && r.dirty == []
                     && c.writes == map[0 := Some(r.content)] && c.ops == map[0 := Put(r.content)]
  }

  /** `es` can be executed step by step from s. */
  ghost predicate CanRun(s: Db, es: seq<Event>)
    decreases |es|
  {
    es == [] || (Enabled(s, es[0]) && CanRun(Apply(s, es[0]), es[1..]))
  }

  ghost function Run(s: Db, es: seq<Event>): Db
    requires CanRun(s, es)
    decreases |es|
  {
    if es == [] then s else Run(Apply(s, es[0]), es[1..])
  }
}
