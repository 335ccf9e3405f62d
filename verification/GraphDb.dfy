/** The database calls as imperative methods. A `Node` updates its lock,
    timestamps and version list in place; `GraphDb` owns the node table, the
    active set and the garbage list. Each method is one step of the multiversion
    step system (`model` is its state), commit and abort are runs of it, and so is
    any sequence of calls. */
module GraphDatabase {
  import opened Wrappers
  import opened Mvto
  import opened MvtoInvariant
  import opened MvtoSteps
  import opened MvtoRuns
  import opened MvtoSerial
  import opened MvtoEffects
  import opened MvtoVacuum

  lemma {:induction false} GcSnoc(vs: seq<Version>, v: Version, oldest: nat)
    ensures Gc(vs + [v], oldest) == Gc(vs, oldest) + if v.cts > oldest then [v] else []
  {
    if vs == [] {
      assert [] + [v] == [v] && [v][1..] == [];
    } else {
      GcSnoc(vs[1..], v, oldest);
      var all, last := vs + [v], if v.cts > oldest then [v] else [];
      assert all[0] == vs[0] && all[1..] == vs[1..] + [v];
      Assoc([vs[0]], Gc(vs[1..], oldest), last);
    }
  }

  lemma Assoc<T>(a: seq<T>, b: seq<T>, c: seq<T>)
    ensures a + (b + c) == (a + b) + c
  {
  }

  /** The loop of a collection. */
  method KeptVersions(vs: seq<Version>, oldest: nat) returns (kept: seq<Version>)
    ensures kept == Gc(vs, oldest)
  {
    kept := [];
    var k := 0;
    while k < |vs|
      invariant k <= |vs| && kept == Gc(vs[..k], oldest)
    {
      GcSnoc(vs[..k], vs[k], oldest);
      assert vs[..k + 1] == vs[..k] + [vs[k]];
      if vs[k].cts > oldest {
        kept := kept + [vs[k]];
      }
      k := k + 1;
    }
    assert vs[..k] == vs;
  }

  /** The transactional part of a node. */
  class Node {
    const id: Oid
    var lock: Xid
    var bts: nat
    var cts: nat
    var rts: nat
    var content: Content
    var dirty: seq<Version>

    ghost function Value(): Record
      reads this
    {
      Record(lock, bts, cts, rts, content, dirty)
    }

    constructor (id: Oid, owner: Xid, c: Content)
      ensures this.id == id && Value() == Record(owner, 0, INF, 0, Content(c.labelCode, map[]), [])
    {
      this.id := id;
      lock, bts, cts, rts, content, dirty := owner, 0, INF, 0, Content(c.labelCode, map[]), [];
    }

    method SetReadTimestamp(xid: Xid)
      modifies this
      ensures Value() == SetRts(old(Value()), xid)
    {
      if rts < xid {
        rts := xid;
      }
    }

    /** Compare-and-swap on the lock word. */
    method TryLock(xid: Xid) returns (ok: bool)
      modifies this
      ensures ok <==> old(lock) == 0
      ensures Value() == old(Value()).(lock := if ok then xid else old(lock))
    {
      ok := lock == 0;
      if ok {
        lock := xid;
      }
    }

    method FindValidVersion(xid: Xid) returns (f: Fetch)
      ensures f == FindValid(dirty, xid, 0, false)
    {
      var abort, k := false, 0;
      while k < |dirty|
        invariant k <= |dirty|
        invariant FindValid(dirty, xid, 0, false) == FindValid(dirty, xid, k, abort)
      {
        var v := dirty[k];
        if v.lock == 0 || v.lock == xid {
          if v.bts <= xid < v.cts {
            return Dirty(k);
          } else if v.lock == xid && v.bts == v.cts {
            return UnknownId;
          }
          abort := true;
        }
        k := k + 1;
      }
      return if abort then MustAbort else UnknownId;
    }

    method GetDirtyVersion(xid: Xid) returns (k: nat)
      ensures k == DirtyVersionOf(dirty, xid, 0)
    {
      k := 0;
      while k < |dirty| && dirty[k].lock != xid
        invariant k <= |dirty|
        invariant DirtyVersionOf(dirty, xid, 0) == DirtyVersionOf(dirty, xid, k)
      {
        k := k + 1;
      }
    }

    method RemoveDirtyVersion(xid: Xid)
      modifies this
      ensures Value() == old(Value()).(dirty := RemoveDirty(old(dirty), xid))
    {
      var kept, k := [], 0;
      while k < |dirty|
        invariant k <= |dirty| && dirty == old(dirty) && Value() == old(Value())
        invariant RemoveDirty(dirty, xid) == kept + RemoveDirty(dirty[k..], xid)
      {
        assert dirty[k..][1..] == dirty[k + 1..];
        if !(dirty[k].lock == xid && dirty[k].cts == INF) {
          assert RemoveDirty(dirty[k..], xid) == [dirty[k]] + RemoveDirty(dirty[k + 1..], xid);
          kept := kept + [dirty[k]];
        }
        k := k + 1;
      }
      dirty := kept;
    }

    method CollectGarbage(oldest: nat)
      modifies this
      ensures Value() == old(Value()).(dirty := Gc(old(dirty), oldest))
    {
      dirty := KeptVersions(dirty, oldest);
    }

    /** `get_valid_node_version`. */
    method ValidVersion(xid: Xid) returns (f: Fetch)
      requires xid != 0
      ensures f == NodeById(Value(), xid)
    {
      if lock == 0 && bts <= xid < cts {
        f := Main;
      } else {
        f := FindValidVersion(xid);
      }
    }

    /** `node_by_id`. */
    method Fetch(xid: Xid) returns (f: Fetch)
      requires xid != 0
      modifies this
      ensures Value() == SetRts(old(Value()), xid) && f == NodeById(Value(), xid)
    {
      SetReadTimestamp(xid);
      f := ValidVersion(xid);
    }

    /** `delete_node` on this node; `orphaned` says that relationships are left. */
    method DeleteInPlace(xid: Xid, orphaned: bool) returns (ok: bool)
      requires xid != 0 && lock != xid
      modifies this
      ensures var r := SetRts(old(Value()), xid);
              var f := NodeById(r, xid);
              && (ok ==> f.Main? && !orphaned && MayWrite(r.lock, r.rts, xid))
              && (f.Main? && !orphaned && MayWrite(r.lock, r.rts, xid) ==> ok)
              && Value() == if ok then PushCopies(r, xid, r.content, true) else r
    {
      SetReadTimestamp(xid);
      var f := ValidVersion(xid);
      // the rts check rejects a reference into the version list (DeleteShape)
      if !f.Main? || rts > xid {
        return false;
      }
      var locked := TryLock(xid);
      if !locked {
        return false;
      }
      if orphaned {
        lock := 0;
        return false;
      }
      dirty := [Version(0, bts, xid, rts, content, true)] + dirty;
      dirty := [Version(xid, xid, xid, rts, content, true)] + dirty;
      assert dirty == [dirty[0], dirty[1]] + old(dirty);
      return true;
    }

    /** The body of `update_node` on the main record. */
    method UpdateInPlace(xid: Xid, ch: Change) returns (ok: bool)
      requires xid != 0
      modifies this
      ensures ok <==> UpdateMain(old(Value()), xid, ch).Some?
      ensures Value() == if ok then UpdateMain(old(Value()), xid, ch).value else old(Value())
    {
      if rts > xid {
        return false;
      }
      if lock != xid {
        var locked := TryLock(xid);
        if !locked {
          return false;
        }
      }
      var k := GetDirtyVersion(xid);
      if k < |dirty| {
        dirty := dirty[k := dirty[k].(content := Updated(dirty[k].content, ch))];
      } else {
        dirty := [Version(0, bts, xid, rts, content, true)] + dirty;
        dirty := [Version(xid, xid, INF, rts, Updated(content, ch), true)] + dirty;
        assert dirty == [dirty[0], dirty[1]] + old(dirty);
      }
      return true;
    }

    /** The body of `update_node` on the k-th version: checks and lock are those of the
        version itself. */
    method UpdateVersionInPlace(k: nat, xid: Xid, ch: Change) returns (ok: bool)
      requires k < |dirty| && xid != 0
      modifies this
      ensures ok <==> UpdateVersion(old(Value()), k, xid, ch).Some?
      ensures Value() == if ok then UpdateVersion(old(Value()), k, xid, ch).value else old(Value())
    {
      var v := dirty[k];
      if v.rts > xid || (v.lock != xid && v.lock != 0) {
        return false;
      }
      dirty := dirty[k := v.(lock := xid)];
      assert dirty[k].lock == xid;
      var j := GetDirtyVersion(xid);
      dirty := dirty[j := dirty[j].(content := Updated(dirty[j].content, ch))];
      ok := true;
    }

    /** The body of `update_node` through a reference. */
    method UpdateVia(f: Fetch, xid: Xid, ch: Change) returns (ok: bool)
      requires (f.Dirty? ==> f.k < |dirty|) && xid != 0
      modifies this
      ensures ok <==> Mvto.UpdateVia(old(Value()), f, xid, ch).Some?
      ensures Value() == if ok then Mvto.UpdateVia(old(Value()), f, xid, ch).value else old(Value())
      ensures ok && (f.Dirty? ==> old(dirty)[f.k].lock == xid) ==> Edited(OwnContent(old(Value()), xid), ch, OwnContent(Value(), xid))
    {
      ghost var r := Value();
      if Mvto.UpdateVia(r, f, xid, ch).Some? && (f.Dirty? ==> dirty[f.k].lock == xid) {
        UpdateEdits(r, f, xid, ch);
      }
      match f
      case Main => ok := UpdateInPlace(xid, ch);
      case Dirty(k) => ok := UpdateVersionInPlace(k, xid, ch);
      case _ => ok := false;
    }

    /** A fetch and an update through the reference it yields. */
    method FetchAndUpdate(xid: Xid, ch: Change) returns (ok: bool)
      requires xid != 0
      modifies this
      ensures var r := SetRts(old(Value()), xid);
              var u := Mvto.UpdateVia(r, NodeById(r, xid), xid, ch);
              ok == u.Some? && Value() == if ok then u.value else r
    {
      var f := Fetch(xid);
      ok := UpdateVia(f, xid, ch);
    }

    /** `commit_dirty_node` after the garbage entry; false where the source throws. */
    method Commit(xid: Xid, oldest: nat) returns (ok: bool)
      modifies this
      ensures ok <==> CommitRecord(old(Value()), xid, oldest).Some?
      ensures Value() == if ok then CommitRecord(old(Value()), xid, oldest).value else old(Value())
      ensures ok && old(cts) == INF ==> lock == 0 && forall v :: v in dirty ==> v.cts > oldest
    {
      if cts != INF {
        RemoveDirtyVersion(0);
        return true;
      }
      if dirty == [] || (dirty[0].updated && |dirty| == 1) {
        return false;
      }
      var dn := dirty[0];
      if dn.updated && dn.bts == dn.cts {
        cts := xid;
        content := Content(content.labelCode, map[]);
      } else {
        content := dn.content;
        bts, cts := xid, INF;
      }
      dirty := dirty[1..];
      if dn.updated {
        dirty := [dirty[0].(lock := 0)] + dirty[1..];
      }
      lock := 0;
      CollectGarbage(oldest);
      return true;
    }

    /** One object of `abort_transaction`; true if the record has to be removed. */
    method Abort(xid: Xid) returns (removed: bool)
      modifies this
      ensures removed <==> AbortRecord(old(Value()), xid).None?
      ensures !removed ==> Value() == AbortRecord(old(Value()), xid).value
    {
      var k := GetDirtyVersion(xid);
      var wasUpdated := k < |dirty| && dirty[k].updated;
      RemoveDirtyVersion(xid);
      lock := 0;
      return !wasUpdated;
    }
  }

  // ------------------------------------------------------------- runs of the step system

  datatype RunClause = StepsEnabled | EndState

  ghost predicate RunMeets(k: RunClause, s: Db, es: seq<Event>, s': Db) {
    match k
    case StepsEnabled => CanRun(s, es)
    case EndState => CanRun(s, es) ==> Run(s, es) == s'
  }

  /** The events es can be executed from s and lead to s'. */
  ghost predicate Ran(s: Db, es: seq<Event>, s': Db) {
    forall k :: RunMeets(k, s, es, s')
  }

  lemma RanIsRun(s: Db, es: seq<Event>, s': Db)
    ensures Ran(s, es, s') <==> CanRun(s, es) && Run(s, es) == s'
  {
    if Ran(s, es, s') {
      assert RunMeets(StepsEnabled, s, es, s') && RunMeets(EndState, s, es, s');
    }
  }

  lemma OneStep(s: Db, e: Event) returns (s': Db)
    requires Inv(s) && Enabled(s, e)
    ensures s' == Apply(s, e) && Inv(s') && Ran(s, [e], s')
  {
    s' := Apply(s, e);
    StepKeepsInv(s, e);
    assert [e][1..] == [] && CanRun(s', []);
    RanIsRun(s, [e], s');
  }

  lemma {:induction false} RunJoin(s: Db, es: seq<Event>, fs: seq<Event>)
    requires CanRun(s, es) && CanRun(Run(s, es), fs)
    ensures CanRun(s, es + fs) && Run(s, es + fs) == Run(Run(s, es), fs)
    decreases |es|
  {
    if es == [] {
      assert es + fs == fs;
    } else {
      RunJoin(Apply(s, es[0]), es[1..], fs);
      assert (es + fs)[1..] == es[1..] + fs;
    }
  }

  lemma RanJoin(s: Db, es: seq<Event>, m: Db, fs: seq<Event>, s': Db)
    requires Ran(s, es, m) && Ran(m, fs, s')
    ensures Ran(s, es + fs, s')
  {
    RanIsRun(s, es, m);
    RanIsRun(m, fs, s');
    RunJoin(s, es, fs);
    RanIsRun(s, es + fs, s');
  }

  /** The steps of a commit or abort of t up to the n-th written object. */
  ghost function FinishEvents(t: Xid, commit: bool, n: nat): seq<Event> {
    if n == 0 then [if commit then StartCommit(t) else StartAbort(t)]
    else FinishEvents(t, commit, n - 1) + [if commit then CommitObject(t) else AbortObject(t)]
  }

  /** All the steps of a commit or abort call that processes n objects. */
  ghost function FinishRun(t: Xid, commit: bool, n: nat): seq<Event> {
    FinishEvents(t, commit, n) + [Vacuum]
  }

  // ------------------------------------------------------------ the tables as a value

  /** Records, dirty lists, active ids, garbage, the ids ever given to an object, the
      references to main records handed out, and the last transaction id. */
  datatype Image = Image(recs: map<Oid, Record>, dirty: map<Xid, seq<Oid>>, active: seq<Xid>, oldest: nat,
                         garbage: seq<Oid>, used: set<Oid>, handed: set<(Xid, Oid)>, last: Xid)

  datatype Part = InvPart | RecordsPart | ListsPart | IdsPart | HandedPart

  ghost predicate ShowsIn(k: Part, s: Db, i: Image) {
    match k
    case InvPart => Inv(s)
    case RecordsPart =>
      && (forall o :: o in i.recs <==> Present(s, o))
      && (forall o :: o in i.recs ==> i.recs[o] == s.cells[o].rec.value)
    case ListsPart => i.dirty.Keys == s.txs.Keys && forall t :: t in i.dirty ==> i.dirty[t] == s.txs[t].todo
    case IdsPart =>
      i.active == s.active && i.oldest == s.oldest && i.garbage == s.garbage && i.used == s.cells.Keys && i.last == s.last
    case HandedPart => forall h :: h in i.handed ==> h.1 in s.cells && h.0 in s.cells[h.1].held
  }

  /** The tables i hold the reachable state s. */
  ghost predicate Shows(s: Db, i: Image) {
    forall k :: ShowsIn(k, s, i)
  }

  lemma Parts(s: Db, i: Image)
    requires Shows(s, i)
    ensures forall k :: ShowsIn(k, s, i)
    ensures Inv(s) && ShowsIn(RecordsPart, s, i) && ShowsIn(ListsPart, s, i) && ShowsIn(IdsPart, s, i) && ShowsIn(HandedPart, s, i)
  {
    assert ShowsIn(InvPart, s, i);
  }

  lemma ShowsBy(s: Db, i: Image)
    requires Inv(s) && ShowsIn(RecordsPart, s, i) && ShowsIn(ListsPart, s, i) && ShowsIn(IdsPart, s, i) && ShowsIn(HandedPart, s, i)
    ensures Shows(s, i)
  {
    forall k ensures ShowsIn(k, s, i) {
      match k
      case InvPart => case RecordsPart => case ListsPart => case IdsPart => case HandedPart =>
    }
  }

  lemma ActiveShown(s: Db, i: Image, t: Xid)
    requires Shows(s, i) && t in i.active
    ensures t != 0 && t in i.dirty && IsActive(s.txs, t)
  {
    Parts(s, i);
    Clauses(s);
    ActiveId(s, t);
  }

  lemma XidShown(s: Db, i: Image, t: Xid)
    requires Shows(s, i) && t in i.active
    ensures 0 < t < INF
  {
    ActiveShown(s, i, t);
    Parts(s, i);
    ActiveId(s, t);
  }

  lemma BeginShown(s: Db, i: Image, t: Xid) returns (s': Db)
    requires Shows(s, i) && i.last < t < INF
    ensures Ran(s, [Begin(t)], s')
    ensures Shows(s', i.(dirty := i.dirty[t := []], active := i.active + [t], last := t))
  {
    Parts(s, i);
    s' := OneStep(s, Begin(t));
    ShowsBy(s', i.(dirty := i.dirty[t := []], active := i.active + [t], last := t));
  }

  /** A fetch that yields the main record hands out a reference to it. */
  function WithReference(handed: set<(Xid, Oid)>, f: Fetch, t: Xid, o: Oid): set<(Xid, Oid)> {
    if f.Main? then handed + {(t, o)} else handed
  }

  /** The tables after a fetch of o by t. */
  function ReadImage(i: Image, t: Xid, o: Oid): Image
    requires o in i.recs
  {
    var r := SetRts(i.recs[o], t);
    i.(recs := i.recs[o := r], handed := WithReference(i.handed, NodeById(r, t), t, o))
  }

  lemma ReadShown(s: Db, i: Image, t: Xid, o: Oid) returns (s': Db)
    requires Shows(s, i) && t in i.active && o in i.recs
    ensures t != 0 && Ran(s, [ReadNode(t, o)], s') && Shows(s', ReadImage(i, t, o))
    ensures Enabled(s, ReadNode(t, o)) && s' == Apply(s, ReadNode(t, o))
  {
    ActiveShown(s, i, t);
    Parts(s, i);
    s' := OneStep(s, ReadNode(t, o));
    ShowsBy(s', ReadImage(i, t, o));
  }

  lemma InsertShown(s: Db, i: Image, t: Xid, o: Oid, content: Content) returns (s': Db)
    requires Shows(s, i) && t in i.active && o !in i.used
    ensures t in i.dirty && o !in i.recs && Ran(s, [Insert(t, o, content)], s')
    ensures Shows(s', i.(recs := i.recs[o := FreshRecord(t, content)], dirty := i.dirty[t := i.dirty[t] + [o]], used := i.used + {o}))
  {
    ActiveShown(s, i, t);
    Parts(s, i);
    s' := OneStep(s, Insert(t, o, content));
    ShowsBy(s', i.(recs := i.recs[o := FreshRecord(t, content)], dirty := i.dirty[t := i.dirty[t] + [o]], used := i.used + {o}));
  }

  /** The tables after t turned record o into r', perhaps locking it anew. */
  function WriteImage(i: Image, t: Xid, o: Oid, r': Record): Image
    requires o in i.recs && t in i.dirty
  {
    i.(recs := i.recs[o := r'],
    dirty := if r'.lock == t && i.recs[o].lock != t then i.dirty[t := i.dirty[t] + [o]] else i.dirty)
  }

  lemma PutShown(s: Db, i: Image, t: Xid, o: Oid, c: Cell, was: Option<Record>)
    requires Shows(s, i) && Present(s, o) && t in s.txs && c.rec.Some? && was.Some? && was.value.lock == s.cells[o].rec.value.lock
    requires s.cells[o].held <= c.held && Inv(PutWritten(s, t, o, c, was))
    ensures o in i.recs && t in i.dirty && Shows(PutWritten(s, t, o, c, was), WriteImage(i, t, o, c.rec.value))
  {
    Parts(s, i);
    ShowsBy(PutWritten(s, t, o, c, was), WriteImage(i, t, o, c.rec.value));
  }

  /** A handed-out reference of an active transaction is to a record that is still there. */
  lemma HeldPresent(s: Db, i: Image, t: Xid, o: Oid)
    requires Shows(s, i) && t in i.active && (t, o) in i.handed
    ensures Present(s, o) && o in i.recs && t in s.cells[o].held
  {
    ActiveShown(s, i, t);
    Parts(s, i);
    CellOf(s, o);
    CellClauses(s.txs, s.cells[o]);
  }

  lemma UpdateHeldShown(s: Db, i: Image, t: Xid, o: Oid, ch: Change) returns (s': Db)
    requires Shows(s, i) && t in i.active && (t, o) in i.handed
    ensures t != 0 && o in i.recs && t in i.dirty && Ran(s, [UpdateHeld(t, o, ch)], s')
    ensures var u := UpdateMain(i.recs[o], t, ch);
            Shows(s', WriteImage(i, t, o, if u.Some? then u.value else i.recs[o]))
  {
    ActiveShown(s, i, t);
    HeldPresent(s, i, t, o);
    Parts(s, i);
    s' := OneStep(s, UpdateHeld(t, o, ch));
    PutShown(s, i, t, o, UpdateCell(s.cells[o], Main, t, ch), s.cells[o].rec);
  }

  lemma UpdateFetchedShown(s: Db, i: Image, t: Xid, o: Oid, ch: Change) returns (s': Db)
    requires Shows(s, i) && t in i.active && o in i.recs
    ensures t != 0 && t in i.dirty && Ran(s, [UpdateFetched(t, o, ch)], s')
    ensures var r := SetRts(i.recs[o], t);
            var u := Mvto.UpdateVia(r, NodeById(r, t), t, ch);
            Shows(s', WriteImage(i, t, o, if u.Some? then u.value else r))
  {
    ActiveShown(s, i, t);
    Parts(s, i);
    s' := OneStep(s, UpdateFetched(t, o, ch));
    var c := FetchCell(s.cells[o], t);
    PutShown(s, i, t, o, UpdateCell(c, NodeById(c.rec.value, t), t, ch), c.rec);
  }

  /** What an update through a fetch means for the tables i. */
  lemma FetchedUpdateShown(s: Db, i: Image, t: Xid, o: Oid, ch: Change)
    requires Shows(s, i) && t in i.active && o in i.recs
    ensures var r := SetRts(i.recs[o], t);
            var u := Mvto.UpdateVia(r, NodeById(r, t), t, ch);
            && (u.Some? <==> Updatable(i.recs[o], t))
            && (u.Some? ==> Describe(i.recs[o], t).Some? && EditSeen(Describe(i.recs[o], t), ch, Describe(u.value, t)))
  {
    ActiveShown(s, i, t);
    Parts(s, i);
    ActiveId(s, t);
    CellOf(s, o);
    FetchedUpdate(s.txs, s.cells[o], t, ch);
  }

  /** And through a main record fetched before. */
  lemma HeldUpdateShown(s: Db, i: Image, t: Xid, o: Oid, ch: Change)
    requires Shows(s, i) && t in i.active && (t, o) in i.handed
    ensures o in i.recs
    ensures var u := UpdateMain(i.recs[o], t, ch);
            && (u.Some? <==> HeldUpdatable(i.recs[o], t))
            && (u.Some? ==> EditSeen(Describe(i.recs[o], t), ch, Describe(u.value, t)))
  {
    ActiveShown(s, i, t);
    HeldPresent(s, i, t, o);
    Parts(s, i);
    ActiveId(s, t);
    CellOf(s, o);
    HeldUpdate(s.txs, s.cells[o], t, ch);
  }

  /** A delete through a reference into the version list fails the read-timestamp
      check, so a delete writes the main record or nothing. */
  lemma DeleteShape(s: Db, t: Xid, o: Oid)
    requires Inv(s) && IsActive(s.txs, t) && Present(s, o) && s.cells[o].rec.value.lock != t
    ensures var r := SetRts(s.cells[o].rec.value, t);
            var f := NodeById(r, t);
            f.Dirty? ==> !MayWrite(r.dirty[f.k].lock, r.dirty[f.k].rts, t)
  {
    ActiveId(s, t);
    CellOf(s, o);
    FetchKeeps(s.txs, s.cells[o], t);
    var c := FetchCell(s.cells[o], t);
    CellClauses(s.txs, c);
    if NodeById(c.rec.value, t).Dirty? {
      StaleReferenceThrows(s.txs, c, t, Change(0, map[]));
    }
  }

  /** The record after t tried to delete it. */
  function Deleted(r0: Record, t: Xid, orphaned: bool): Record {
    var r := SetRts(r0, t);
    if NodeById(r, t).Main? && !orphaned && MayWrite(r.lock, r.rts, t) then PushCopies(r, t, r.content, true) else r
  }

  lemma DeleteShown(s: Db, i: Image, t: Xid, o: Oid, orphaned: bool) returns (s': Db)
    requires Shows(s, i) && t in i.active && o in i.recs && i.recs[o].lock != t
    ensures t != 0 && t in i.dirty && Ran(s, [Delete(t, o, orphaned)], s')
    ensures Shows(s', WriteImage(i, t, o, Deleted(i.recs[o], t, orphaned)))
  {
    ActiveShown(s, i, t);
    Parts(s, i);
    s' := OneStep(s, Delete(t, o, orphaned));
    DeleteShape(s, t, o);
    var c := FetchCell(s.cells[o], t);
    if orphaned {
      ShowsBy(s', WriteImage(i, t, o, c.rec.value));
    } else {
      PutShown(s, i, t, o, DeleteCell(c, NodeById(c.rec.value, t), t), c.rec);
    }
  }

  /** What a delete means for the tables. */
  lemma DeleteEffectShown(s: Db, i: Image, t: Xid, o: Oid, orphaned: bool)
    requires Shows(s, i) && t in i.active && o in i.recs && i.recs[o].lock != t
    ensures Deleted(i.recs[o], t, orphaned).lock == t <==> !orphaned && Updatable(i.recs[o], t)
    ensures !orphaned && Updatable(i.recs[o], t) ==> NodeById(Deleted(i.recs[o], t, orphaned), t) == UnknownId
  {
    ActiveShown(s, i, t);
    Parts(s, i);
    ActiveId(s, t);
    DeleteEffect(s, t, o, orphaned);
    DeleteShape(s, t, o);
    assert Enabled(s, Delete(t, o, orphaned));
  }

  /** A successful read of an object not written is in the history. */
  lemma ReadRecordedShown(s: Db, i: Image, t: Xid, o: Oid)
    requires Shows(s, i) && t in i.active && o in i.recs
    ensures Enabled(s, ReadNode(t, o)) && o in Apply(s, ReadNode(t, o)).cells
    ensures var r := SetRts(i.recs[o], t);
            r.lock != t && Describe(r, t).Some? ==>
              exists w :: Read(t, w, Describe(r, t).value) in Apply(s, ReadNode(t, o)).cells[o].seen
  {
    ActiveShown(s, i, t);
    Parts(s, i);
    if i.recs[o].lock != t {
      ReadRecorded(s, t, o);
    }
  }

  // ---------------------------------------------------------------- commit and abort

  /** s is the state after the first n objects of t, from the state s0. */
  ghost predicate Reached(s0: Db, t: Xid, commit: bool, n: nat, s: Db) {
    && Ran(s0, FinishEvents(t, commit, n), s)
    && t in s.txs && s.txs[t].phase == (if commit then Committing else Aborting)
  }

  /** The tables after t left the active set. */
  function LeaveImage(i: Image, t: Xid): Image {
    var active := Without(i.active, t);
    i.(active := active, oldest := if active != [] then active[0] else t)
  }

  lemma LeaveShown(s: Db, i: Image, t: Xid, commit: bool) returns (s': Db)
    requires Shows(s, i) && t in i.active
    ensures Reached(s, t, commit, 0, s') && Shows(s', LeaveImage(i, t))
    ensures HasLeft(i.active, t, LeaveImage(i, t).active, LeaveImage(i, t).oldest)
  {
    ActiveShown(s, i, t);
    Parts(s, i);
    OldestAdvances(s, t, commit);
    var e := if commit then StartCommit(t) else StartAbort(t);
    assert FinishEvents(t, commit, 0) == [e];
    s' := OneStep(s, e);
    ShowsBy(s', LeaveImage(i, t));
  }

  /** The tables after the next object of t has become r'. */
  function FinishImage(i: Image, t: Xid, r': Option<Record>, garbage: seq<Oid>): Image
    requires t in i.dirty && i.dirty[t] != []
  {
    var o := i.dirty[t][0];
    i.(recs := if r'.Some? then i.recs[o := r'.value] else i.recs - {o}, dirty := i.dirty[t := i.dirty[t][1..]],
    garbage := garbage)
  }

  /** The state after the next object of t has become r'. */
  ghost function Finished(s: Db, t: Xid, r': Option<Record>, garbage: seq<Oid>): Db
    requires t in s.txs && s.txs[t].todo != [] && Present(s, s.txs[t].todo[0])
  {
    var o := s.txs[t].todo[0];
    s.(txs := s.txs[t := s.txs[t].(todo := s.txs[t].todo[1..])], cells := s.cells[o := s.cells[o].(rec := r')], garbage := garbage)
  }

  lemma FinishedShown(s: Db, i: Image, t: Xid, r': Option<Record>, garbage: seq<Oid>)
    requires Shows(s, i) && t in s.txs && s.txs[t].todo != [] && Present(s, s.txs[t].todo[0])
    requires Inv(Finished(s, t, r', garbage))
    ensures t in i.dirty && i.dirty[t] != [] && i.dirty[t][0] in i.recs
    ensures Shows(Finished(s, t, r', garbage), FinishImage(i, t, r', garbage))
  {
    Parts(s, i);
    ShowsBy(Finished(s, t, r', garbage), FinishImage(i, t, r', garbage));
  }

  lemma NextObject(s0: Db, t: Xid, commit: bool, n: nat, s: Db, i: Image) returns (s': Db)
    requires Reached(s0, t, commit, n, s) && Shows(s, i) && t in i.dirty && i.dirty[t] != []
    ensures Inv(s) && s.txs[t].todo == i.dirty[t]
    ensures var o := i.dirty[t][0];
            Present(s, o) && o in i.recs && s.cells[o].rec.value == i.recs[o] && s.oldest == i.oldest && s.garbage == i.garbage
    ensures var e := if commit then CommitObject(t) else AbortObject(t);
            Enabled(s, e) && s' == Apply(s, e) && Inv(s') && Reached(s0, t, commit, n + 1, s')
  {
    Parts(s, i);
    HeadLocked(s, t);
    var e := if commit then CommitObject(t) else AbortObject(t);
    s' := OneStep(s, e);
    RanJoin(s0, FinishEvents(t, commit, n), s, [e], s');
    assert FinishEvents(t, commit, n + 1) == FinishEvents(t, commit, n) + [e];
  }

  /** The main record of the next object after the commit of t. */
  function CommittedRecord(i: Image, t: Xid): Record
    requires t in i.dirty && i.dirty[t] != [] && i.dirty[t][0] in i.recs
  {
    var r := i.recs[i.dirty[t][0]];
    var r' := CommitRecord(r, t, i.oldest);
    if r'.Some? then r'.value else r
  }

  lemma NeverThrows(s: Db, i: Image, t: Xid)
    requires Inv(s) && Enabled(s, CommitObject(t)) && s.txs[t].todo[0] in i.recs && s.oldest == i.oldest
    requires Present(s, s.txs[t].todo[0]) && s.cells[s.txs[t].todo[0]].rec.value == i.recs[s.txs[t].todo[0]]
    ensures CommitRecord(i.recs[s.txs[t].todo[0]], t, i.oldest).Some?
  {
    CommitNeverThrows(s, t);
  }

  lemma CommitShown(s0: Db, t: Xid, n: nat, s: Db, i: Image) returns (s': Db)
    requires Reached(s0, t, true, n, s) && Shows(s, i) && t in i.dirty && i.dirty[t] != []
    ensures i.dirty[t][0] in i.recs && Reached(s0, t, true, n + 1, s')
    ensures CommitRecord(i.recs[i.dirty[t][0]], t, i.oldest).Some?
    ensures var o := i.dirty[t][0];
            var r' := CommittedRecord(i, t);
            Shows(s', FinishImage(i, t, Some(r'), i.garbage + if i.recs[o].cts == INF && r'.cts != INF then [o] else []))
  {
    s' := NextObject(s0, t, true, n, s, i);
    NeverThrows(s, i, t);
    var o := i.dirty[t][0];
    var r' := CommittedRecord(i, t);
    var garbage := i.garbage + if i.recs[o].cts == INF && r'.cts != INF then [o] else [];
    assert s' == Finished(s, t, Some(r'), garbage) by {
      assert s.cells[o].(rec := Some(i.recs[o])) == s.cells[o] && s.cells[o := s.cells[o]] == s.cells;
    }
    FinishedShown(s, i, t, Some(r'), garbage);
  }

  lemma AbortShown(s0: Db, t: Xid, n: nat, s: Db, i: Image) returns (s': Db)
    requires Reached(s0, t, false, n, s) && Shows(s, i) && t in i.dirty && i.dirty[t] != []
    ensures i.dirty[t][0] in i.recs && Reached(s0, t, false, n + 1, s')
    ensures Shows(s', FinishImage(i, t, AbortRecord(i.recs[i.dirty[t][0]], t), i.garbage))
  {
    s' := NextObject(s0, t, false, n, s, i);
    FinishedShown(s, i, t, AbortRecord(i.recs[i.dirty[t][0]], t), i.garbage);
  }

  /** The vacuum loop has reached position k in state s; it started in state s0. */
  ghost predicate Vacuumed(s0: Db, k: nat, s: Db) {
    k <= |s.garbage| && VacuumFrom(s0, 0) == VacuumFrom(s, k)
  }

  /** The tables after item k of the vacuum loop. */
  function VacuumImage(i: Image, k: nat): Image
    requires k < |i.garbage| && i.garbage[k] in i.recs
  {
    var o := i.garbage[k];
    var vs := Gc(i.recs[o].dirty, i.oldest);
    if vs == [] then i.(recs := i.recs - {o}, garbage := i.garbage[..k] + i.garbage[k + 1..])
    else i.(recs := i.recs[o := i.recs[o].(dirty := vs)])
  }

  lemma VacuumShown(s0: Db, k: nat, s: Db, i: Image) returns (s': Db)
    requires Vacuumed(s0, k, s) && Shows(s, i) && k < |i.garbage|
    ensures i.garbage[k] in i.recs && Shows(s', VacuumImage(i, k))
    ensures Vacuumed(s0, if Gc(i.recs[i.garbage[k]].dirty, i.oldest) == [] then k else k + 1, s')
  {
    Parts(s, i);
    VacuumItemKeeps(s, k);
    var o := s.garbage[k];
    var c := VacuumCell(s.cells[o], s.oldest);
    s' := s.(cells := s.cells[o := c], garbage := if c.rec.None? then s.garbage[..k] + s.garbage[k + 1..] else s.garbage);
    ShowsBy(s', VacuumImage(i, k));
  }

  /** After the vacuum loop every deleted record that is left is still needed. */
  lemma VacuumedShown(s0: Db, i0: Image, s: Db, i: Image)
    requires Shows(s0, i0) && Shows(s, i) && Vacuumed(s0, |s.garbage|, s)
    ensures forall o :: o in i.recs && i.recs[o].cts != INF ==> Needed(i.recs[o], i.oldest)
  {
    Parts(s0, i0);
    Parts(s, i);
    forall o | o in i.recs && i.recs[o].cts != INF ensures Needed(i.recs[o], i.oldest) {
      NeededAfter(s0, o);
    }
  }

  lemma VacuumDone(s0: Db, t: Xid, commit: bool, n: nat, m: Db, s: Db, i: Image)
    requires Reached(s0, t, commit, n, m) && Inv(m) && Vacuumed(m, |s.garbage|, s)
    ensures Ran(s0, FinishRun(t, commit, n), s)
  {
    var s' := OneStep(m, Vacuum);
    RanJoin(s0, FinishEvents(t, commit, n), m, [Vacuum], s');
  }

  // ---------------------------------------------------------------------- the database

  /** A call of a client on the database. */
  datatype Call =
    | CallBegin(t: Xid)
    | CallRead(t: Xid, o: Oid)
    | CallInsert(t: Xid, o: Oid, content: Content)
    | CallUpdate(t: Xid, o: Oid, change: Change)
    | CallUpdateHeld(t: Xid, o: Oid, change: Change)
    | CallDelete(t: Xid, o: Oid, orphaned: bool)
    | CallCommit(t: Xid)
    | CallAbort(t: Xid)

  ghost function RecordsOf(nodes: map<Oid, Node>): map<Oid, Record>
    reads nodes.Values
  {
    map o | o in nodes :: nodes[o].Value()
  }

  lemma OneChanged(nodes: map<Oid, Node>, was: map<Oid, Record>, id: Oid)
    requires id in nodes && was.Keys == nodes.Keys
    requires forall o :: o in nodes && o != id ==> nodes[o].Value() == was[o]
    ensures RecordsOf(nodes) == was[id := nodes[id].Value()]
    ensures RecordsOf(nodes - {id}) == was - {id}
  {
  }

  lemma OneAdded(nodes: map<Oid, Node>, was: map<Oid, Record>, n: Node)
    requires n.id !in nodes && RecordsOf(nodes) == was
    ensures RecordsOf(nodes[n.id := n]) == was[n.id := n.Value()]
  {
  }

  /** A locked record with an empty property list, and its content in the first version. */
  method NewNode(id: Oid, xid: Xid, c: Content) returns (n: Node)
    ensures fresh(n) && n.id == id && n.Value() == FreshRecord(xid, c)
  {
    n := new Node(id, xid, c);
    n.dirty := [Version(n.lock, n.bts, n.cts, n.rts, c, false)] + n.dirty;
  }

  /** The steps of a call made on the tables i. A call with a transaction that is not
      active, an object that is not there, or a reference that was never handed out has
      no effect. */
  ghost function StepsOf(call: Call, i: Image): seq<Event> {
    match call
    case CallBegin(t) => if i.last < t < INF then [Begin(t)] else []
    case CallRead(t, o) => if t in i.active && o in i.recs then [ReadNode(t, o)] else []
    case CallInsert(t, o, content) => if t in i.active && o !in i.used then [Insert(t, o, content)] else []
    case CallUpdate(t, o, ch) => if t in i.active && o in i.recs then [UpdateFetched(t, o, ch)] else []
    case CallUpdateHeld(t, o, ch) => if t in i.active && (t, o) in i.handed then [UpdateHeld(t, o, ch)] else []
    case CallDelete(t, o, orphaned) =>
      if t in i.active && o in i.recs && i.recs[o].lock != t then [Delete(t, o, orphaned)] else []
    case CallCommit(t) => if t in i.active && t in i.dirty then FinishRun(t, true, |i.dirty[t]|) else []
    case CallAbort(t) => if t in i.active && t in i.dirty then FinishRun(t, false, |i.dirty[t]|) else []
  }

  /** The states and tables before, between and after the calls. */
  ghost predicate History(calls: seq<Call>, states: seq<Db>, images: seq<Image>) {
    && |states| == |images| == |calls| + 1
    && (forall k :: 0 <= k <= |calls| ==> Shows(states[k], images[k]))
    && (forall k :: 0 <= k < |calls| ==> Ran(states[k], StepsOf(calls[k], images[k]), states[k + 1]))
  }

  lemma {:induction false} HistoryRan(calls: seq<Call>, states: seq<Db>, images: seq<Image>) returns (es: seq<Event>)
    requires History(calls, states, images)
    ensures Ran(states[0], es, states[|calls|])
    decreases |calls|
  {
    if calls == [] {
      es := [];
      RanIsRun(states[0], es, states[0]);
    } else {
      var n := |calls| - 1;
      var before := HistoryRan(calls[..n], states[..n + 1], images[..n + 1]);
      RanJoin(states[0], before, states[n], StepsOf(calls[n], images[n]), states[n + 1]);
      es := before + StepsOf(calls[n], images[n]);
    }
  }

  class GraphDb {
    var nodes: map<Oid, Node>
    var dirtyNodes: map<Xid, seq<Oid>>
    var active: seq<Xid>
    var oldest: nat
    var garbage: seq<Oid>
    var used: set<Oid>
    var handed: set<(Xid, Oid)>
    var last: Xid
    ghost var model: Db

    ghost function Value(): Image
      reads this, nodes.Values
    {
      Image(RecordsOf(nodes), dirtyNodes, active, oldest, garbage, used, handed, last)
    }

    /** The tables hold the reachable state `model`. */
    ghost predicate Valid()
      reads this, nodes.Values
    {
      (forall o :: o in nodes ==> nodes[o].id == o) && Shows(model, Value())
    }

    /** An empty database. */
    constructor ()
      ensures Valid() && Init(model) && nodes == map[] && model.cells == map[] && last == 0
    {
      nodes, dirtyNodes, active, oldest, garbage, used, handed, last := map[], map[], [], 0, [], {}, {}, 0;
      model := Db(map[], map[], [], 0, [], 0);
      new;
      InitInv(model);
      ShowsBy(model, Value());
    }

    method BeginTransaction(xid: Xid)
      requires Valid() && last < xid < INF
      modifies this
      ensures Valid() && Ran(old(model), [Begin(xid)], model)
      ensures nodes == old(nodes) && xid in active && last == xid
    {
      ghost var s := BeginShown(model, Value(), xid);
      dirtyNodes := dirtyNodes[xid := []];
      active, last := active + [xid], xid;
      model := s;
    }

    /** Fetch a node; the reference is the main record or a version of it. */
    method NodeByIdentifier(xid: Xid, id: Oid) returns (f: Fetch)
      requires Valid() && xid in active && id in nodes
      modifies this`model, this`handed, nodes[id]
      ensures Valid() && Ran(old(model), [ReadNode(xid, id)], model)
      ensures f == NodeById(nodes[id].Value(), xid) && nodes[id].Value() == SetRts(old(nodes[id].Value()), xid)
      ensures id in model.cells && (f == Main ==> (xid, id) in handed)
      ensures nodes[id].lock != xid && Describe(nodes[id].Value(), xid).Some? ==>
                exists w :: Read(xid, w, Describe(nodes[id].Value(), xid).value) in model.cells[id].seen
    {
      ghost var s := ReadShown(model, Value(), xid, id);
      ReadRecordedShown(model, Value(), xid, id);
      f := nodes[id].Fetch(xid);
      handed, model := WithReference(handed, f, xid, id), s;
      OneChanged(nodes, old(RecordsOf(nodes)), id);
    }

    /** The id is a free slot of the table, never used before. */
    method AddNode(xid: Xid, id: Oid, c: Content)
      requires Valid() && xid in active && id !in used
      modifies this
      ensures Valid() && Ran(old(model), [Insert(xid, id, c)], model)
      ensures id in nodes && nodes == old(nodes)[id := nodes[id]] && fresh(nodes[id]) && active == old(active)
      ensures Describe(nodes[id].Value(), xid) == Some(c)
    {
      XidShown(model, Value(), xid);
      InsertSeen(xid, c);
      ghost var s := InsertShown(model, Value(), xid, id, c);
      var n := NewNode(id, xid, c);
      nodes, dirtyNodes, used, model := nodes[id := n], dirtyNodes[xid := dirtyNodes[xid] + [id]], used + {id}, s;
      OneAdded(old(nodes), old(RecordsOf(nodes)), n);
    }

    /** `update_node` through a main record that xid fetched earlier. */
    method UpdateNode(xid: Xid, id: Oid, ch: Change) returns (ok: bool)
      requires Valid() && xid in active && (xid, id) in handed
      modifies this`model, this`dirtyNodes, nodes.Values
      ensures Valid() && Ran(old(model), [UpdateHeld(xid, id, ch)], model)
      ensures id in nodes && nodes == old(nodes) && (ok <==> HeldUpdatable(old(nodes[id].Value()), xid))
      ensures if ok then EditSeen(Describe(old(nodes[id].Value()), xid), ch, Describe(nodes[id].Value(), xid))
              else nodes[id].Value() == old(nodes[id].Value())
    {
      HeldUpdateShown(model, Value(), xid, id, ch);
      ghost var s := UpdateHeldShown(model, Value(), xid, id, ch);
      var n := nodes[id];
      var wasMine := n.lock == xid;
      ok := n.UpdateInPlace(xid, ch);
      dirtyNodes, model := if n.lock == xid && !wasMine then dirtyNodes[xid := dirtyNodes[xid] + [id]] else dirtyNodes, s;
      OneChanged(nodes, old(RecordsOf(nodes)), id);
    }

    /** A fetch and an update through the reference it yields. */
    method FetchAndUpdate(xid: Xid, id: Oid, ch: Change) returns (ok: bool)
      requires Valid() && xid in active && id in nodes
      modifies this`model, this`dirtyNodes, nodes[id]
      ensures Valid() && Ran(old(model), [UpdateFetched(xid, id, ch)], model)
      ensures ok <==> Updatable(old(nodes[id].Value()), xid)
      ensures if ok then Describe(old(nodes[id].Value()), xid).Some? &&
                         EditSeen(Describe(old(nodes[id].Value()), xid), ch, Describe(nodes[id].Value(), xid))
              else nodes[id].Value() == SetRts(old(nodes[id].Value()), xid)
    {
      FetchedUpdateShown(model, Value(), xid, id, ch);
      ghost var s := UpdateFetchedShown(model, Value(), xid, id, ch);
      var n := nodes[id];
      var wasMine := n.lock == xid;
      ok := n.FetchAndUpdate(xid, ch);
      dirtyNodes, model := if n.lock == xid && !wasMine then dirtyNodes[xid := dirtyNodes[xid] + [id]] else dirtyNodes, s;
      OneChanged(nodes, old(RecordsOf(nodes)), id);
    }

    method DeleteNode(xid: Xid, id: Oid, orphaned: bool) returns (ok: bool)
      requires Valid() && xid in active && id in nodes && nodes[id].lock != xid
      modifies this`model, this`dirtyNodes, nodes[id]
      ensures Valid() && Ran(old(model), [Delete(xid, id, orphaned)], model)
      ensures ok <==> nodes[id].lock == xid
      ensures ok <==> !orphaned && Updatable(old(nodes[id].Value()), xid)
      ensures ok ==> NodeById(nodes[id].Value(), xid) == UnknownId
    {
      DeleteEffectShown(model, Value(), xid, id, orphaned);
      ghost var s := DeleteShown(model, Value(), xid, id, orphaned);
      ok := nodes[id].DeleteInPlace(xid, orphaned);
      dirtyNodes, model := if ok then dirtyNodes[xid := dirtyNodes[xid] + [id]] else dirtyNodes, s;
      OneChanged(nodes, old(RecordsOf(nodes)), id);
    }

    /** Remove xid from the active set and recompute the oldest active id. */
    method LeaveActive(xid: Xid, ghost commit: bool)
      requires Valid() && xid in active
      modifies this
      ensures Valid() && Reached(old(model), xid, commit, 0, model)
      ensures nodes == old(nodes) && dirtyNodes == old(dirtyNodes) && HasLeft(old(active), xid, active, oldest)
    {
      ghost var s := LeaveShown(model, Value(), xid, commit);
      active := RemoveId(active, xid);
      oldest := if active != [] then active[0] else xid;
      model := s;
    }

    /** Process the next object of the committing transaction xid; `ok` unless it throws. */
    method CommitDirtyNode(xid: Xid, ghost s0: Db, ghost n: nat) returns (ok: bool)
      requires Valid() && Reached(s0, xid, true, n, model) && xid in dirtyNodes && dirtyNodes[xid] != []
      modifies this, nodes.Values
      ensures ok && Valid() && Reached(s0, xid, true, n + 1, model)
      ensures nodes == old(nodes) && dirtyNodes == old(dirtyNodes)[xid := old(dirtyNodes)[xid][1..]]
      ensures active == old(active) && oldest == old(oldest)
    {
      ghost var s := CommitShown(s0, xid, n, model, Value());
      var id := dirtyNodes[xid][0];
      var node := nodes[id];
      var wasLive := node.cts == INF;
      ok := node.Commit(xid, oldest);
      var erased := if wasLive && node.cts != INF then [id] else [];
      garbage, dirtyNodes, model := garbage + erased, dirtyNodes[xid := dirtyNodes[xid][1..]], s;
      OneChanged(nodes, old(RecordsOf(nodes)), id);
    }

    /** Undo the next object of the aborting transaction xid. */
    method AbortDirtyNode(xid: Xid, ghost s0: Db, ghost n: nat)
      requires Valid() && Reached(s0, xid, false, n, model) && xid in dirtyNodes && dirtyNodes[xid] != []
      modifies this, nodes.Values
      ensures Valid() && Reached(s0, xid, false, n + 1, model)
      ensures nodes.Values <= old(nodes).Values && dirtyNodes == old(dirtyNodes)[xid := old(dirtyNodes)[xid][1..]]
      ensures active == old(active) && oldest == old(oldest)
    {
      ghost var s := AbortShown(s0, xid, n, model, Value());
      var id := dirtyNodes[xid][0];
      var removed := nodes[id].Abort(xid);
      var kept := if removed then nodes - {id} else nodes;
      nodes, dirtyNodes, model := kept, dirtyNodes[xid := dirtyNodes[xid][1..]], s;
      OneChanged(old(nodes), old(RecordsOf(nodes)), id);
    }

    /** One item of the vacuum loop; true if the record was removed. */
    method VacuumItem(k: nat, ghost s0: Db) returns (erased: bool)
      requires Valid() && Vacuumed(s0, k, model) && k < |garbage|
      modifies this, nodes.Values
      ensures Valid() && Vacuumed(s0, if erased then k else k + 1, model)
      ensures nodes.Values <= old(nodes).Values && |garbage| == old(|garbage|) - if erased then 1 else 0
      ensures active == old(active) && oldest == old(oldest)
    {
      ghost var i := Value();
      ghost var s := VacuumShown(s0, k, model, i);
      var id := garbage[k];
      var n := nodes[id];
      n.CollectGarbage(oldest);
      erased := n.dirty == [];
      var rest := garbage[..k] + garbage[k + 1..];
      nodes, garbage, model := if erased then nodes - {id} else nodes, if erased then rest else garbage, s;
      OneChanged(old(nodes), i.recs, id);
      assert Value() == VacuumImage(i, k);
    }

    method VacuumAll()
      requires Valid()
      modifies this, nodes.Values
      ensures Valid() && Vacuumed(old(model), |garbage|, model)
      ensures |model.garbage| == |garbage| && nodes.Values <= old(nodes).Values
      ensures active == old(active) && oldest == old(oldest)
      ensures forall o :: o in nodes && nodes[o].cts != INF ==> Needed(nodes[o].Value(), oldest)
    {
      ghost var i0 := Value();
      var k := 0;
      while k < |garbage|
        invariant Valid() && Vacuumed(old(model), k, model) && k <= |garbage| && nodes.Values <= old(nodes).Values
        invariant active == old(active) && oldest == old(oldest)
        decreases |garbage| - k
      {
        var erased := VacuumItem(k, old(model));
        if !erased {
          k := k + 1;
        }
      }
      Parts(model, Value());
      VacuumedShown(old(model), i0, model, Value());
      assert forall o :: o in nodes ==> Value().recs[o] == nodes[o].Value();
    }

    /** The loop of commit and abort over the dirty list of xid. */
    method FinishObjects(xid: Xid, commit: bool, ghost s0: Db) returns (ok: bool)
      requires Valid() && xid in dirtyNodes && Reached(s0, xid, commit, 0, model)
      modifies this, nodes.Values
      ensures ok && Valid() && Reached(s0, xid, commit, |old(dirtyNodes)[xid]|, model) && nodes.Values <= old(nodes).Values
      ensures active == old(active) && oldest == old(oldest)
    {
      ok := true;
      ghost var k := 0;
      while dirtyNodes[xid] != []
        invariant ok && Valid() && xid in dirtyNodes && nodes.Values <= old(nodes).Values
        invariant active == old(active) && oldest == old(oldest)
        invariant k + |dirtyNodes[xid]| == |old(dirtyNodes)[xid]| && Reached(s0, xid, commit, k, model)
        decreases |dirtyNodes[xid]|
      {
        if commit {
          var done := CommitDirtyNode(xid, s0, k);
          ok := ok && done;
        } else {
          AbortDirtyNode(xid, s0, k);
        }
        k := k + 1;
      }
    }

    /** Commit or abort: xid leaves the active set, its objects are processed one by
        one, and vacuum follows. The whole call is one run of the step system, and the
        `transaction_abort` exit of `commit_dirty_node` is never taken. */
    method Finish(xid: Xid, commit: bool) returns (ok: bool)
      requires Valid() && xid in active
      modifies this, nodes.Values
      ensures ok && Valid() && xid in old(dirtyNodes) && nodes.Values <= old(nodes).Values
      ensures HasLeft(old(active), xid, active, oldest)
      ensures forall o :: o in nodes && nodes[o].cts != INF ==> Needed(nodes[o].Value(), oldest)
      ensures Ran(old(model), FinishRun(xid, commit, |old(dirtyNodes)[xid]|), model)
    {
      ActiveShown(model, Value(), xid);
      ghost var n := |dirtyNodes[xid]|;
      LeaveActive(xid, commit);
      ok := FinishObjects(xid, commit, old(model));
      ghost var m := model;
      Parts(model, Value());
      VacuumAll();
      VacuumDone(old(model), xid, commit, n, m, model, Value());
    }

    /** `commit_transaction`; it never throws. */
    method CommitTransaction(xid: Xid) returns (ok: bool)
      requires Valid() && xid in active
      modifies this, nodes.Values
      ensures ok && Valid() && xid in old(dirtyNodes) && nodes.Values <= old(nodes).Values
      ensures HasLeft(old(active), xid, active, oldest)
      ensures forall o :: o in nodes && nodes[o].cts != INF ==> Needed(nodes[o].Value(), oldest)
      ensures Ran(old(model), FinishRun(xid, true, |old(dirtyNodes)[xid]|), model)
    {
      ok := Finish(xid, true);
    }

    /** `abort_transaction`. */
    method AbortTransaction(xid: Xid)
      requires Valid() && xid in active
      modifies this, nodes.Values
      ensures Valid() && xid in old(dirtyNodes) && nodes.Values <= old(nodes).Values
      ensures HasLeft(old(active), xid, active, oldest)
      ensures forall o :: o in nodes && nodes[o].cts != INF ==> Needed(nodes[o].Value(), oldest)
      ensures Ran(old(model), FinishRun(xid, false, |old(dirtyNodes)[xid]|), model)
    {
      var ok := Finish(xid, false);
    }

    /** One call of a client. */
    method Perform(call: Call)
      requires Valid()
      modifies this, nodes.Values
      ensures Valid() && Ran(old(model), StepsOf(call, old(Value())), model)
      ensures forall n :: n in nodes.Values ==> n in old(nodes).Values || fresh(n)
    {
      RanIsRun(model, [], model);
      match call {
        case CallBegin(t) =>
          if last < t < INF {
            BeginTransaction(t);
          }
        case CallRead(t, o) =>
          if t in active && o in nodes {
            var f := NodeByIdentifier(t, o);
          }
        case CallInsert(t, o, content) =>
          if t in active && o !in used {
            AddNode(t, o, content);
          }
        case CallUpdate(t, o, ch) =>
          if t in active && o in nodes {
            var ok := FetchAndUpdate(t, o, ch);
          }
        case CallUpdateHeld(t, o, ch) =>
          if t in active && (t, o) in handed {
            var ok := UpdateNode(t, o, ch);
          }
        case CallDelete(t, o, orphaned) =>
          if t in active && o in nodes && nodes[o].lock != t {
            var ok := DeleteNode(t, o, orphaned);
          }
        case CallCommit(t) =>
          if t in active {
            var ok := CommitTransaction(t);
          }
        case CallAbort(t) =>
          if t in active {
            AbortTransaction(t);
          }
      }
    }
  }

  /** Any sequence of client calls is a run of the step system, one call after the other. */
  method PerformAll(db: GraphDb, calls: seq<Call>) returns (ghost states: seq<Db>, ghost images: seq<Image>)
    requires db.Valid()
    modifies db, db.nodes.Values
    ensures db.Valid() && History(calls, states, images)
    ensures states[0] == old(db.model) && images[0] == old(db.Value())
    ensures states[|calls|] == db.model && images[|calls|] == db.Value()
  {
    states, images := [db.model], [db.Value()];
    for k := 0 to |calls|
      invariant db.Valid() && History(calls[..k], states, images)
      invariant states[0] == old(db.model) && images[0] == old(db.Value())
      invariant states[k] == db.model && images[k] == db.Value()
      invariant forall n :: n in db.nodes.Values ==> n in old(db.nodes).Values || fresh(n)
    {
      db.Perform(calls[k]);
      states, images := states + [db.model], images + [db.Value()];
    }
    assert calls[..|calls|] == calls;
  }

  /** What the record of an object shows to a later transaction. */
  ghost function Live(r: Record): Option<Content> {
    if r.cts == INF then Some(r.content) else None
  }

  lemma RunIsSerial(s0: Db, es: seq<Event>, s: Db, i: Image)
    requires Init(s0) && Ran(s0, es, s) && Shows(s, i)
    ensures forall o :: o in i.recs && i.recs[o].lock == 0 ==> Get(SerialRun(s, i.last + 1), o) == Live(i.recs[o])
    ensures forall o, rd :: o in s.cells && rd in s.cells[o].seen ==> Get(SerialRun(s, rd.xid), o) == Some(rd.content)
  {
    RanIsRun(s0, es, s);
    Parts(s, i);
    forall o | o in i.recs && i.recs[o].lock == 0
      ensures Get(SerialRun(s, i.last + 1), o) == Live(i.recs[o])
    {
      RecordsAreSerial(s0, es, o);
    }
    forall o, rd | o in s.cells && rd in s.cells[o].seen
      ensures Get(SerialRun(s, rd.xid), o) == Some(rd.content)
    {
      ReadsAreSerial(s0, es, o, rd);
    }
  }

  /** The node table after any sequence of calls on a new database: every record that
      nobody is writing holds what the committed transactions leave when they are run
      alone, one after the other, in id order. */
  method CallsAreSerial(calls: seq<Call>) returns (db: GraphDb, ghost states: seq<Db>, ghost images: seq<Image>)
    ensures fresh(db) && db.Valid() && History(calls, states, images) && Init(states[0])
    ensures states[|calls|] == db.model && images[|calls|] == db.Value()
    ensures forall o :: o in db.nodes && db.nodes[o].lock == 0 ==>
                          Get(SerialRun(db.model, db.last + 1), o) == Live(db.nodes[o].Value())
  {
    db := new GraphDb();
    states, images := PerformAll(db, calls);
    ghost var es := HistoryRan(calls, states, images);
    RunIsSerial(states[0], es, db.model, db.Value());
    assert forall o :: o in db.nodes ==> db.Value().recs[o] == db.nodes[o].Value();
  }

  method RemoveId(active: seq<Xid>, xid: Xid) returns (kept: seq<Xid>)
    ensures kept == Without(active, xid)
  {
    kept := [];
    var k := 0;
    while k < |active|
      invariant k <= |active|
      invariant Without(active, xid) == kept + Without(active[k..], xid)
    {
      assert active[k..][1..] == active[k + 1..];
      if active[k] != xid {
        assert Without(active[k..], xid) == [active[k]] + Without(active[k + 1..], xid);
        kept := kept + [active[k]];
      }
      k := k + 1;
    }
  }
}
