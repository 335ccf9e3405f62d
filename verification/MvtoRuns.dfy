/** The invariant holds in every reachable state. */
module MvtoRuns {
  import opened Wrappers
  import opened Mvto
  import opened MvtoInvariant
  import opened MvtoSteps

  lemma InitInv(s: Db)
    requires Init(s)
    ensures Inv(s)
  {
    forall o | o in s.cells ensures CellInv(s.txs, s.cells[o]) {
      var c := s.cells[o];
      assert Settled(s.txs, c.writes, c.rec.value);
    }
  }

  lemma CellsKeepPhases(s: Db, txs': map<Xid, Tx>)
    requires forall o :: o in s.cells ==> CellInv(s.txs, s.cells[o])
    requires txs'.Keys == s.txs.Keys && forall t :: t in s.txs ==> txs'[t].phase == s.txs[t].phase
    ensures forall o :: o in s.cells ==> CellInv(txs', s.cells[o])
  {
    forall o | o in s.cells ensures CellInv(txs', s.cells[o]) {
      SamePhasesKeep(s.txs, txs', s.cells[o]);
    }
  }

  /** How a call of t may change the record of an object: it takes a free lock,
      keeps the lock it has, or leaves the lock alone. */
  ghost predicate LockStep(s: Db, t: Xid, o: Oid, r: Record, was: Option<Record>) {
    if was.None? then o !in s.cells && r.lock == t
    else
      && Present(s, o) && s.cells[o].rec.value.lock == was.value.lock
      && (r.lock == was.value.lock || (was.value.lock == 0 && r.lock == t))
      && r.cts == s.cells[o].rec.value.cts
  }

  lemma PutTodo(s: Db, t: Xid, o: Oid, c: Cell, was: Option<Record>)
    requires TodoOk(s) && t in s.txs && 0 !in s.txs && c.rec.Some? && LockStep(s, t, o, c.rec.value, was)
    ensures TodoOk(PutWritten(s, t, o, c, was))
  {
    var s' := PutWritten(s, t, o, c, was);
    if o in s.txs[t].todo { assert LockedBy(s, o, t); }
    assert NoDuplicates(s.txs[t].todo);
    forall x, p | x in s'.txs && p in s'.txs[x].todo ensures LockedBy(s', p, x) {
      if p in s.txs[x].todo { assert LockedBy(s, p, x); }
    }
  }

  lemma PutGarbage(s: Db, t: Xid, o: Oid, c: Cell, was: Option<Record>)
    requires GarbageOk(s) && t in s.txs && t != 0 && c.rec.Some? && LockStep(s, t, o, c.rec.value, was)
    requires c.rec.value.lock != 0 ==> c.rec.value.cts == INF
    ensures GarbageOk(PutWritten(s, t, o, c, was))
  {
    var s' := PutWritten(s, t, o, c, was);
    forall p | p in s'.garbage ensures LockedBy(s', p, 0) && s'.cells[p].rec.value.cts != INF {
      assert LockedBy(s, p, 0);
    }
    forall p | IsDeleted(s', p) ensures p in s'.garbage {
      if p != o || was.Some? { assert IsDeleted(s, p); }
    }
  }

  lemma PutKeeps(s: Db, t: Xid, o: Oid, c: Cell, was: Option<Record>)
    requires Inv(s) && IsActive(s.txs, t) && CellInv(s.txs, c) && c.rec.Some?
    requires LockStep(s, t, o, c.rec.value, was)
    ensures Inv(PutWritten(s, t, o, c, was))
  {
    Clauses(s);
    CellClauses(s.txs, c);
    var s' := PutWritten(s, t, o, c, was);
    CellsKeepPhases(s, s'.txs);
    SamePhasesKeep(s.txs, s'.txs, c);
    PutTodo(s, t, o, c, was);
    PutGarbage(s, t, o, c, was);
    assert IdsOk(s');
  }

  lemma ReadKeeps(s: Db, t: Xid, o: Oid)
    requires Inv(s) && IsActive(s.txs, t) && Present(s, o)
    ensures Inv(s.(cells := s.cells[o := FetchCell(s.cells[o], t)]))
  {
    Clauses(s);
    FetchKeeps(s.txs, s.cells[o], t);
    var c := FetchCell(s.cells[o], t);
    var s' := s.(cells := s.cells[o := c]);
    assert forall x, p :: LockedBy(s, p, x) ==> LockedBy(s', p, x);
  }

  lemma WriteKeeps(s: Db, e: Event)
    requires Inv(s) && Enabled(s, e) && (e.UpdateFetched? || e.UpdateHeld? || e.Delete? || e.Insert?)
    ensures Inv(Apply(s, e))
  {
    Clauses(s);
    match e
    case Insert(t, o, content) =>
      InsertKeeps(s.txs, t, content);
      PutKeeps(s, t, o, Cell(Some(FreshRecord(t, content)), map[t := Some(content)], map[t := Put(content)], {}, {}, None), None);
    case UpdateFetched(t, o, ch) =>
      FetchKeeps(s.txs, s.cells[o], t);
      var c := FetchCell(s.cells[o], t);
      UpdateKeeps(s.txs, c, NodeById(c.rec.value, t), t, ch);
      PutKeeps(s, t, o, UpdateCell(c, NodeById(c.rec.value, t), t, ch), c.rec);
    case UpdateHeld(t, o, ch) =>
      var c := s.cells[o];
      UpdateKeeps(s.txs, c, Main, t, ch);
      PutKeeps(s, t, o, UpdateCell(c, Main, t, ch), c.rec);
    case Delete(t, o, orphaned) =>
      if orphaned {
        ReadKeeps(s, t, o);
      } else {
        FetchKeeps(s.txs, s.cells[o], t);
        var c := FetchCell(s.cells[o], t);
        DeleteKeeps(s.txs, c, NodeById(c.rec.value, t), t);
        PutKeeps(s, t, o, DeleteCell(c, NodeById(c.rec.value, t), t), c.rec);
      }
  }

  lemma WithoutIncreasing(ts: seq<Xid>, t: Xid)
    requires Increasing(ts)
    ensures Increasing(Without(ts, t))
    ensures Without(ts, t) != [] ==> forall x :: x in Without(ts, t) ==> Without(ts, t)[0] <= x
  {
    if ts != [] {
      WithoutIncreasing(ts[1..], t);
      var rest := Without(ts[1..], t);
      assert forall x :: x in ts[1..] ==> ts[0] < x;
      assert forall j :: 0 <= j < |rest| ==> rest[j] in rest;
    }
  }

  lemma LeaveKeeps(s: Db, t: Xid, phase: Phase)
    requires Inv(s) && IsActive(s.txs, t) && !phase.Active?
    ensures Inv(Leave(s, t, phase))
  {
    Clauses(s);
    var s' := Leave(s, t, phase);
    forall o | o in s'.cells ensures CellInv(s'.txs, s'.cells[o]) {
      if phase.Committing? { StartCommitKeeps(s.txs, s.cells[o], t); } else { StartAbortKeeps(s.txs, s.cells[o], t); }
    }
    WithoutIncreasing(s.active, t);
    if s'.active != [] { assert s'.active[0] in s'.active; }
    assert forall x, p :: LockedBy(s, p, x) ==> LockedBy(s', p, x);
  }

  lemma BeginInv(s: Db, t: Xid)
    requires Inv(s) && s.last < t < INF
    ensures Inv(Apply(s, Begin(t)))
  {
    Clauses(s);
    var s' := Apply(s, Begin(t));
    forall o | o in s'.cells ensures CellInv(s'.txs, s'.cells[o]) {
      BeginKeeps(s.txs, s.cells[o], t);
    }
    forall i, j | 0 <= i < j < |s'.active| ensures s'.active[i] < s'.active[j] {
      assert s'.active[i] in s.active;
    }
    assert forall x, p :: LockedBy(s, p, x) ==> LockedBy(s', p, x);
  }

  /** The object that t processes next is locked by t. */
  lemma HeadLocked(s: Db, t: Xid)
    requires Inv(s) && t in s.txs && s.txs[t].todo != []
    ensures LockedBy(s, s.txs[t].todo[0], t)
  {
    Clauses(s);
    assert s.txs[t].todo[0] in s.txs[t].todo;
  }

  /** t finishes with its next object: the lock is gone or the record is. */
  lemma ReleaseKeeps(s: Db, s': Db, t: Xid, o: Oid)
    requires Inv(s) && t in s.txs && s.txs[t].todo != [] && o == s.txs[t].todo[0]
    requires s'.txs == s.txs[t := s.txs[t].(todo := s.txs[t].todo[1..])]
    requires s' == s.(txs := s'.txs, cells := s'.cells, garbage := s'.garbage)
    requires o in s'.cells && s'.cells == s.cells[o := s'.cells[o]] && CellInv(s.txs, s'.cells[o])
    requires s'.cells[o].rec.Some? ==> s'.cells[o].rec.value.lock == 0
    requires s'.garbage == s.garbage || (s'.garbage == s.garbage + [o] && LockedBy(s', o, 0) && s'.cells[o].rec.value.cts != INF)
    requires IsDeleted(s', o) ==> o in s'.garbage
    ensures Inv(s')
  {
    Clauses(s);
    HeadLocked(s, t);
    CellsKeepPhases(s, s'.txs);
    SamePhasesKeep(s.txs, s'.txs, s'.cells[o]);
    ReleaseTodo(s, s', t, o);
    ReleaseGarbage(s, s', t, o);
    assert IdsOk(s');
  }

  lemma ReleaseTodo(s: Db, s': Db, t: Xid, o: Oid)
    requires TodoOk(s) && t in s.txs && s.txs[t].todo != [] && o == s.txs[t].todo[0] && 0 !in s.txs
    requires s'.txs == s.txs[t := s.txs[t].(todo := s.txs[t].todo[1..])]
    requires LockedBy(s, o, t) && o in s'.cells && s'.cells == s.cells[o := s'.cells[o]]
    requires s'.cells[o].rec.Some? ==> s'.cells[o].rec.value.lock == 0
    ensures TodoOk(s')
  {
    var todo := s.txs[t].todo;
    assert NoDuplicates(todo);
    forall x, p | x in s'.txs && p in s'.txs[x].todo ensures LockedBy(s', p, x) {
      assert p in s.txs[x].todo;
      assert LockedBy(s, p, x);
    }
    forall p | Present(s', p) && s'.cells[p].rec.value.lock != 0
      ensures var x := s'.cells[p].rec.value.lock; x in s'.txs && p in s'.txs[x].todo
    {
      assert Present(s, p);
    }
  }

  lemma ReleaseGarbage(s: Db, s': Db, t: Xid, o: Oid)
    requires GarbageOk(s) && t != 0 && LockedBy(s, o, t) && o in s'.cells && s'.cells == s.cells[o := s'.cells[o]]
    requires s'.garbage == s.garbage || (s'.garbage == s.garbage + [o] && LockedBy(s', o, 0) && s'.cells[o].rec.value.cts != INF)
    requires IsDeleted(s', o) ==> o in s'.garbage
    ensures GarbageOk(s')
  {
    assert o !in s.garbage;
    forall p | IsDeleted(s', p) && p != o ensures p in s'.garbage {
      assert IsDeleted(s, p);
    }
    forall p | p in s'.garbage ensures LockedBy(s', p, 0) && s'.cells[p].rec.value.cts != INF {
      if p in s.garbage { assert LockedBy(s, p, 0); }
    }
  }

  /** `commit_dirty_node` never throws: the object is there and has its new copy. */
  lemma CommitNeverThrows(s: Db, t: Xid)
    requires Inv(s) && Enabled(s, CommitObject(t))
    ensures var o := s.txs[t].todo[0];
            LockedBy(s, o, t) && CommitRecord(s.cells[o].rec.value, t, s.oldest).Some?
  {
    HeadLocked(s, t);
    Clauses(s);
    CommitKeeps(s.txs, s.cells[s.txs[t].todo[0]], t, s.oldest);
  }

  lemma CommitObjectKeeps(s: Db, t: Xid)
    requires Inv(s) && Enabled(s, CommitObject(t))
    ensures Inv(Apply(s, CommitObject(t)))
  {
    Clauses(s);
    HeadLocked(s, t);
    var o := s.txs[t].todo[0];
    CommitKeeps(s.txs, s.cells[o], t, s.oldest);
    ReleaseKeeps(s, Apply(s, CommitObject(t)), t, o);
  }

  lemma AbortObjectKeeps(s: Db, t: Xid)
    requires Inv(s) && Enabled(s, AbortObject(t))
    ensures Inv(Apply(s, AbortObject(t)))
  {
    Clauses(s);
    HeadLocked(s, t);
    var o := s.txs[t].todo[0];
    AbortKeeps(s.txs, s.cells[o], t);
    ReleaseKeeps(s, Apply(s, AbortObject(t)), t, o);
  }

  /** One step of the vacuum loop. */
  lemma VacuumItemKeeps(s: Db, k: nat)
    requires Inv(s) && k < |s.garbage|
    ensures var o := s.garbage[k];
            && LockedBy(s, o, 0) && s.cells[o].rec.value.cts != INF
            && var c := VacuumCell(s.cells[o], s.oldest);
            && Inv(s.(cells := s.cells[o := c], garbage := if c.rec.None? then s.garbage[..k] + s.garbage[k + 1..] else s.garbage))
  {
    Clauses(s);
    var o := s.garbage[k];
    assert o in s.garbage;
    VacuumKeeps(s.txs, s.cells[o], s.oldest);
    var c := VacuumCell(s.cells[o], s.oldest);
    var g := if c.rec.None? then s.garbage[..k] + s.garbage[k + 1..] else s.garbage;
    var s' := s.(cells := s.cells[o := c], garbage := g);
    VacuumTodo(s, o, c, g);
    VacuumGarbage(s, k, c);
    assert IdsOk(s');
  }

  lemma VacuumTodo(s: Db, o: Oid, c: Cell, g: seq<Oid>)
    requires TodoOk(s) && LockedBy(s, o, 0) && 0 !in s.txs && (c.rec.Some? ==> c.rec.value.lock == 0)
    ensures TodoOk(s.(cells := s.cells[o := c], garbage := g))
  {
    var s' := s.(cells := s.cells[o := c], garbage := g);
    forall x, p | x in s'.txs && p in s'.txs[x].todo ensures LockedBy(s', p, x) {
      assert LockedBy(s, p, x);
    }
    forall p | Present(s', p) && s'.cells[p].rec.value.lock != 0
      ensures var x := s'.cells[p].rec.value.lock; x in s'.txs && p in s'.txs[x].todo
    {
      assert Present(s, p);
    }
  }

  lemma VacuumGarbage(s: Db, k: nat, c: Cell)
    requires GarbageOk(s) && k < |s.garbage|
    requires c.rec.Some? ==> c.rec.value.lock == 0 && c.rec.value.cts != INF
    ensures GarbageOk(s.(cells := s.cells[s.garbage[k] := c],
                         garbage := if c.rec.None? then s.garbage[..k] + s.garbage[k + 1..] else s.garbage))
  {
    var g := if c.rec.None? then s.garbage[..k] + s.garbage[k + 1..] else s.garbage;
    var s' := s.(cells := s.cells[s.garbage[k] := c], garbage := g);
    forall p | p in g ensures LockedBy(s', p, 0) && s'.cells[p].rec.value.cts != INF {
      var i :| 0 <= i < |g| && g[i] == p;
      assert p in s.garbage;
      assert LockedBy(s, p, 0);
    }
    forall p | IsDeleted(s', p) ensures p in g {
      if p != s.garbage[k] { assert IsDeleted(s, p); }
      assert p in s.garbage;
      var i :| 0 <= i < |s.garbage| && s.garbage[i] == p;
      assert c.rec.None? ==> g[if i < k then i else i - 1] == p;
    }
  }

  lemma VacuumFromKeeps(s: Db, k: nat)
    requires Inv(s) && k <= |s.garbage|
    ensures Inv(VacuumFrom(s, k))
    decreases |s.garbage| - k
  {
    if k < |s.garbage| {
      VacuumItemKeeps(s, k);
      var o := s.garbage[k];
      var c := VacuumCell(s.cells[o], s.oldest);
      if c.rec.None? {
        VacuumFromKeeps(s.(cells := s.cells[o := c], garbage := s.garbage[..k] + s.garbage[k + 1..]), k);
      } else {
        VacuumFromKeeps(s.(cells := s.cells[o := c]), k + 1);
      }
    }
  }

  lemma StepKeepsInv(s: Db, e: Event)
    requires Inv(s) && Enabled(s, e)
    ensures Inv(Apply(s, e))
  {
    match e
    case Begin(t) => BeginInv(s, t);
    case ReadNode(t, o) => ReadKeeps(s, t, o);
    case Insert(_, _, _) => WriteKeeps(s, e);
    case UpdateFetched(_, _, _) => WriteKeeps(s, e);
    case UpdateHeld(_, _, _) => WriteKeeps(s, e);
    case Delete(_, _, _) => WriteKeeps(s, e);
    case StartCommit(t) => LeaveKeeps(s, t, Committing);
    case CommitObject(t) => CommitObjectKeeps(s, t);
    case StartAbort(t) => LeaveKeeps(s, t, Aborting);
    case AbortObject(t) => AbortObjectKeeps(s, t);
    case Vacuum => VacuumFromKeeps(s, 0);
  }

  lemma {:induction false} RunKeepsInv(s: Db, es: seq<Event>)
    requires Inv(s) && CanRun(s, es)
    ensures Inv(Run(s, es))
    decreases |es|
  {
    if es != [] {
      StepKeepsInv(s, es[0]);
      RunKeepsInv(Apply(s, es[0]), es[1..]);
    }
  }
}
