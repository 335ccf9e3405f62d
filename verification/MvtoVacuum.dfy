/** Garbage goes: how the oldest active id advances, and which records vacuum removes. */
module MvtoVacuum {
  import opened Wrappers
  import opened Mvto
  import opened MvtoInvariant
  import opened MvtoSteps
  import opened MvtoRuns

  /** t has left the active set: the oldest id is now the smallest one that is still
      active, and t itself if none is. */
  ghost predicate HasLeft(before: seq<Xid>, t: Xid, active: seq<Xid>, oldest: nat) {
    && (forall a :: a in active <==> a in before && a != t)
    && if active == [] then oldest == t else oldest in active && forall a :: a in active ==> oldest <= a
  }

  /** Commit and abort advance the oldest id. */
  lemma OldestAdvances(s: Db, t: Xid, commit: bool)
    requires Inv(s) && IsActive(s.txs, t)
    ensures var s' := Apply(s, if commit then StartCommit(t) else StartAbort(t));
            HasLeft(s.active, t, s'.active, s'.oldest) && s.oldest <= s'.oldest
  {
    Clauses(s);
    WithoutIncreasing(s.active, t);
    var active := Without(s.active, t);
    assert active != [] ==> active[0] in active;
  }

  /** Some version of the record ends above the oldest id: somebody may still need it. */
  predicate Needed(r: Record, oldest: nat) {
    exists v :: v in r.dirty && v.cts > oldest
  }

  lemma CellNeeded(c: Cell, oldest: nat)
    requires c.rec.Some?
    ensures VacuumCell(c, oldest).rec.Some? <==> Needed(c.rec.value, oldest)
    ensures VacuumCell(c, oldest).rec.Some? ==> Needed(VacuumCell(c, oldest).rec.value, oldest)
  {
    var vs := Gc(c.rec.value.dirty, oldest);
    if vs != [] {
      assert vs[0] in vs;
    }
  }

  /** Only the version list differs. */
  predicate SameBut(r: Record, r': Record) {
    r' == r.(dirty := r'.dirty)
  }

  /** A pass over the garbage list from position k on removes a deleted record behind it if
      and only if no version of it is needed, and changes no other. */
  lemma {:induction false} VacuumExact(s: Db, k: nat, o: Oid)
    requires Inv(s) && k <= |s.garbage| && Present(s, o)
    ensures var s' := VacuumFrom(s, k);
            && s'.active == s.active && s'.oldest == s.oldest
            && (o in s.garbage[k..] ==> (Present(s', o) <==> Needed(s.cells[o].rec.value, s.oldest)))
            && (o in s.garbage[k..] && Present(s', o) ==>
                  Needed(s'.cells[o].rec.value, s.oldest) && SameBut(s.cells[o].rec.value, s'.cells[o].rec.value))
            && (o !in s.garbage[k..] ==> o in s'.cells && s'.cells[o] == s.cells[o])
    decreases |s.garbage| - k
  {
    if k < |s.garbage| {
      VacuumItemKeeps(s, k);
      Clauses(s);
      var p := s.garbage[k];
      var c := VacuumCell(s.cells[p], s.oldest);
      var rest := s.garbage[k + 1..];
      assert s.garbage[k..] == [p] + rest;
      assert p !in rest;
      CellNeeded(s.cells[p], s.oldest);
      if c.rec.None? {
        var s1 := s.(cells := s.cells[p := c], garbage := s.garbage[..k] + rest);
        assert s1.garbage[k..] == rest;
        if o == p {
          VacuumGone(s1, k, p);
        } else {
          VacuumExact(s1, k, o);
        }
      } else {
        VacuumExact(s.(cells := s.cells[p := c]), k + 1, o);
      }
    }
  }

  lemma {:induction false} VacuumIds(s: Db, k: nat)
    requires k <= |s.garbage|
    ensures var s' := VacuumFrom(s, k); s'.active == s.active && s'.oldest == s.oldest && s'.txs == s.txs && s'.cells.Keys == s.cells.Keys
    decreases |s.garbage| - k
  {
    if k < |s.garbage| {
      var p := s.garbage[k];
      if !Present(s, p) {
        VacuumIds(s, k + 1);
      } else {
        var c := VacuumCell(s.cells[p], s.oldest);
        if c.rec.None? {
          VacuumIds(s.(cells := s.cells[p := c], garbage := s.garbage[..k] + s.garbage[k + 1..]), k);
        } else {
          VacuumIds(s.(cells := s.cells[p := c]), k + 1);
        }
      }
    }
  }

  /** A removed record stays removed. */
  lemma {:induction false} VacuumGone(s: Db, k: nat, o: Oid)
    requires Inv(s) && k <= |s.garbage| && o in s.cells && !Present(s, o)
    ensures var s' := VacuumFrom(s, k);
            !Present(s', o) && s'.active == s.active && s'.oldest == s.oldest
    decreases |s.garbage| - k
  {
    if k < |s.garbage| {
      VacuumItemKeeps(s, k);
      var p := s.garbage[k];
      var c := VacuumCell(s.cells[p], s.oldest);
      if c.rec.None? {
        VacuumGone(s.(cells := s.cells[p := c], garbage := s.garbage[..k] + s.garbage[k + 1..]), k, o);
      } else {
        VacuumGone(s.(cells := s.cells[p := c]), k + 1, o);
      }
    }
  }

  /** In every reachable state: vacuum removes exactly the deleted records of which no
      version ends above the oldest id. */
  lemma VacuumRemoves(s: Db, o: Oid)
    requires Inv(s) && Present(s, o)
    ensures var s' := Apply(s, Vacuum);
            var r := s.cells[o].rec.value;
            && s'.active == s.active && s'.oldest == s.oldest
            && (Present(s', o) <==> r.cts == INF || Needed(r, s.oldest))
            && (Present(s', o) && r.cts != INF ==> Needed(s'.cells[o].rec.value, s.oldest) && SameBut(r, s'.cells[o].rec.value))
            && (r.cts == INF ==> s'.cells[o] == s.cells[o])
  {
    Clauses(s);
    VacuumExact(s, 0, o);
    assert s.garbage[0..] == s.garbage;
    assert o in s.garbage <==> IsDeleted(s, o);
  }

  /** After a pass every deleted record that is left is needed. */
  lemma NeededAfter(s: Db, o: Oid)
    requires Inv(s) && Present(VacuumFrom(s, 0), o) && VacuumFrom(s, 0).cells[o].rec.value.cts != INF
    ensures VacuumFrom(s, 0).oldest == s.oldest && Needed(VacuumFrom(s, 0).cells[o].rec.value, s.oldest)
  {
    VacuumIds(s, 0);
    if Present(s, o) {
      VacuumRemoves(s, o);
    } else {
      VacuumGone(s, 0, o);
    }
  }

  /** A commit drops every version that nobody needs. */
  lemma CommitDrops(s: Db, t: Xid)
    requires Inv(s) && Enabled(s, CommitObject(t))
    ensures var o := s.txs[t].todo[0];
            var s' := Apply(s, CommitObject(t));
            && Present(s', o)
            && forall v :: v in s'.cells[o].rec.value.dirty ==> v.cts > s.oldest
  {
    CommitNeverThrows(s, t);
    Clauses(s);
    CellOf(s, s.txs[t].todo[0]);
    CellClauses(s.txs, s.cells[s.txs[t].todo[0]]);
  }

  // ------------------------------------------------------------------- a concrete run

  lemma RunSnoc(s: Db, es: seq<Event>, e: Event)
    requires CanRun(s, es) && Enabled(Run(s, es), e)
    ensures CanRun(s, es + [e]) && Run(s, es + [e]) == Apply(Run(s, es), e)
    decreases |es|
  {
    if es == [] {
      assert [] + [e] == [e] && [e][1..] == [] && CanRun(Apply(s, e), []);
    } else {
      RunSnoc(Apply(s, es[0]), es[1..], e);
      assert (es + [e])[1..] == es[1..] + [e];
    }
  }

  const EMPTY_DB := Db(map[], map[], [], 0, [], 0)

  /** The events es lead from the empty database to s. */
  ghost predicate Leads(es: seq<Event>, s: Db) {
    CanRun(EMPTY_DB, es) && Run(EMPTY_DB, es) == s
  }

  lemma NextStep(es: seq<Event>, s: Db, e: Event, es': seq<Event>) returns (s': Db)
    requires Leads(es, s) && Enabled(s, e) && es' == es + [e]
    ensures s' == Apply(s, e) && Leads(es', s')
  {
    RunSnoc(EMPTY_DB, es, e);
    s' := Apply(s, e);
  }

  /** Object 1 as 1 has inserted and committed it. */
  function Committed1(c: Content): Cell {
    Cell(Some(Record(0, 1, INF, 0, c, [])), map[1 := Some(c)], map[1 := Put(c)], {}, {}, None)
  }

  /** The object while 1 has only inserted it. */
  function Pending1(c: Content): Cell {
    Cell(Some(FreshRecord(1, c)), map[1 := Some(c)], map[1 := Put(c)], {}, {}, None)
  }

  lemma InsertPending(c: Content) returns (s: Db)
    ensures Leads([Begin(1), Insert(1, 1, c)], s) && s == Db(map[1 := Pending1(c)], map[1 := Tx(Active, [1])], [1], 0, [], 1)
  {
    s := NextStep([], EMPTY_DB, Begin(1), [Begin(1)]);
    assert s == Db(map[], map[1 := Tx(Active, [])], [1], 0, [], 1);
    s := NextStep([Begin(1)], s, Insert(1, 1, c), [Begin(1), Insert(1, 1, c)]);
  }

  lemma InsertedAlone(c: Content) returns (s: Db)
    ensures Leads([Begin(1), Insert(1, 1, c), StartCommit(1), CommitObject(1), Vacuum], s)
    ensures s == Db(map[1 := Committed1(c)], map[1 := Tx(Committing, [])], [], 1, [], 1)
  {
    var es := [Begin(1), Insert(1, 1, c)];
    s := InsertPending(c);
    s := NextStep(es, s, StartCommit(1), es + [StartCommit(1)]);
    assert s == Db(map[1 := Pending1(c)], map[1 := Tx(Committing, [1])], [], 1, [], 1);
    s := NextStep(es + [StartCommit(1)], s, CommitObject(1), es + [StartCommit(1), CommitObject(1)]);
    assert FreshRecord(1, c).dirty[1..] == [] && Gc([], 1) == [];
    assert s == Db(map[1 := Committed1(c)], map[1 := Tx(Committing, [])], [], 1, [], 1);
    s := NextStep(es + [StartCommit(1), CommitObject(1)], s, Vacuum, es + [StartCommit(1), CommitObject(1), Vacuum]);
    assert es + [StartCommit(1), CommitObject(1), Vacuum] == [Begin(1), Insert(1, 1, c), StartCommit(1), CommitObject(1), Vacuum];
  }

  /** 2 has begun and deleted the object, but not committed. */
  lemma DeletePending(c: Content, es: seq<Event>, s0: Db) returns (s: Db)
    requires Leads(es, s0) && s0 == Db(map[1 := Committed1(c)], map[1 := Tx(Committing, [])], [], 1, [], 1)
    ensures Leads(es + [Begin(2), Delete(2, 1, false)], s)
    ensures 2 in s.txs && s.txs[2] == Tx(Active, [1]) && s.active == [2] && s.garbage == [] && 1 in s.cells
    ensures s.cells[1].rec == Some(Record(2, 1, INF, 2, c, [Version(2, 2, 2, 2, c, true), Version(0, 1, 2, 2, c, true)]))
  {
    s := NextStep(es, s0, Begin(2), es + [Begin(2)]);
    assert s.txs == map[1 := Tx(Committing, []), 2 := Tx(Active, [])] && s.cells == s0.cells;
    var newv, oldv := Version(2, 2, 2, 2, c, true), Version(0, 1, 2, 2, c, true);
    assert [newv, oldv] + [] == [newv, oldv] && [] + [1] == [1] && [] + [2] == [2];
    s := NextStep(es + [Begin(2)], s, Delete(2, 1, false), es + [Begin(2), Delete(2, 1, false)]);
  }

  /** 2 has committed; its record is garbage. */
  lemma DeleteCommitted(c: Content, es: seq<Event>, s2: Db) returns (s: Db)
    requires Leads(es, s2) && 2 in s2.txs && s2.txs[2] == Tx(Active, [1]) && s2.active == [2] && s2.garbage == [] && 1 in s2.cells
    requires s2.cells[1].rec == Some(Record(2, 1, INF, 2, c, [Version(2, 2, 2, 2, c, true), Version(0, 1, 2, 2, c, true)]))
    ensures Leads(es + [StartCommit(2), CommitObject(2)], s)
    ensures 1 in s.cells && s.cells[1].rec == Some(Record(0, 1, 2, 2, Content(c.labelCode, map[]), []))
    ensures s.active == [] && s.garbage == [1] && s.oldest == 2
  {
    s := NextStep(es, s2, StartCommit(2), es + [StartCommit(2)]);
    assert [2][1..] == [] && Without([], 2) == [] && s.oldest == 2 && s.txs[2] == Tx(Committing, [1]);
    var newv, oldv := Version(2, 2, 2, 2, c, true), Version(0, 1, 2, 2, c, true);
    assert [newv, oldv][1..] == [oldv] && [oldv][1..] == [] && Gc([oldv], 2) == [];
    assert [oldv.(lock := 0)] + [oldv][1..] == [oldv];
    s := NextStep(es + [StartCommit(2)], s, CommitObject(2), es + [StartCommit(2), CommitObject(2)]);
  }

  /** 1 begins, inserts object 1 and commits; 2 begins, deletes it and commits; nobody else is
      active. Then the record is gone and the garbage list is empty. */
  lemma DeletedIsGone(c: Content) returns (s: Db)
    ensures Leads([Begin(1), Insert(1, 1, c), StartCommit(1), CommitObject(1), Vacuum] +
                  [Begin(2), Delete(2, 1, false)] + [StartCommit(2), CommitObject(2)] + [Vacuum], s)
    ensures s.active == [] && s.oldest == 2 && 1 in s.cells && !Present(s, 1) && s.garbage == []
  {
    var es := [Begin(1), Insert(1, 1, c), StartCommit(1), CommitObject(1), Vacuum];
    s := InsertedAlone(c);
    s := DeletePending(c, es, s);
    es := es + [Begin(2), Delete(2, 1, false)];
    s := DeleteCommitted(c, es, s);
    es := es + [StartCommit(2), CommitObject(2)];
    assert VacuumCell(s.cells[1], 2).rec == None && [1][..0] + [1][1..] == [];
    var gone := s.(cells := s.cells[1 := VacuumCell(s.cells[1], 2)], garbage := []);
    assert VacuumFrom(s, 0) == VacuumFrom(gone, 0) == gone;
    s := NextStep(es, s, Vacuum, es + [Vacuum]);
  }
}
