/** What a delete does after the same transaction has inserted or updated the object. The
    step system leaves it out: of an own insert it breaks isolation, and of an own update
    it leaves a version behind that never goes away. */
module MvtoOwnDelete {
  import opened Wrappers
  import opened Mvto
  import opened MvtoInvariant
  import opened MvtoSteps
  import opened MvtoVisibility

  // --------------------------------------------------------------- a record with its owner

  /** r is locked by t, which has inserted or updated it and not deleted it; snap is the
      record before the first write. */
  ghost predicate Owned(r: Record, snap: Option<Record>, t: Xid, inserted: bool) {
    && 0 < t < INF && r.lock == t && r.cts == INF && |r.dirty| > 0 && r.dirty[0].lock == t && r.dirty[0].cts == INF && r.dirty[0].rts <= t
    && if inserted then r.bts == 0 && r.dirty[0].bts == 0 && r.dirty[1..] == []
       else
         && r.bts < t && r.dirty[0].bts == t && |r.dirty| >= 2 && snap.Some?
         && snap == Some(Record(0, r.bts, INF, snap.value.rts, r.content, r.dirty[2..]))
         && r.dirty[1] == Version(0, r.bts, t, r.dirty[1].rts, r.content, true) && Older(r.dirty[1..], t)
  }

  /** Versions that end at t or before, or are markers of deletions by others. */
  ghost predicate Older(vs: seq<Version>, t: Xid) {
    forall v :: v in vs ==> v.lock != t && if v.lock == 0 then v.cts <= t else v.bts == v.cts
  }

  /** What a had seen before t wrote the object. */
  ghost function Before(snap: Option<Record>, inserted: bool, a: Xid): Option<Content> {
    if inserted || snap.None? then None else Describe(snap.value, a)
  }

  /** t has written o and not deleted it, in a reachable state. */
  ghost predicate Owns(s: Db, t: Xid, o: Oid) {
    && Inv(s) && IsActive(s.txs, t) && LockedBy(s, o, t)
    && t in s.cells[o].writes && s.cells[o].writes[t].Some?
  }

  /** And o is its own insert. */
  ghost predicate OwnInsert(s: Db, o: Oid)
    requires Present(s, o)
  {
    Fresh(s.txs, s.cells[o].writes, s.cells[o].rec.value)
  }

  lemma OwnsOwned(s: Db, t: Xid, o: Oid)
    requires Owns(s, t, o)
    ensures Owned(s.cells[o].rec.value, s.cells[o].snap, t, OwnInsert(s, o))
  {
    ActiveId(s, t);
    CellOf(s, o);
    CellClauses(s.txs, s.cells[o]);
    var r := s.cells[o].rec.value;
    if !OwnInsert(s, o) {
      forall v | v in r.dirty[1..] ensures v.lock != t && if v.lock == 0 then v.cts <= t else v.bts == v.cts {
        assert OldOk(s.txs, s.cells[o].writes, r.rts, v);
      }
    }
  }

  /** `delete_node` by t. */
  function OwnDelete(r: Record, t: Xid): Option<Record> {
    var r1 := SetRts(r, t);
    var f := NodeById(r1, t);
    if f.Dirty? then DeleteVia(r1, f, t) else None
  }

  /** The marker and the unlocked copy of the deleted version are on top of what was there;
      reads may have raised the read timestamp since. */
  ghost predicate Deleted(r: Record, q: Record, t: Xid) {
    && |r.dirty| > 0 && |q.dirty| >= 2
    && q == Record(t, r.bts, r.cts, q.rts, r.content, [q.dirty[0], q.dirty[1]] + r.dirty)
    && q.dirty[0].lock == t && q.dirty[0].bts == q.dirty[0].cts == t && q.dirty[0].updated
    && q.dirty[1].lock == 0 && q.dirty[1].bts == r.dirty[0].bts && q.dirty[1].cts == t
  }

  /** The delete always succeeds, through the own copy. */
  lemma OwnDeleteShape(r: Record, snap: Option<Record>, t: Xid, inserted: bool, rts: nat)
    requires Owned(r, snap, t, inserted)
    ensures OwnDelete(r, t).Some? && Deleted(r, OwnDelete(r, t).value.(rts := rts), t)
  {
    var r1 := SetRts(r, t);
    var v := r1.dirty[0];
    assert NodeById(r1, t) == Dirty(0);
    assert r1.dirty[0 := v.(lock := t)] == r1.dirty;
  }

  // ----------------------------------------------------------------------- views of lists

  lemma OneUnseen(v: Version, rest: seq<Version>, a: Xid)
    requires v.lock != 0 && v.lock != a
    ensures View([v] + rest, a) == View(rest, a)
  {
    assert ([v] + rest)[1..] == rest;
  }

  lemma OneUnlocked(v: Version, rest: seq<Version>, a: Xid)
    requires v.lock == 0 && a != 0
    ensures View([v] + rest, a) == if ValidFor(v.bts, v.cts, a) then Some(v.content) else View(rest, a)
  {
    assert ([v] + rest)[1..] == rest;
  }

  /** The two new versions, seen by another id. */
  lemma TopUnseen(newv: Version, oldv: Version, rest: seq<Version>, a: Xid)
    requires newv.lock != 0 && newv.lock != a && oldv.lock == 0 && a != 0
    ensures View([newv, oldv] + rest, a) == if ValidFor(oldv.bts, oldv.cts, a) then Some(oldv.content) else View(rest, a)
  {
    assert [newv, oldv] + rest == [newv] + ([oldv] + rest);
    OneUnseen(newv, [oldv] + rest, a);
    OneUnlocked(oldv, rest, a);
  }

  /** Nothing in the list is valid. */
  lemma {:induction false} NoneValid(vs: seq<Version>, a: Xid)
    requires forall v :: v in vs && Readable(v, a) ==> !ValidFor(v.bts, v.cts, a)
    ensures View(vs, a) == None
  {
    if vs != [] {
      NoneValid(vs[1..], a);
    }
  }

  /** What another id sees in the list of the owned record below the own copy. */
  lemma BelowOwnCopy(r: Record, snap: Option<Record>, t: Xid, inserted: bool, a: Xid)
    requires Owned(r, snap, t, inserted) && 0 < a < INF && a != t
    ensures View(r.dirty, a) == View(r.dirty[1..], a)
    ensures a > t ==> View(r.dirty[1..], a) == None
    ensures a < t && !inserted ==> View(r.dirty[1..], a) == Describe(snap.value, a)
    ensures inserted ==> View(r.dirty[1..], a) == None
  {
    assert r.dirty == [r.dirty[0]] + r.dirty[1..];
    OneUnseen(r.dirty[0], r.dirty[1..], a);
    if a > t {
      NoneValid(r.dirty[1..], a);
    } else if !inserted {
      assert r.dirty[1..] == [r.dirty[1]] + r.dirty[2..];
      OneUnlocked(r.dirty[1], r.dirty[2..], a);
      DescribeIsView(snap.value, a);
    }
  }

  // ---------------------------------------------------------------------- the call itself

  lemma DeletedView(r: Record, snap: Option<Record>, t: Xid, inserted: bool, q: Record, a: Xid)
    requires Owned(r, snap, t, inserted) && Deleted(r, q, t) && 0 < a < INF && a != t
    ensures Describe(q, a) == Describe(r, a) <==> !(inserted && a < t)
  {
    TopUnseen(q.dirty[0], q.dirty[1], r.dirty, a);
    DescribeIsView(r, a);
    DescribeIsView(q, a);
    BelowOwnCopy(r, snap, t, inserted, a);
  }

  /** Right after the delete, and whatever reads follow, another id sees what it saw before
      if and only if it is not an older id looking at an own insert: the unlocked copy then
      shows the uncommitted insert. */
  lemma OwnDeleteVisible(s: Db, t: Xid, o: Oid, rts: nat, a: Xid)
    requires Owns(s, t, o) && 0 < a < INF && a != t
    ensures var d := OwnDelete(s.cells[o].rec.value, t);
            && d.Some?
            && (Describe(d.value.(rts := rts), a) == Describe(s.cells[o].rec.value, a) <==> !(OwnInsert(s, o) && a < t))
  {
    OwnsOwned(s, t, o);
    var r := s.cells[o].rec.value;
    OwnDeleteShape(r, s.cells[o].snap, t, OwnInsert(s, o), rts);
    DeletedView(r, s.cells[o].snap, t, OwnInsert(s, o), OwnDelete(r, t).value.(rts := rts), a);
  }

  // ------------------------------------------------------------------------------- abort

  lemma RemoveOne(v: Version, rest: seq<Version>, t: Xid)
    ensures RemoveDirty([v] + rest, t) == (if v.lock == t && v.cts == INF then [] else [v]) + RemoveDirty(rest, t)
  {
    assert ([v] + rest)[1..] == rest;
  }

  lemma RemoveThird(newv: Version, oldv: Version, vs: seq<Version>, t: Xid)
    requires newv.cts != INF && oldv.lock != t && |vs| > 0 && vs[0].lock == t && vs[0].cts == INF
    requires forall v :: v in vs[1..] ==> v.lock != t
    ensures RemoveDirty([newv, oldv] + vs, t) == [newv, oldv] + vs[1..]
  {
    RemoveTwo(newv, oldv, vs, t);
    RemoveFirst(vs, t);
  }

  lemma RemoveTwo(newv: Version, oldv: Version, vs: seq<Version>, t: Xid)
    requires newv.cts != INF && oldv.lock != t
    ensures RemoveDirty([newv, oldv] + vs, t) == [newv, oldv] + RemoveDirty(vs, t)
  {
    assert [newv, oldv] + vs == [newv] + ([oldv] + vs);
    RemoveOne(newv, [oldv] + vs, t);
    RemoveOne(oldv, vs, t);
    assert [newv] + ([oldv] + RemoveDirty(vs, t)) == [newv, oldv] + RemoveDirty(vs, t);
  }

  lemma RemoveFirst(vs: seq<Version>, t: Xid)
    requires |vs| > 0 && vs[0].lock == t && vs[0].cts == INF && forall v :: v in vs[1..] ==> v.lock != t
    ensures RemoveDirty(vs, t) == vs[1..]
  {
    RemoveDirtyOwn(vs[1..], t);
  }

  /** The abort of the delete takes the own copy away and keeps the record. */
  lemma AbortAfterDelete(r: Record, snap: Option<Record>, t: Xid, inserted: bool, q: Record)
    requires Owned(r, snap, t, inserted) && Deleted(r, q, t)
    ensures AbortRecord(q, t) == Some(q.(lock := 0, dirty := [q.dirty[0], q.dirty[1]] + r.dirty[1..]))
  {
    RemoveThird(q.dirty[0], q.dirty[1], r.dirty, t);
    assert DirtyVersionOf(q.dirty, t, 0) == 0;
  }

  lemma AbortedView(r: Record, snap: Option<Record>, t: Xid, inserted: bool, q: Record, a: Xid)
    requires Owned(r, snap, t, inserted) && Deleted(r, q, t) && 0 < a < INF && a != t
    ensures var r' := AbortRecord(q, t);
            && r'.Some? && r'.value.lock == 0
            && (Describe(r'.value, a) == Before(snap, inserted, a) <==> !inserted)
            && (inserted ==> Describe(r'.value, a) == Some(r.content))
  {
    AbortAfterDelete(r, snap, t, inserted, q);
    DescribeIsView(AbortRecord(q, t).value, a);
    if !inserted {
      UpdatedView(r, snap, t, q.dirty[0], q.dirty[1], a);
    }
  }

  lemma UpdatedView(r: Record, snap: Option<Record>, t: Xid, newv: Version, oldv: Version, a: Xid)
    requires Owned(r, snap, t, false) && 0 < a < INF && a != t
    requires newv.lock == t && oldv.lock == 0 && oldv.bts == oldv.cts == t
    ensures Describe(snap.value, a) == if ValidFor(r.bts, INF, a) then Some(r.content) else View([newv, oldv] + r.dirty[1..], a)
  {
    TopUnseen(newv, oldv, r.dirty[1..], a);
    assert r.dirty[1..] == [r.dirty[1]] + r.dirty[2..];
    OneUnlocked(r.dirty[1], r.dirty[2..], a);
    DescribeIsView(snap.value, a);
  }

  /** If the deleting transaction aborts, every other id sees what it saw before the first
      write if and only if the object was not an own insert: an aborted insert stays, with
      its label, for everybody. */
  lemma OwnDeleteAborted(s: Db, t: Xid, o: Oid, rts: nat, a: Xid)
    requires Owns(s, t, o) && 0 < a < INF && a != t
    ensures var c := s.cells[o];
            var d := OwnDelete(c.rec.value, t);
            && d.Some?
            && var r' := AbortRecord(d.value.(rts := rts), t);
            && r'.Some? && r'.value.lock == 0
            && (Describe(r'.value, a) == Before(c.snap, OwnInsert(s, o), a) <==> !OwnInsert(s, o))
            && (OwnInsert(s, o) ==> Describe(r'.value, a) == Some(c.rec.value.content))
  {
    OwnsOwned(s, t, o);
    var r := s.cells[o].rec.value;
    OwnDeleteShape(r, s.cells[o].snap, t, OwnInsert(s, o), rts);
    AbortedView(r, s.cells[o].snap, t, OwnInsert(s, o), OwnDelete(r, t).value.(rts := rts), a);
  }

  // ------------------------------------------------------------------------------ commit

  /** The record after the commit of the delete: only garbage is collected. */
  lemma CommitAfterDelete(r: Record, snap: Option<Record>, t: Xid, inserted: bool, q: Record, oldest: nat)
    requires Owned(r, snap, t, inserted) && Deleted(r, q, t)
    ensures CommitRecord(q, t, oldest) ==
            Some(Record(0, r.bts, t, q.rts, Content(r.content.labelCode, map[]), Gc([q.dirty[1]] + r.dirty, oldest)))
  {
    var rest := q.dirty[1..];
    assert rest == [q.dirty[1]] + r.dirty && rest[0].(lock := 0) == rest[0];
    assert [rest[0].(lock := 0)] + rest[1..] == rest;
  }

  /** What a transaction should see of an object that t has written and deleted. */
  ghost function Deserved(snap: Option<Record>, inserted: bool, t: Xid, a: Xid): Option<Content> {
    if a > t then None else Before(snap, inserted, a)
  }

  lemma CommittedView(r: Record, snap: Option<Record>, t: Xid, inserted: bool, q: Record, oldest: nat, a: Xid)
    requires Owned(r, snap, t, inserted) && Deleted(r, q, t) && 0 < a < INF && a != t && oldest <= a
    requires forall v :: v in r.dirty ==> v.lock != a
    ensures var r' := CommitRecord(q, t, oldest);
            && r'.Some? && r'.value.lock == 0
            && (Describe(r'.value, a) == Deserved(snap, inserted, t, a) <==> !(inserted && a < t))
  {
    CommitAfterDelete(r, snap, t, inserted, q, oldest);
    var vs := [q.dirty[1]] + r.dirty;
    DescribeIsView(CommitRecord(q, t, oldest).value, a);
    GcKeepsView(vs, oldest, a);
    OneUnlocked(q.dirty[1], r.dirty, a);
    BelowOwnCopy(r, snap, t, inserted, a);
    assert r.dirty[0] in vs && r.dirty[0] in Gc(vs, oldest);
  }

  /** If the deleting transaction commits, every other id sees the deletion above t and the
      old content below, if and only if it is not an older id looking at an own insert,
      which it sees although no committed transaction has ever left it there. */
  lemma OwnDeleteCommitted(s: Db, t: Xid, o: Oid, rts: nat, oldest: nat, a: Xid)
    requires Owns(s, t, o) && 0 < a < INF && a != t && oldest <= a && !(a in s.txs && s.txs[a].phase.Aborting?)
    ensures var c := s.cells[o];
            var d := OwnDelete(c.rec.value, t);
            && d.Some?
            && var r' := CommitRecord(d.value.(rts := rts), t, oldest);
            && r'.Some? && r'.value.lock == 0
            && (Describe(r'.value, a) == Deserved(c.snap, OwnInsert(s, o), t, a) <==> !(OwnInsert(s, o) && a < t))
  {
    OwnsOwned(s, t, o);
    NotLockedByOthers(s, t, o, a);
    var r := s.cells[o].rec.value;
    OwnDeleteShape(r, s.cells[o].snap, t, OwnInsert(s, o), rts);
    CommittedView(r, s.cells[o].snap, t, OwnInsert(s, o), OwnDelete(r, t).value.(rts := rts), oldest, a);
  }

  lemma NotLockedByOthers(s: Db, t: Xid, o: Oid, a: Xid)
    requires Owns(s, t, o) && a != 0 && a != t && !(a in s.txs && s.txs[a].phase.Aborting?)
    ensures forall v :: v in s.cells[o].rec.value.dirty ==> v.lock != a
  {
    ActiveId(s, t);
    CellOf(s, o);
    CellClauses(s.txs, s.cells[o]);
    var r := s.cells[o].rec.value;
    assert r.dirty == [r.dirty[0]] + r.dirty[1..];
    forall v | v in r.dirty[1..] ensures v.lock != a {
      assert OldOk(s.txs, s.cells[o].writes, r.rts, v);
    }
  }

  // ------------------------------------------------------------------ garbage collection

  /** A run of garbage collections. */
  ghost function GcRun(vs: seq<Version>, oldests: seq<nat>): seq<Version> {
    if oldests == [] then vs else Gc(GcRun(vs, oldests[..|oldests| - 1]), oldests[|oldests| - 1])
  }

  lemma {:induction false} GcRunKeeps(vs: seq<Version>, oldests: seq<nat>, v: Version)
    requires v in vs && v.cts == INF && forall k :: 0 <= k < |oldests| ==> oldests[k] < INF
    ensures v in GcRun(vs, oldests)
    decreases |oldests|
  {
    if oldests != [] {
      GcRunKeeps(vs, oldests[..|oldests| - 1], v);
    }
  }

  /** After such a delete and its commit, no run of garbage collections ever empties the
      version list: the own copy stays locked in it, and vacuum never removes the record. */
  lemma OwnDeleteStays(s: Db, t: Xid, o: Oid, rts: nat, oldest: nat, oldests: seq<nat>)
    requires Owns(s, t, o) && oldest < INF && forall k :: 0 <= k < |oldests| ==> oldests[k] < INF
    ensures var d := OwnDelete(s.cells[o].rec.value, t);
            && d.Some?
            && var r' := CommitRecord(d.value.(rts := rts), t, oldest);
            && r'.Some? && r'.value.cts == t
            && exists v :: v in GcRun(r'.value.dirty, oldests) && v.lock == t && v.cts == INF
  {
    OwnsOwned(s, t, o);
    var r := s.cells[o].rec.value;
    OwnDeleteShape(r, s.cells[o].snap, t, OwnInsert(s, o), rts);
    var q := OwnDelete(r, t).value.(rts := rts);
    CommitAfterDelete(r, s.cells[o].snap, t, OwnInsert(s, o), q, oldest);
    var v, vs := r.dirty[0], [q.dirty[1]] + r.dirty;
    assert v in vs && v in Gc(vs, oldest);
    GcRunKeeps(Gc(vs, oldest), oldests, v);
  }

  // --------------------------------------------------------------------- a concrete run

  /** The state after the call, which is not a step of the system when t owns the object. */
  function DeleteCall(s: Db, t: Xid, o: Oid): Db
    requires t in s.txs && Present(s, o)
  {
    var c := FetchCell(s.cells[o], t);
    PutWritten(s, t, o, DeleteCell(c, NodeById(c.rec.value, t), t), c.rec)
  }

  /** It is the same call as the step. */
  lemma DeleteCallIsStep(s: Db, t: Xid, o: Oid)
    requires Enabled(s, Delete(t, o, false))
    ensures Apply(s, Delete(t, o, false)) == DeleteCall(s, t, o)
  {
  }

  /** An empty database on which 7 has begun and inserted object 1. */
  function Inserted(c: Content): Db {
    Db(map[1 := Cell(Some(FreshRecord(7, c)), map[7 := Some(c)], map[7 := Put(c)], {}, {}, None)],
       map[7 := Tx(Active, [1])], [7], 0, [], 7)
  }

  lemma InsertedIsRun(c: Content)
    ensures var s0 := Db(map[], map[], [], 0, [], 0);
            Init(s0) && CanRun(s0, [Begin(7), Insert(7, 1, c)]) && Run(s0, [Begin(7), Insert(7, 1, c)]) == Inserted(c)
  {
    var s0 := Db(map[], map[], [], 0, [], 0);
    var e1, e2 := Begin(7), Insert(7, 1, c);
    var s1 := Apply(s0, e1);
    assert [e1, e2][1..] == [e2] && [e2][1..] == [];
    var s2 := Apply(s1, e2);
    assert [] + [1] == [1] && s1.txs == map[7 := Tx(Active, [])];
    assert s2.txs[7] == Tx(Active, [1]);
    assert s2.cells == Inserted(c).cells && s2.txs == Inserted(c).txs && s2.active == Inserted(c).active;
    assert s2 == Inserted(c);
    assert CanRun(Inserted(c), []) && CanRun(s1, [e2]) && Run(s1, [e2]) == Inserted(c);
  }

  lemma InsertedOwned(c: Content)
    ensures Owned(FreshRecord(7, c), None, 7, true)
  {
  }

  /** Object 1 is then deleted by 7. */
  lemma InsertedDeleted(c: Content) returns (q: Record)
    ensures Deleted(FreshRecord(7, c), q, 7)
    ensures var s := DeleteCall(Inserted(c), 7, 1);
            Present(s, 1) && s.cells[1].rec == Some(q) && s.txs == map[7 := Tx(Active, [1])]
  {
    InsertedOwned(c);
    var r := FreshRecord(7, c);
    OwnDeleteShape(r, None, 7, true, 7);
    q := OwnDelete(r, 7).value;
    assert SetRts(r, 7).rts == 7 && q.rts == 7 && q.(rts := 7) == q;
  }

  /** 7 begins, inserts object 1, deletes it and aborts: 8 did not see the object before,
      and sees it afterwards. */
  lemma AbortedInsertComesBack(c: Content)
    ensures var s0 := Db(map[], map[], [], 0, [], 0);
            && Init(s0) && CanRun(s0, [Begin(7), Insert(7, 1, c)]) && Run(s0, [Begin(7), Insert(7, 1, c)]) == Inserted(c)
    ensures Sees(Inserted(c), 1, 8) == None
    ensures var s := DeleteCall(Inserted(c), 7, 1);
            && CanRun(s, [StartAbort(7), AbortObject(7)])
            && Sees(Run(s, [StartAbort(7), AbortObject(7)]), 1, 8) == Some(Content(c.labelCode, map[]))
  {
    InsertedIsRun(c);
    DescribeIsView(FreshRecord(7, c), 8);
    InsertedOwned(c);
    BelowOwnCopy(FreshRecord(7, c), None, 7, true, 8);
    var q := InsertedDeleted(c);
    AbortedView(FreshRecord(7, c), None, 7, true, q, 8);
    AbortRun(DeleteCall(Inserted(c), 7, 1), q);
  }

  lemma AbortRun(s: Db, q: Record)
    requires 1 in s.cells && s.cells[1].rec == Some(q) && s.txs == map[7 := Tx(Active, [1])]
    ensures CanRun(s, [StartAbort(7), AbortObject(7)])
    ensures var s' := Run(s, [StartAbort(7), AbortObject(7)]);
            1 in s'.cells && s'.cells[1].rec == AbortRecord(q, 7)
  {
    var f1, f2 := StartAbort(7), AbortObject(7);
    assert [f1, f2][1..] == [f2] && [f2][1..] == [];
    var s1 := Apply(s, f1);
    assert Enabled(s1, f2) && s1.cells == s.cells;
    var s2 := Apply(s1, f2);
    assert CanRun(s2, []) && CanRun(s1, [f2]) && Run(s1, [f2]) == s2;
  }
}
