/** The B+-tree refines a map over every sequence of insertions and deletions. */
module PbMap {
  import opened Wrappers
  import opened PbTree
  import opened PbInsert
  import opened PbErase
  import opened BPlusTree

  datatype Op = InsertOp(k: int, v: int) | EraseOp(k: int)

  /** Every erasure is of a key that is stored at that moment. What an erasure of an
      absent key does, and when it does no harm, is in `PbRawLeaf`. */
  predicate Runnable(ops: seq<Op>) {
    ops == [] ||
    (Runnable(ops[..|ops| - 1]) && (ops[|ops| - 1].EraseOp? ==> ops[|ops| - 1].k in Model(ops[..|ops| - 1])))
  }

  /** The tree and its depth after a sequence of operations on the empty tree:
      every run keeps order, separators, fill bounds and uniform depth. */
  function Run(o: Order, ops: seq<Op>): (Tree, nat)
    requires OrderOk(o) && Runnable(ops)
    ensures RootOk(o, Run(o, ops).0, Run(o, ops).1) && Shaped(Run(o, ops).0, Run(o, ops).1)
  {
    if ops == [] then (Leaf([], []), 0)
    else
      var (t, d) := Run(o, ops[..|ops| - 1]);
      match ops[|ops| - 1]
      case InsertOp(k, v) =>
        InsertRootOk(o, t, d, k, v);
        InsertRoot(o, t, d, k, v)
      case EraseOp(k) =>
        EraseRootOk(o, t, d, k);
        EraseRoot(o, t, d, k)
  }

  /** The map after the same operations. */
  function Model(ops: seq<Op>): map<int, int> {
    if ops == [] then map[]
    else
      var m := Model(ops[..|ops| - 1]);
      match ops[|ops| - 1]
      case InsertOp(k, v) => m[k := v]
      case EraseOp(k) => m - {k}
  }

  function Get(m: map<int, int>, k: int): Option<int> {
    if k in m then Some(m[k]) else None
  }

  /** After every run, lookup agrees with the map for every key. */
  lemma {:induction false} RunRefinesMap(o: Order, ops: seq<Op>, x: int)
    requires OrderOk(o) && Runnable(ops)
    ensures Lookup(Run(o, ops).0, Run(o, ops).1, x) == Get(Model(ops), x)
  {
    var (t', d') := Run(o, ops);
    RootLookup(o, t', d', x);
    if ops == [] {
      assert Entries(t', d') == [];
    } else {
      var front := ops[..|ops| - 1];
      RunRefinesMap(o, front, x);
      var (t, d) := Run(o, front);
      RootLookup(o, t, d, x);
      match ops[|ops| - 1]
      case InsertOp(k, v) =>
        InsertRootOk(o, t, d, k, v);
        FindPut(Entries(t, d), k, v, x);
      case EraseOp(k) =>
        EraseRootOk(o, t, d, k);
        RootSorted(o, t, d);
        FindDrop(Entries(t, d), k, x);
    }
  }

  /** The same for the linked nodes: after every run the index stores exactly the map. */
  method RunIndex(o: Order, ops: seq<Op>) returns (ix: Index)
    requires OrderOk(o) && Runnable(ops)
    ensures fresh(ix) && ix.Valid() && forall x :: Find(ix.Content(), x) == Get(Model(ops), x)
  {
    ix := new Index(o);
    var i := 0;
    assert ops[..0] == [];
    while i < |ops|
      invariant i <= |ops| && fresh(ix) && ix.Valid() && Runnable(ops[..i])
      invariant forall x :: Find(ix.Content(), x) == Get(Model(ops[..i]), x)
    {
      RunnablePrefix(ops, i + 1);
      assert ops[..i + 1][..i] == ops[..i];
      ghost var before := ix.Content();
      match ops[i] {
        case InsertOp(k, v) =>
          ix.InsertPair(k, v);
          forall x ensures Find(ix.Content(), x) == Get(Model(ops[..i + 1]), x) {
            FindPut(before, k, v, x);
          }
        case EraseOp(k) =>
          ix.EraseKey(k);
          forall x ensures Find(ix.Content(), x) == Get(Model(ops[..i + 1]), x) {
            FindDrop(before, k, x);
          }
      }
      i := i + 1;
    }
    assert ops[..i] == ops;
  }

  lemma {:induction false} RunnablePrefix(ops: seq<Op>, n: nat)
    requires Runnable(ops) && n <= |ops|
    ensures Runnable(ops[..n])
    decreases |ops|
  {
    if n < |ops| {
      RunnablePrefix(ops[..|ops| - 1], n);
      assert ops[..|ops| - 1][..n] == ops[..n];
    } else {
      assert ops[..n] == ops;
    }
  }

  /** A key has the value that was inserted last, unless it was erased since. */
  lemma {:induction false} ModelMeans(ops: seq<Op>, k: int, j: nat)
    requires j < |ops| && ops[j].k == k && forall i :: j < i < |ops| ==> ops[i].k != k
    ensures Get(Model(ops), k) == if ops[j].InsertOp? then Some(ops[j].v) else None
  {
    var n := |ops| - 1;
    if j < n {
      ModelMeans(ops[..n], k, j);
    }
  }

  lemma {:induction false} NeverInserted(ops: seq<Op>, k: int)
    requires forall i :: 0 <= i < |ops| ==> ops[i].k != k
    ensures Get(Model(ops), k) == None
  {
    if ops != [] {
      NeverInserted(ops[..|ops| - 1], k);
    }
  }
}
