/** Erasure in a leaf of the B+-tree as its arrays see it: slots behind the last key
    keep what was there before, and the comparison at the position found does not
    check that the position holds a key. */
module PbRawLeaf {
  import opened PbTree
  import opened PbErase

  /** The arrays of a leaf, n of whose slots hold keys. */
  datatype RawLeaf = RawLeaf(keys: seq<int>, vals: seq<int>, n: nat)

  predicate RawOk(r: RawLeaf) {
    r.n <= |r.keys| == |r.vals| && Sorted(r.keys[..r.n])
  }

  /** The node as the rest of the tree sees it. */
  function Live(r: RawLeaf): Tree
    requires r.n <= |r.keys| == |r.vals|
  {
    Leaf(r.keys[..r.n], r.vals[..r.n])
  }

  /** Where `lookupPositionInLeafNode` ends. */
  function Position(r: RawLeaf, k: int): (p: nat)
    requires r.n <= |r.keys|
    ensures p <= r.n
  {
    LowerBound(r.keys[..r.n], k)
  }

  /** The arrays after everything from p + 1 to n - 1 has moved down by one slot. */
  function ShiftedDown<T>(s: seq<T>, p: nat, n: nat): seq<T>
    requires p <= n <= |s| && 0 < n
  {
    if p + 1 < n then s[..p] + s[p + 1..n] + s[n - 1..] else s
  }

  /** `Unbounded` reads or writes behind the arrays: a full leaf whose keys are all below
      k is compared behind its end, and in an empty leaf the bound n - 1 of the shift wraps. */
  datatype Outcome = Erased(r: RawLeaf) | NotErased | Unbounded

  /** `eraseFromLeafNodeAtPosition` at the position found. */
  function EraseRaw(r: RawLeaf, k: int): Outcome
    requires RawOk(r)
  {
    var p := Position(r, k);
    if p == |r.keys| then Unbounded
    else if r.keys[p] != k then NotErased
    else if r.n == 0 then Unbounded
    else Erased(RawLeaf(ShiftedDown(r.keys, p, r.n), ShiftedDown(r.vals, p, r.n), r.n - 1))
  }

  /** What a deletion promises: the key is gone and all others are as before. */
  ghost predicate ErasesExactly(r: RawLeaf, k: int, o: Outcome)
    requires RawOk(r)
  {
    match o
    case Erased(r') => k in Live(r).keys && RawOk(r') && Live(r') == EraseLeaf(r.keys[..r.n], r.vals[..r.n], k) && k !in Live(r').keys
    case NotErased => k !in Live(r).keys
    case Unbounded => false
  }

  /** The loop of the erasure, slot by slot. */
  method ShiftDown(a: array<int>, p: nat, n: nat)
    requires p <= n <= a.Length && 0 < n
    modifies a
    ensures a[..] == ShiftedDown(old(a[..]), p, n)
  {
    var i := p;
    while i < n - 1
      invariant p <= i && (p < n ==> i <= n - 1) && (p == n ==> i == n)
      invariant forall j {:trigger a[j]} :: p <= j < i && p < n ==> a[j] == old(a[j + 1])
      invariant forall j {:trigger a[j]} :: (0 <= j < p || i <= j < a.Length) ==> a[j] == old(a[j])
      decreases n - i
    {
      a[i] := a[i + 1];
      i := i + 1;
    }
    ghost var s := old(a[..]);
    if p + 1 < n {
      assert forall j :: 0 <= j < a.Length ==> a[j] == (s[..p] + s[p + 1..n] + s[n - 1..])[j];
    }
    assert a[..] == ShiftedDown(s, p, n);
  }

  /** The stored key was found. */
  lemma ShiftIsRemoval<T>(s: seq<T>, p: nat, n: nat)
    requires p < n <= |s|
    ensures ShiftedDown(s, p, n)[..n - 1] == RemoveAt(s[..n], p)
  {
  }

  /** The search ends behind the last key, and there is no slot there or a stale k. */
  predicate StaleSlot(r: RawLeaf, k: int)
    requires RawOk(r)
  {
    Position(r, k) == r.n && (r.n == |r.keys| || r.keys[r.n] == k)
  }

  /** For every leaf and every key, stored or absent, the erasure does what it promises if
      and only if it does not meet a stale slot; otherwise it leaves the arrays, if the
      leaf is full or empty, or drops the last key. */
  lemma EraseRawExact(r: RawLeaf, k: int)
    requires RawOk(r)
    ensures ErasesExactly(r, k, EraseRaw(r, k)) <==> !StaleSlot(r, k)
    ensures EraseRaw(r, k) == Unbounded <==> StaleSlot(r, k) && (r.n == |r.keys| || r.n == 0)
    ensures StaleSlot(r, k) && 0 < r.n < |r.keys| ==>
              k !in Live(r).keys && EraseRaw(r, k) == Erased(RawLeaf(r.keys, r.vals, r.n - 1))
  {
    var p := Position(r, k);
    var live := r.keys[..r.n];
    BoundIsPlace(live, k);
    if p < r.n {
      assert live[p] == r.keys[p];
      if r.keys[p] == k {
        ShiftIsRemoval(r.keys, p, r.n);
        ShiftIsRemoval(r.vals, p, r.n);
        RemovedIsGone(live, p);
      }
    }
  }

  /** A key is stored if and only if it is at its lower bound. */
  lemma BoundIsPlace(keys: seq<int>, k: int)
    requires Sorted(keys)
    ensures k in keys <==> LowerBound(keys, k) < |keys| && keys[LowerBound(keys, k)] == k
  {
    if k in keys {
      var i :| 0 <= i < |keys| && keys[i] == k;
      assert LowerBound(keys, k) == i;
    }
  }

  lemma RemovedIsGone(keys: seq<int>, p: nat)
    requires Sorted(keys) && p < |keys|
    ensures Sorted(RemoveAt(keys, p)) && keys[p] !in RemoveAt(keys, p)
  {
  }

  /** A stored key is always erased correctly. */
  lemma EraseStored(r: RawLeaf, k: int)
    requires RawOk(r) && k in Live(r).keys
    ensures EraseRaw(r, k).Erased? && ErasesExactly(r, k, EraseRaw(r, k))
  {
    BoundIsPlace(r.keys[..r.n], k);
    EraseRawExact(r, k);
  }

  /** A leaf with the keys 1 and 5 in which 5 is erased twice: the second time the
      stale slot still reads 5, and key 1 is lost. */
  lemma SecondEraseLosesAKey()
    ensures var r := RawLeaf([1, 5, 0, 0], [10, 50, 0, 0], 2);
            && RawOk(r) && EraseRaw(r, 5) == Erased(r.(n := 1)) && Live(r.(n := 1)) == Leaf([1], [10])
            && RawOk(r.(n := 1)) && EraseRaw(r.(n := 1), 5) == Erased(r.(n := 0)) && Live(r.(n := 0)) == Leaf([], [])
  {
    var r := RawLeaf([1, 5, 0, 0], [10, 50, 0, 0], 2);
    assert r.keys[..2] == [1, 5] && r.keys[..1] == [1];
    assert LowerBound([1, 5], 5) == 1 + LowerBound([5], 5) by { assert [1, 5][1..] == [5]; }
    assert LowerBound([1], 5) == 1 by { assert [1][1..] == []; }
    assert Position(r, 5) == 1 && Position(r.(n := 1), 5) == 1;
  }

  /** A leaf with the only key 5 in which 5 is erased twice: the second time the shift
      runs behind the arrays. */
  lemma SecondEraseLeavesTheArrays()
    ensures var r := RawLeaf([5, 0, 0, 0], [50, 0, 0, 0], 1);
            RawOk(r) && EraseRaw(r, 5) == Erased(r.(n := 0)) && RawOk(r.(n := 0)) && EraseRaw(r.(n := 0), 5) == Unbounded
  {
    var r := RawLeaf([5, 0, 0, 0], [50, 0, 0, 0], 1);
    assert r.keys[..1] == [5] && r.keys[..0] == [];
    assert Position(r, 5) == 0 && Position(r.(n := 0), 5) == 0;
  }
}
