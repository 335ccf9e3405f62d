/** Insertion into the tree over unsorted leaves: it keeps the tree well formed and
    stores the pair. */
module FpInsert {
  import opened Wrappers
  import opened PbTree
  import PbInsert
  import FpLeaf
  import opened FpTree

  // ------------------------------------------------------------------- what leaves store

  /** The leaves store the pair, and otherwise what they stored before. */
  ghost predicate Stores(before: seq<Slots>, after: seq<Slots>, k: int, v: int)
    requires FpLeaf.AllSized(before) && FpLeaf.AllSized(after)
  {
    forall x :: FpLeaf.ListGet(after, x) == if x == k then Some(v) else FpLeaf.ListGet(before, x)
  }

  lemma StoresAround(a: seq<Slots>, c: seq<Slots>, c': seq<Slots>, b: seq<Slots>, k: int, v: int)
    requires FpLeaf.AllSized(a) && FpLeaf.AllSized(b) && FpLeaf.AllSized(c) && FpLeaf.AllSized(c')
    requires Stores(c, c', k, v) && FpLeaf.ListGet(a, k) == None
    ensures Stores(a + (c + b), a + (c' + b), k, v)
  {
    forall x ensures FpLeaf.ListGet(a + (c' + b), x) == if x == k then Some(v) else FpLeaf.ListGet(a + (c + b), x) {
      FpLeaf.ListGetConcat(c, b, x);
      FpLeaf.ListGetConcat(c', b, x);
      FpLeaf.ListGetConcat(a, c + b, x);
      FpLeaf.ListGetConcat(a, c' + b, x);
    }
  }

  // ------------------------------------------------------------------ children in bounds

  /** Child q becomes two. */
  lemma AddIn<T>(g: Bounded<T>, keys: seq<int>, kids: seq<T>, lo: Option<int>, hi: Option<int>, q: nat, l: T, sep: int, r: T)
    requires KidsIn(g, keys, kids, lo, hi) && q <= |keys| && g(l, KidLo(keys, lo, q), Some(sep)) && g(r, Some(sep), KidHi(keys, hi, q))
    ensures KidsIn(g, PbInsert.InsertAt(keys, q, sep), PbInsert.AddKids(kids, q, l, r), lo, hi)
  {
    var keys', kids' := PbInsert.InsertAt(keys, q, sep), PbInsert.AddKids(kids, q, l, r);
    forall i | 0 <= i < |kids'| ensures g(kids'[i], KidLo(keys', lo, i), KidHi(keys', hi, i)) {
      PbInsert.InsertedAt(kids[q := r], q, l, i);
      if i < |keys'| { PbInsert.InsertedAt(keys, q, sep, i); }
      if i > 0 { PbInsert.InsertedAt(keys, q, sep, i - 1); }
      if i < q {
        assert g(kids[i], KidLo(keys, lo, i), KidHi(keys, hi, i));
      } else if i > q + 1 {
        assert g(kids[i - 1], KidLo(keys, lo, i - 1), KidHi(keys, hi, i - 1));
      }
    }
  }

  /** A branch node cut at key j. */
  lemma CutIn<T>(g: Bounded<T>, keys: seq<int>, kids: seq<T>, lo: Option<int>, hi: Option<int>, j: nat)
    requires KidsIn(g, keys, kids, lo, hi) && j < |keys|
    ensures KidsIn(g, keys[..j], kids[..j + 1], lo, Some(keys[j])) && KidsIn(g, keys[j + 1..], kids[j + 1..], Some(keys[j]), hi)
  {
    forall i | 0 <= i <= j ensures g(kids[..j + 1][i], KidLo(keys[..j], lo, i), KidHi(keys[..j], Some(keys[j]), i)) {
      assert g(kids[i], KidLo(keys, lo, i), KidHi(keys, hi, i));
    }
    var rk, rc := keys[j + 1..], kids[j + 1..];
    forall i | 0 <= i < |rc| ensures g(rc[i], KidLo(rk, Some(keys[j]), i), KidHi(rk, hi, i)) {
      var x := i + j + 1;
      assert g(kids[x], KidLo(keys, lo, x), KidHi(keys, hi, x));
    }
  }

  lemma SetIn<T>(g: Bounded<T>, keys: seq<int>, kids: seq<T>, lo: Option<int>, hi: Option<int>, q: nat, c: T)
    requires KidsIn(g, keys, kids, lo, hi) && q <= |keys| && g(c, KidLo(keys, lo, q), KidHi(keys, hi, q))
    ensures KidsIn(g, keys, kids[q := c], lo, hi)
  {
  }

  // -------------------------------------------------------------------- from child to parent

  /** The leaves of a node whose child q was replaced by `parts`. */
  lemma LeavesReplaced(kids: seq<FTree>, d: nat, q: nat, parts: seq<FTree>)
    requires q < |kids| && FpTree.AllShaped(kids, d) && FpTree.AllShaped(parts, d)
    ensures FpTree.AllShaped(kids[..q], d) && FpTree.AllShaped(kids[q + 1..], d) && FpTree.AllShaped(kids[..q] + (parts + kids[q + 1..]), d)
    ensures AllLeaves(kids[..q] + (parts + kids[q + 1..]), d) == AllLeaves(kids[..q], d) + (AllLeaves(parts, d) + AllLeaves(kids[q + 1..], d))
  {
    LeavesConcat(parts, kids[q + 1..], d);
    LeavesConcat(kids[..q], parts + kids[q + 1..], d);
  }

  /** The child did not split. */
  lemma KidStays(p: Params, keys: seq<int>, kids: seq<FTree>, d: nat, lo: Option<int>, hi: Option<int>, q: nat, c: FTree)
    requires FpTree.Good(p, BranchT(keys, kids), d + 1, lo, hi) && q <= |keys| && FpTree.Good(p, c, d, KidLo(keys, lo, q), KidHi(keys, hi, q)) && FpTree.Shaped(c, d)
    ensures FpTree.AllShaped(kids, d) && FpTree.AllShaped(kids[..q], d) && FpTree.AllShaped(kids[q + 1..], d)
    ensures GrownOk(p, Same(BranchT(keys, kids[q := c])), d + 1, lo, hi,
                    AllLeaves(kids[..q], d) + (Leaves(c, d) + AllLeaves(kids[q + 1..], d)))
  {
    FpTree.GoodShaped(p, BranchT(keys, kids), d + 1, lo, hi);
    GoodBranch(p, keys, kids, d, lo, hi);
    SetIn(FpTree.GoodAt(p, d), keys, kids, lo, hi, q, c);
    GoodBranch(p, keys, kids[q := c], d, lo, hi);
    OneTree(c, d);
    LeavesReplaced(kids, d, q, [c]);
    SetKid(kids, q, c);
  }

  lemma SetKid<T>(kids: seq<T>, q: nat, c: T)
    requires q < |kids|
    ensures kids[q := c] == kids[..q] + ([c] + kids[q + 1..])
  {
  }

  /** The children and keys of the node once child q has become two. */
  lemma KidSplits(p: Params, keys: seq<int>, kids: seq<FTree>, d: nat, lo: Option<int>, hi: Option<int>, q: nat, l: FTree, sep: int, r: FTree)
    requires FpTree.Good(p, BranchT(keys, kids), d + 1, lo, hi) && q <= |keys| && FpTree.Shaped(l, d) && FpTree.Shaped(r, d)
    requires FpTree.Good(p, l, d, KidLo(keys, lo, q), Some(sep)) && FpTree.Good(p, r, d, Some(sep), KidHi(keys, hi, q))
    requires Above(KidLo(keys, lo, q), sep) && Below(sep, KidHi(keys, hi, q))
    ensures FpTree.AllShaped(kids, d) && FpTree.AllShaped(kids[..q], d) && FpTree.AllShaped(kids[q + 1..], d)
    ensures var ks, cs := PbInsert.InsertAt(keys, q, sep), PbInsert.AddKids(kids, q, l, r);
            && KeysOk(ks, lo, hi) && KidsIn(FpTree.GoodAt(p, d), ks, cs, lo, hi) && FpTree.AllShaped(cs, d)
            && AllLeaves(cs, d) == AllLeaves(kids[..q], d) + ((Leaves(l, d) + Leaves(r, d)) + AllLeaves(kids[q + 1..], d))
  {
    FpTree.GoodShaped(p, BranchT(keys, kids), d + 1, lo, hi);
    GoodBranch(p, keys, kids, d, lo, hi);
    AddIn(FpTree.GoodAt(p, d), keys, kids, lo, hi, q, l, sep, r);
    PbInsert.BetweenBounds(keys, lo, hi, q, sep);
    PbInsert.AddKeyOk(keys, lo, hi, q, sep);
    AddedLeaves(kids, d, q, l, r);
  }

  lemma AddedLeaves(kids: seq<FTree>, d: nat, q: nat, l: FTree, r: FTree)
    requires FpTree.AllShaped(kids, d) && q < |kids| && FpTree.Shaped(l, d) && FpTree.Shaped(r, d)
    ensures FpTree.AllShaped(kids[..q], d) && FpTree.AllShaped(kids[q + 1..], d) && FpTree.AllShaped(PbInsert.AddKids(kids, q, l, r), d)
    ensures AllLeaves(PbInsert.AddKids(kids, q, l, r), d) == AllLeaves(kids[..q], d) + ((Leaves(l, d) + Leaves(r, d)) + AllLeaves(kids[q + 1..], d))
  {
    OneTree(l, d);
    OneTree(r, d);
    LeavesConcat([l], [r], d);
    LeavesReplaced(kids, d, q, [l] + [r]);
    AddedKids(kids, q, l, r);
  }

  lemma AddedKids<T>(kids: seq<T>, q: nat, l: T, r: T)
    requires q < |kids|
    ensures PbInsert.AddKids(kids, q, l, r) == kids[..q] + (([l] + [r]) + kids[q + 1..])
  {
  }

  /** The node with room for one more child. */
  lemma WholeOk(p: Params, ks: seq<int>, cs: seq<FTree>, d: nat, lo: Option<int>, hi: Option<int>)
    requires |ks| <= p.n && KeysOk(ks, lo, hi) && KidsIn(FpTree.GoodAt(p, d), ks, cs, lo, hi) && FpTree.AllShaped(cs, d)
    ensures GrownOk(p, Same(BranchT(ks, cs)), d + 1, lo, hi, AllLeaves(cs, d))
  {
    GoodBranch(p, ks, cs, d, lo, hi);
  }

  /** The node with one child too many, cut at key j. */
  lemma CutOk(p: Params, ks: seq<int>, cs: seq<FTree>, d: nat, lo: Option<int>, hi: Option<int>, j: nat)
    requires |ks| == p.n + 1 && j < |ks| && KeysOk(ks, lo, hi) && KidsIn(FpTree.GoodAt(p, d), ks, cs, lo, hi) && FpTree.AllShaped(cs, d)
    ensures GrownOk(p, Pair(BranchT(ks[..j], cs[..j + 1]), ks[j], BranchT(ks[j + 1..], cs[j + 1..])), d + 1, lo, hi, AllLeaves(cs, d))
  {
    CutIn(FpTree.GoodAt(p, d), ks, cs, lo, hi, j);
    CutKeys(ks, lo, hi, j);
    GoodBranch(p, ks[..j], cs[..j + 1], d, lo, Some(ks[j]));
    GoodBranch(p, ks[j + 1..], cs[j + 1..], d, Some(ks[j]), hi);
    CutLeaves(ks, cs, d, j);
  }

  lemma CutKeys(ks: seq<int>, lo: Option<int>, hi: Option<int>, j: nat)
    requires KeysOk(ks, lo, hi) && j < |ks|
    ensures Above(lo, ks[j]) && Below(ks[j], hi) && KeysOk(ks[..j], lo, Some(ks[j])) && KeysOk(ks[j + 1..], Some(ks[j]), hi)
  {
  }

  lemma CutLeaves(ks: seq<int>, cs: seq<FTree>, d: nat, j: nat)
    requires j < |ks| && |cs| == |ks| + 1 && FpTree.AllShaped(cs, d)
    ensures var l, r := BranchT(ks[..j], cs[..j + 1]), BranchT(ks[j + 1..], cs[j + 1..]);
            FpTree.Shaped(l, d + 1) && FpTree.Shaped(r, d + 1) && Leaves(l, d + 1) + Leaves(r, d + 1) == AllLeaves(cs, d)
  {
    LeavesConcat(cs[..j + 1], cs[j + 1..], d);
    assert cs[..j + 1] + cs[j + 1..] == cs;
  }

  // ---------------------------------------------------------------------------- inserting

  /** A full branch node takes a child: `splitBranchNode`, and the new child goes to the
      half that covers the key. The result is the node with the child, cut in two. */
  method SplitAndAdd(p: Params, keys: seq<int>, kids: seq<FTree>, q: nat, l: FTree, sep: int, r: FTree, k: int) returns (g: Grown, ghost j: nat)
    requires ParamsOk(p) && |keys| == p.n && |kids| == |keys| + 1 && Sorted(keys) && q == UpperBound(keys, k)
    ensures j <= p.n
    ensures var ks, cs := PbInsert.InsertAt(keys, q, sep), PbInsert.AddKids(kids, q, l, r);
            g == Pair(BranchT(ks[..j], cs[..j + 1]), ks[j], BranchT(ks[j + 1..], cs[j + 1..]))
  {
    var mid := SplitPoint(p.n, keys, sep);
    if k < keys[mid - 1] {
      j := mid;
      g := AddLeft(keys, kids, q, l, sep, r, k, mid);
    } else {
      j := mid - 1;
      g := AddRight(keys, kids, q, l, sep, r, k, mid);
    }
  }

  /** Where a full branch node is split. */
  function SplitPoint(n: nat, keys: seq<int>, sep: int): (mid: nat)
    requires n >= 2 && |keys| == n
    ensures 0 < mid <= n
  {
    if sep > keys[(n + 1) / 2] then (n + 1) / 2 + 1 else (n + 1) / 2
  }

  method AddLeft(keys: seq<int>, kids: seq<FTree>, q: nat, l: FTree, sep: int, r: FTree, k: int, mid: nat) returns (g: Grown)
    requires |kids| == |keys| + 1 && 0 < mid <= |keys| && Sorted(keys) && q == UpperBound(keys, k) && k < keys[mid - 1]
    ensures var ks, cs := PbInsert.InsertAt(keys, q, sep), PbInsert.AddKids(kids, q, l, r);
            g == Pair(BranchT(ks[..mid], cs[..mid + 1]), ks[mid], BranchT(ks[mid + 1..], cs[mid + 1..]))
  {
    var lk, lc := keys[..mid - 1], kids[..mid];
    PbInsert.UpperBoundUnique(lk, k, q);
    PbInsert.CutAddKidLeft(keys, kids, q, sep, l, r, mid);
    var pos := UpperBound(lk, k);
    g := Pair(BranchT(PbInsert.InsertAt(lk, pos, sep), PbInsert.AddKids(lc, pos, l, r)), keys[mid - 1], BranchT(keys[mid..], kids[mid..]));
  }

  method AddRight(keys: seq<int>, kids: seq<FTree>, q: nat, l: FTree, sep: int, r: FTree, k: int, mid: nat) returns (g: Grown)
    requires |kids| == |keys| + 1 && 0 < mid <= |keys| && Sorted(keys) && q == UpperBound(keys, k) && k >= keys[mid - 1]
    ensures var ks, cs := PbInsert.InsertAt(keys, q, sep), PbInsert.AddKids(kids, q, l, r);
            g == Pair(BranchT(ks[..mid - 1], cs[..mid]), ks[mid - 1], BranchT(ks[mid..], cs[mid..]))
  {
    var rk, rc := keys[mid..], kids[mid..];
    PbInsert.UpperBoundUnique(rk, k, q - mid);
    PbInsert.CutAddKidRight(keys, kids, q, sep, l, r, mid);
    var pos := UpperBound(rk, k);
    g := Pair(BranchT(keys[..mid - 1], kids[..mid]), keys[mid - 1], BranchT(PbInsert.InsertAt(rk, pos, sep), PbInsert.AddKids(rc, pos, l, r)));
  }

  /** Leaf i of the list became the parts: it is rewritten, and a second one follows it. */
  ghost predicate Spliced(before: seq<Slots>, after: seq<Slots>, i: nat, parts: FpLeaf.Parts) {
    i < |before| && parts.l.id == before[i].id && after == before[..i] + parts.List() + before[i + 1..]
  }

  lemma SplicedAround(a: seq<Slots>, before: seq<Slots>, after: seq<Slots>, b: seq<Slots>, i: nat, parts: FpLeaf.Parts)
    requires Spliced(before, after, i, parts)
    ensures Spliced(a + (before + b), a + (after + b), |a| + i, parts)
  {
    var whole := a + (before + b);
    assert whole[..|a| + i] == a + before[..i];
    assert whole[|a| + i + 1..] == before[i + 1..] + b;
    assert a + (after + b) == whole[..|a| + i] + parts.List() + whole[|a| + i + 1..];
  }

  /** The new list of leaves that an insertion promises. */
  ghost predicate NewLeaves(p: Params, t: FTree, g: Grown, d: nat, lo: Option<int>, hi: Option<int>, k: int, v: int,
                            leaves: seq<Slots>, i: nat, parts: FpLeaf.Parts)
    requires FpTree.Shaped(t, d)
  {
    && FpLeaf.AllSized(leaves) && GrownOk(p, g, d, lo, hi, leaves)
    && Stores(Leaves(t, d), leaves, k, v) && Spliced(Leaves(t, d), leaves, i, parts)
  }

  /** `insertInBranchNode`, and `insertInLeafNode` at height 0. */
  method InsertInto(p: Params, t: FTree, d: nat, k: int, v: int, y: nat, ghost lo: Option<int>, ghost hi: Option<int>)
    returns (g: Grown, parts: FpLeaf.Parts, ghost leaves: seq<Slots>, ghost i: nat)
    requires ParamsOk(p) && FpTree.Good(p, t, d, lo, hi) && FpTree.Shaped(t, d) && 0 <= k < FpLeaf.MAX_KEY && AtLeast(lo, k) && Below(k, hi)
    ensures NewLeaves(p, t, g, d, lo, hi, k, v, leaves, i, parts) && (parts.Split? ==> parts.r.id == y)
    decreases d, 0
  {
    match t
    case LeafT(leaf) =>
      parts := FpLeaf.InsertLeaf(p.h, leaf, p.m, k, v, y, lo, hi);
      g, leaves, i := LeafGrown(parts), parts.List(), 0;
      LeafInserted(p, leaf, parts, lo, hi, k, v);
    case BranchT(keys, kids) => g, parts, leaves, i := InsertBelow(p, keys, kids, d - 1, k, v, y, lo, hi);
  }

  function LeafGrown(parts: FpLeaf.Parts): Grown {
    match parts
    case Whole(l) => Same(LeafT(l))
    case Split(l, sep, r) => Pair(LeafT(l), sep, LeafT(r))
  }

  method InsertBelow(p: Params, keys: seq<int>, kids: seq<FTree>, d: nat, k: int, v: int, y: nat, ghost lo: Option<int>, ghost hi: Option<int>)
    returns (g: Grown, parts: FpLeaf.Parts, ghost leaves: seq<Slots>, ghost i: nat)
    requires ParamsOk(p) && FpTree.Good(p, BranchT(keys, kids), d + 1, lo, hi) && FpTree.Shaped(BranchT(keys, kids), d + 1)
    requires 0 <= k < FpLeaf.MAX_KEY && AtLeast(lo, k) && Below(k, hi)
    ensures NewLeaves(p, BranchT(keys, kids), g, d + 1, lo, hi, k, v, leaves, i, parts) && (parts.Split? ==> parts.r.id == y)
    decreases d, 1
  {
    var q := UpperBound(keys, k);
    KidBounds(p, keys, kids, d, lo, hi, k, q);
    var g1;
    ghost var inner, j;
    g1, parts, inner, j := InsertInto(p, kids[q], d, k, v, y, KidLo(keys, lo, q), KidHi(keys, hi, q));
    g, leaves, i := AfterKid(p, keys, kids, d, q, k, v, g1, parts, inner, j, lo, hi);
  }

  lemma LeafInserted(p: Params, leaf: Slots, parts: FpLeaf.Parts, lo: Option<int>, hi: Option<int>, k: int, v: int)
    requires FpLeaf.PartsOk(p.h, leaf, p.m, parts, lo, hi, k, v)
    requires parts.l.id == leaf.id
    ensures FpTree.Shaped(LeafT(leaf), 0) && NewLeaves(p, LeafT(leaf), LeafGrown(parts), 0, lo, hi, k, v, parts.List(), 0, parts)
  {
    var g := LeafGrown(parts);
    var leaves := parts.List();
    assert FpLeaf.AllSized(leaves);
    assert GrownOk(p, g, 0, lo, hi, leaves);
    forall x ensures FpLeaf.ListGet(leaves, x) == if x == k then Some(v) else FpLeaf.ListGet([leaf], x) {
      assert FpLeaf.PartsGet(parts, x) == FpLeaf.ListGet(leaves, x);
      FpLeaf.GetWhole(leaf, x);
      assert FpLeaf.Whole(leaf).List() == [leaf];
    }
  }

  /** The rest of `insertInBranchNode`, after the insertion into child q. */
  method AfterKid(p: Params, keys: seq<int>, kids: seq<FTree>, ghost d: nat, q: nat, k: int, ghost v: int, g1: Grown,
                  ghost parts: FpLeaf.Parts, ghost inner: seq<Slots>, ghost j: nat, ghost lo: Option<int>, ghost hi: Option<int>)
    returns (g: Grown, ghost leaves: seq<Slots>, ghost i: nat)
    requires ParamsOk(p) && FpTree.Good(p, BranchT(keys, kids), d + 1, lo, hi) && FpTree.Shaped(BranchT(keys, kids), d + 1) && q == UpperBound(keys, k)
    requires NewLeaves(p, kids[q], g1, d, KidLo(keys, lo, q), KidHi(keys, hi, q), k, v, inner, j, parts)
    ensures NewLeaves(p, BranchT(keys, kids), g, d + 1, lo, hi, k, v, leaves, i, parts)
  {
    leaves, i := StoredInKid(p, keys, kids, d, lo, hi, k, v, q, inner, j, parts);
    if g1.Same? {
      g := Same(BranchT(keys, kids[q := g1.t]));
      KidStays(p, keys, kids, d, lo, hi, q, g1.t);
    } else {
      KidSplits(p, keys, kids, d, lo, hi, q, g1.l, g1.sep, g1.r);
      ghost var ks, cs := PbInsert.InsertAt(keys, q, g1.sep), PbInsert.AddKids(kids, q, g1.l, g1.r);
      if |keys| != p.n {
        g := Same(BranchT(PbInsert.InsertAt(keys, q, g1.sep), PbInsert.AddKids(kids, q, g1.l, g1.r)));
        WholeOk(p, ks, cs, d, lo, hi);
      } else {
        ghost var cut;
        g, cut := SplitAndAdd(p, keys, kids, q, g1.l, g1.sep, g1.r, k);
        CutOk(p, ks, cs, d, lo, hi, cut);
      }
    }
  }

  lemma StoredAround(kids: seq<FTree>, d: nat, q: nat, inner: seq<Slots>, j: nat, parts: FpLeaf.Parts, k: int, v: int)
    returns (leaves: seq<Slots>, i: nat)
    requires q < |kids| && FpTree.AllShaped(kids, d) && FpTree.AllShaped(kids[..q], d) && FpTree.AllShaped(kids[q + 1..], d)
    requires FpLeaf.ListGet(AllLeaves(kids[..q], d), k) == None
    requires FpLeaf.AllSized(inner) && Stores(Leaves(kids[q], d), inner, k, v) && Spliced(Leaves(kids[q], d), inner, j, parts)
    ensures leaves == AllLeaves(kids[..q], d) + (inner + AllLeaves(kids[q + 1..], d))
    ensures FpLeaf.AllSized(leaves) && Stores(AllLeaves(kids, d), leaves, k, v) && Spliced(AllLeaves(kids, d), leaves, i, parts)
  {
    LeavesAround(kids, q, d);
    var a, b := AllLeaves(kids[..q], d), AllLeaves(kids[q + 1..], d);
    StoresAround(a, Leaves(kids[q], d), inner, b, k, v);
    SplicedAround(a, Leaves(kids[q], d), inner, b, j, parts);
    leaves, i := a + (inner + b), |a| + j;
  }

  /** The leaves of a node store the pair once those of child q do. */
  lemma StoredInKid(p: Params, keys: seq<int>, kids: seq<FTree>, d: nat, lo: Option<int>, hi: Option<int>, k: int, v: int, q: nat,
                    inner: seq<Slots>, j: nat, parts: FpLeaf.Parts)
    returns (leaves: seq<Slots>, i: nat)
    requires FpTree.Good(p, BranchT(keys, kids), d + 1, lo, hi) && FpTree.AllShaped(kids, d) && q == UpperBound(keys, k)
    requires FpLeaf.AllSized(inner) && Stores(Leaves(kids[q], d), inner, k, v) && Spliced(Leaves(kids[q], d), inner, j, parts)
    ensures FpTree.AllShaped(kids[..q], d) && FpTree.AllShaped(kids[q + 1..], d)
    ensures leaves == AllLeaves(kids[..q], d) + (inner + AllLeaves(kids[q + 1..], d))
    ensures FpLeaf.AllSized(leaves) && Stores(AllLeaves(kids, d), leaves, k, v) && Spliced(AllLeaves(kids, d), leaves, i, parts)
  {
    GoodBranch(p, keys, kids, d, lo, hi);
    OthersAbsent(p, keys, kids, d, lo, hi, k, q);
    leaves, i := StoredAround(kids, d, q, inner, j, parts, k, v);
  }

  // -------------------------------------------------------------------------- the whole tree

  /** `insert`: the tree stays well formed, and afterwards every lookup finds what the map
      with the new pair holds. One leaf is rewritten, and if it splits the right half goes
      to address y. */
  method Insert(p: Params, t: FTree, d: nat, k: int, v: int, y: nat)
    returns (t': FTree, d': nat, parts: FpLeaf.Parts, ghost i: nat)
    requires ParamsOk(p) && FpTree.RootOk(p, t, d) && FpTree.Shaped(t, d) && 0 <= k < FpLeaf.MAX_KEY
    ensures FpTree.RootOk(p, t', d') && FpTree.Shaped(t', d')
    ensures Spliced(Leaves(t, d), Leaves(t', d'), i, parts) && (parts.Split? ==> parts.r.id == y)
    ensures forall x :: FpTree.Lookup(t', d', x) == if x == k then Some(v) else FpTree.Lookup(t, d, x)
  {
    var g;
    ghost var leaves;
    if t.LeafT? {
      parts := FpLeaf.InsertLeaf(p.h, t.leaf, p.m, k, v, y, None, None);
      g, leaves, i := LeafGrown(parts), parts.List(), 0;
      LeafInserted(p, t.leaf, parts, None, None, k, v);
    } else {
      g, parts, leaves, i := InsertInto(p, t, d, k, v, y, None, None);
    }
    RootInserted(p, t, d, g, k, v, leaves, i, parts);
    t', d' := NewRoot(g), NewDepth(g, d);
  }

  /** A split of the root makes a new root. */
  function NewRoot(g: Grown): FTree {
    match g
    case Same(t) => t
    case Pair(l, sep, r) => BranchT([sep], [l, r])
  }

  function NewDepth(g: Grown, d: nat): nat {
    if g.Same? then d else d + 1
  }

  lemma RootInserted(p: Params, t: FTree, d: nat, g: Grown, k: int, v: int, leaves: seq<Slots>, i: nat, parts: FpLeaf.Parts)
    requires ParamsOk(p) && FpTree.RootOk(p, t, d) && FpTree.Shaped(t, d) && NewLeaves(p, t, g, d, None, None, k, v, leaves, i, parts)
    ensures var t', d' := NewRoot(g), NewDepth(g, d);
            && FpTree.RootOk(p, t', d') && FpTree.Shaped(t', d') && Leaves(t', d') == leaves
            && forall x :: FpTree.Lookup(t', d', x) == if x == k then Some(v) else FpTree.Lookup(t, d, x)
  {
    RootGrows(p, g, d, None, leaves);
    var t', d' := NewRoot(g), NewDepth(g, d);
    assert Leaves(t', d') == leaves;
    forall x ensures FpTree.Lookup(t', d', x) == if x == k then Some(v) else FpTree.Lookup(t, d, x) {
      FpTree.RootLookup(p, t, d, x);
      FpTree.RootLookup(p, t', d', x);
    }
  }
}
