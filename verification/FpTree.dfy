/** The tree over unsorted leaves: insertion, and recovery of the branch nodes from the
    list of leaves. */
module FpTree {
  import opened Wrappers
  import opened PbTree
  import opened PbInsert
  import FpLeaf

  type Slots = FpLeaf.Slots

  datatype FTree = LeafT(leaf: Slots) | BranchT(keys: seq<int>, kids: seq<FTree>)

  /** The order of a tree: a branch node holds up to n keys, a leaf m pairs; and the
      fingerprint function of its leaves. */
  datatype Params = Params(n: nat, m: nat, h: FpLeaf.Hash)

  predicate ParamsOk(p: Params) {
    p.n >= 2 && p.m >= 2
  }

  // ---------------------------------------------------------------------- well-formedness

  /** A property of a child and its bounds. */
  type Bounded<!T> = (T, Option<int>, Option<int>) -> bool

  ghost predicate KidsIn<T>(g: Bounded<T>, keys: seq<int>, kids: seq<T>, lo: Option<int>, hi: Option<int>) {
    |kids| == |keys| + 1 && forall i :: 0 <= i < |kids| ==> g(kids[i], KidLo(keys, lo, i), KidHi(keys, hi, i))
  }

  /** A subtree of height d with keys in [lo, hi), separated by the keys of its branch
      nodes, with no empty leaf. */
  ghost predicate Good(p: Params, t: FTree, d: nat, lo: Option<int>, hi: Option<int>)
    decreases d
  {
    match t
    case LeafT(leaf) => d == 0 && FpLeaf.GoodLeaf(p.h, leaf, p.m, lo, hi)
    case BranchT(keys, kids) =>
      && d > 0 && |kids| == |keys| + 1 <= p.n + 1 && KeysOk(keys, lo, hi)
      && forall i :: 0 <= i < |kids| ==> Good(p, kids[i], d - 1, KidLo(keys, lo, i), KidHi(keys, hi, i))
  }

  ghost function GoodAt(p: Params, d: nat): Bounded<FTree> {
    (t: FTree, lo: Option<int>, hi: Option<int>) => Good(p, t, d, lo, hi)
  }

  lemma GoodBranch(p: Params, keys: seq<int>, kids: seq<FTree>, d: nat, lo: Option<int>, hi: Option<int>)
    ensures Good(p, BranchT(keys, kids), d + 1, lo, hi) <==>
            |keys| <= p.n && KeysOk(keys, lo, hi) && KidsIn(GoodAt(p, d), keys, kids, lo, hi)
  {
  }

  // ------------------------------------------------------------------------ lists of leaves

  predicate Shaped(t: FTree, d: nat)
    decreases d
  {
    match t
    case LeafT(leaf) => d == 0 && |leaf.keys| == |leaf.vals| == |leaf.bits|
    case BranchT(keys, kids) => d > 0 && |kids| == |keys| + 1 && forall i :: 0 <= i < |kids| ==> Shaped(kids[i], d - 1)
  }

  predicate AllShaped(kids: seq<FTree>, d: nat) {
    forall i :: 0 <= i < |kids| ==> Shaped(kids[i], d)
  }

  lemma {:induction false} GoodShaped(p: Params, t: FTree, d: nat, lo: Option<int>, hi: Option<int>)
    requires Good(p, t, d, lo, hi)
    ensures Shaped(t, d)
    decreases d
  {
    if t.BranchT? {
      forall i | 0 <= i < |t.kids| ensures Shaped(t.kids[i], d - 1) {
        GoodShaped(p, t.kids[i], d - 1, KidLo(t.keys, lo, i), KidHi(t.keys, hi, i));
      }
    }
  }

  /** The leaves from left to right, as the leaf links list them. */
  function Leaves(t: FTree, d: nat): (r: seq<Slots>)
    requires Shaped(t, d)
    ensures FpLeaf.AllSized(r)
    decreases d, 0
  {
    match t
    case LeafT(leaf) => [leaf]
    case BranchT(keys, kids) => AllLeaves(kids, d - 1)
  }

  function AllLeaves(kids: seq<FTree>, d: nat): (r: seq<Slots>)
    requires AllShaped(kids, d)
    ensures FpLeaf.AllSized(r)
    decreases d, 1, |kids|
  {
    if kids == [] then [] else Leaves(kids[0], d) + AllLeaves(kids[1..], d)
  }

  lemma {:induction false} LeavesConcat(a: seq<FTree>, b: seq<FTree>, d: nat)
    requires AllShaped(a, d) && AllShaped(b, d)
    ensures AllShaped(a + b, d) && AllLeaves(a + b, d) == AllLeaves(a, d) + AllLeaves(b, d)
    decreases |a|
  {
    if a == [] {
      assert a + b == b;
    } else {
      LeavesConcat(a[1..], b, d);
      assert (a + b)[0] == a[0] && (a + b)[1..] == a[1..] + b;
    }
  }

  lemma OneTree(t: FTree, d: nat)
    requires Shaped(t, d)
    ensures AllShaped([t], d) && AllLeaves([t], d) == Leaves(t, d)
  {
    assert [t][1..] == [];
  }

  lemma LeavesAround(kids: seq<FTree>, i: nat, d: nat)
    requires AllShaped(kids, d) && i < |kids|
    ensures AllShaped(kids[..i], d) && AllShaped(kids[i + 1..], d)
    ensures AllLeaves(kids, d) == AllLeaves(kids[..i], d) + (Leaves(kids[i], d) + AllLeaves(kids[i + 1..], d))
  {
    assert kids == kids[..i] + ([kids[i]] + kids[i + 1..]);
    OneTree(kids[i], d);
    LeavesConcat([kids[i]], kids[i + 1..], d);
    LeavesConcat(kids[..i], [kids[i]] + kids[i + 1..], d);
  }

  // ----------------------------------------------------------------------------- lookup

  /** `lookup`: down to the leaf that covers the key, and the search there. */
  ghost function Lookup(t: FTree, d: nat, k: int): Option<int>
    requires Shaped(t, d)
    decreases d
  {
    match t
    case LeafT(leaf) => FpLeaf.LeafGet(leaf, k)
    case BranchT(keys, kids) => Lookup(kids[UpperBound(keys, k)], d - 1, k)
  }

  /** A key outside the bounds of a tree is in none of its leaves. */
  lemma {:induction false} OutsideAbsent(p: Params, t: FTree, d: nat, lo: Option<int>, hi: Option<int>, k: int)
    requires Good(p, t, d, lo, hi) && !(AtLeast(lo, k) && Below(k, hi))
    ensures Shaped(t, d) && FpLeaf.ListGet(Leaves(t, d), k) == None
    decreases d, 0, 0
  {
    GoodShaped(p, t, d, lo, hi);
    match t
    case LeafT(leaf) =>
      assert [leaf][1..] == [] && forall i :: !FpLeaf.Stored(leaf, k, i);
      assert FpLeaf.ListGet([], k) == None;
    case BranchT(keys, kids) =>
      forall i | 0 <= i < |kids| ensures Good(p, kids[i], d - 1, KidLo(keys, lo, i), KidHi(keys, hi, i)) && !(AtLeast(KidLo(keys, lo, i), k) && Below(k, KidHi(keys, hi, i))) {
      }
      AbsentIn(p, kids, seq(|kids|, i requires 0 <= i < |kids| => (KidLo(keys, lo, i), KidHi(keys, hi, i))), d - 1, k);
  }

  type Bounds = (Option<int>, Option<int>)

  /** The same for a list of trees, each with its bounds. */
  lemma {:induction false} AbsentIn(p: Params, kids: seq<FTree>, bounds: seq<Bounds>, d: nat, k: int)
    requires |bounds| == |kids|
    requires forall i :: 0 <= i < |kids| ==> Good(p, kids[i], d, bounds[i].0, bounds[i].1) && !(AtLeast(bounds[i].0, k) && Below(k, bounds[i].1))
    ensures AllShaped(kids, d) && FpLeaf.ListGet(AllLeaves(kids, d), k) == None
    decreases d, 1, |kids|
  {
    if kids != [] {
      OutsideAbsent(p, kids[0], d, bounds[0].0, bounds[0].1, k);
      AbsentIn(p, kids[1..], bounds[1..], d, k);
      FpLeaf.ListGetConcat(Leaves(kids[0], d), AllLeaves(kids[1..], d), k);
      assert forall i :: 0 <= i < |kids| ==> Shaped(kids[i], d) by {
        forall i | 0 <= i < |kids| ensures Shaped(kids[i], d) {
          GoodShaped(p, kids[i], d, bounds[i].0, bounds[i].1);
        }
      }
    }
  }

  /** Children other than the one a search descends into do not hold the key. */
  lemma OthersAbsent(p: Params, keys: seq<int>, kids: seq<FTree>, d: nat, lo: Option<int>, hi: Option<int>, k: int, q: nat)
    requires KeysOk(keys, lo, hi) && KidsIn(GoodAt(p, d), keys, kids, lo, hi) && q == UpperBound(keys, k)
    ensures AllShaped(kids, d) && AllShaped(kids[..q], d) && AllShaped(kids[q + 1..], d)
    ensures FpLeaf.ListGet(AllLeaves(kids[..q], d), k) == None && FpLeaf.ListGet(AllLeaves(kids[q + 1..], d), k) == None
  {
    var all := KidBoundsOf(keys, kids, lo, hi);
    KidsGood(p, keys, kids, d, lo, hi);
    forall i | 0 <= i < |kids| && i != q ensures !(AtLeast(all[i].0, k) && Below(k, all[i].1)) {
    }
    AbsentIn(p, kids[..q], all[..q], d, k);
    AbsentIn(p, kids[q + 1..], all[q + 1..], d, k);
  }

  ghost function KidBoundsOf(keys: seq<int>, kids: seq<FTree>, lo: Option<int>, hi: Option<int>): seq<Bounds>
    requires |kids| == |keys| + 1
  {
    seq(|kids|, i requires 0 <= i < |kids| => (KidLo(keys, lo, i), KidHi(keys, hi, i)))
  }

  lemma KidsGood(p: Params, keys: seq<int>, kids: seq<FTree>, d: nat, lo: Option<int>, hi: Option<int>)
    requires KidsIn(GoodAt(p, d), keys, kids, lo, hi)
    ensures var all := KidBoundsOf(keys, kids, lo, hi);
            forall i :: 0 <= i < |kids| ==> Good(p, kids[i], d, all[i].0, all[i].1)
    ensures AllShaped(kids, d)
  {
    forall i | 0 <= i < |kids| ensures Good(p, kids[i], d, KidLo(keys, lo, i), KidHi(keys, hi, i)) && Shaped(kids[i], d) {
      assert GoodAt(p, d)(kids[i], KidLo(keys, lo, i), KidHi(keys, hi, i));
      GoodShaped(p, kids[i], d, KidLo(keys, lo, i), KidHi(keys, hi, i));
    }
  }

  /** The child that covers k. */
  lemma KidBounds(p: Params, keys: seq<int>, kids: seq<FTree>, d: nat, lo: Option<int>, hi: Option<int>, k: int, q: nat)
    requires Good(p, BranchT(keys, kids), d + 1, lo, hi) && AtLeast(lo, k) && Below(k, hi) && q == UpperBound(keys, k)
    ensures Good(p, kids[q], d, KidLo(keys, lo, q), KidHi(keys, hi, q)) && Shaped(kids[q], d)
    ensures AtLeast(KidLo(keys, lo, q), k) && Below(k, KidHi(keys, hi, q))
  {
    GoodShaped(p, kids[q], d, KidLo(keys, lo, q), KidHi(keys, hi, q));
  }

  /** The lookup in a tree finds exactly what its leaves hold. */
  lemma {:induction false} LookupIsList(p: Params, t: FTree, d: nat, lo: Option<int>, hi: Option<int>, k: int)
    requires Good(p, t, d, lo, hi) && AtLeast(lo, k) && Below(k, hi)
    ensures Shaped(t, d) && Lookup(t, d, k) == FpLeaf.ListGet(Leaves(t, d), k)
    decreases d, 1
  {
    match t
    case LeafT(leaf) =>
      assert [leaf][1..] == [];
      assert FpLeaf.ListGet([], k) == None;
    case BranchT(keys, kids) =>
      LookupBelow(p, keys, kids, d - 1, lo, hi, k);
  }

  lemma {:induction false} LookupBelow(p: Params, keys: seq<int>, kids: seq<FTree>, d: nat, lo: Option<int>, hi: Option<int>, k: int)
    requires Good(p, BranchT(keys, kids), d + 1, lo, hi) && AtLeast(lo, k) && Below(k, hi)
    ensures Shaped(BranchT(keys, kids), d + 1) && AllShaped(kids, d) && Lookup(BranchT(keys, kids), d + 1, k) == FpLeaf.ListGet(AllLeaves(kids, d), k)
    decreases d + 1, 0
  {
    var q := UpperBound(keys, k);
    GoodShaped(p, BranchT(keys, kids), d + 1, lo, hi);
    KidBounds(p, keys, kids, d, lo, hi, k, q);
    LookupIsList(p, kids[q], d, KidLo(keys, lo, q), KidHi(keys, hi, q), k);
    GoodBranch(p, keys, kids, d, lo, hi);
    OthersAbsent(p, keys, kids, d, lo, hi, k, q);
    GetAround(kids, q, d, k);
  }

  /** A key that is only in child q. */
  lemma GetAround(kids: seq<FTree>, q: nat, d: nat, k: int)
    requires q < |kids| && AllShaped(kids, d) && AllShaped(kids[..q], d) && AllShaped(kids[q + 1..], d)
    requires FpLeaf.ListGet(AllLeaves(kids[..q], d), k) == None && FpLeaf.ListGet(AllLeaves(kids[q + 1..], d), k) == None
    ensures FpLeaf.ListGet(AllLeaves(kids, d), k) == FpLeaf.ListGet(Leaves(kids[q], d), k)
  {
    LeavesAround(kids, q, d);
    FpLeaf.ListGetConcat(Leaves(kids[q], d), AllLeaves(kids[q + 1..], d), k);
    FpLeaf.ListGetConcat(AllLeaves(kids[..q], d), Leaves(kids[q], d) + AllLeaves(kids[q + 1..], d), k);
  }

  // ------------------------------------------------------------------------------ recovery

  /** A subtree after an insertion, or its two halves and their separator. */
  datatype Grown = Same(t: FTree) | Pair(l: FTree, sep: int, r: FTree)

  /** `recoveryInsertInBranchNode`: the leaf with smallest key b goes to the right edge of
      the tree; a full node gets a new right sibling with a single child. */
  function RecoveryInsert(p: Params, t: FTree, d: nat, leaf: Slots, b: int): (g: Grown)
    requires Shaped(t, d) && d > 0
    ensures g.Pair? ==> g.sep == b
    decreases d
  {
    if d == 1 then AppendTo(p, t.keys, t.kids, b, LeafT(leaf))
    else AfterLast(p, t.keys, t.kids, RecoveryInsert(p, t.kids[|t.keys|], d - 1, leaf, b))
  }

  /** A new last child, in a new sibling if the node is full. */
  function AppendTo(p: Params, keys: seq<int>, kids: seq<FTree>, b: int, c: FTree): Grown {
    if |keys| == p.n then Pair(BranchT(keys, kids), b, BranchT([], [c])) else Same(BranchT(keys + [b], kids + [c]))
  }

  /** What the parent makes of the result for its last child. */
  function AfterLast(p: Params, keys: seq<int>, kids: seq<FTree>, g: Grown): Grown
    requires |kids| == |keys| + 1
  {
    match g
    case Same(c) => Same(BranchT(keys, kids[|keys| := c]))
    case Pair(l, sep, r) => AppendTo(p, keys, kids[|keys| := l], sep, r)
  }

  /** Good halves or a good whole between the bounds, with the given leaves. */
  ghost predicate GrownOk(p: Params, g: Grown, d: nat, lo: Option<int>, hi: Option<int>, leaves: seq<Slots>) {
    match g
    case Same(t) => Good(p, t, d, lo, hi) && Shaped(t, d) && Leaves(t, d) == leaves
    case Pair(l, sep, r) =>
      && Above(lo, sep) && Below(sep, hi) && Good(p, l, d, lo, Some(sep)) && Good(p, r, d, Some(sep), hi)
      && Shaped(l, d) && Shaped(r, d) && Leaves(l, d) + Leaves(r, d) == leaves
  }

  /** A new last child behind the separator b. */
  lemma AppendKid<T>(g: Bounded<T>, keys: seq<int>, kids: seq<T>, lo: Option<int>, b: int, hi: Option<int>, c: T)
    requires KeysOk(keys, lo, Some(b)) && KidsIn(g, keys, kids, lo, Some(b)) && g(c, Some(b), hi) && Above(lo, b) && Below(b, hi)
    ensures KeysOk(keys + [b], lo, hi) && KidsIn(g, keys + [b], kids + [c], lo, hi)
  {
    var keys', kids' := keys + [b], kids + [c];
    forall i | 0 <= i < |kids'| ensures g(kids'[i], KidLo(keys', lo, i), KidHi(keys', hi, i)) {
      if i < |kids| {
        assert g(kids[i], KidLo(keys, lo, i), KidHi(keys, Some(b), i));
      }
    }
  }

  /** Another last child, with another upper bound. */
  lemma SetLast<T>(g: Bounded<T>, keys: seq<int>, kids: seq<T>, lo: Option<int>, b: int, hi: Option<int>, c: T)
    requires KeysOk(keys, lo, Some(b)) && KidsIn(g, keys, kids, lo, Some(b)) && Below(b, hi) && g(c, KidLo(keys, lo, |keys|), hi)
    ensures KeysOk(keys, lo, hi) && KidsIn(g, keys, kids[|keys| := c], lo, hi)
  {
    var kids' := kids[|keys| := c];
    forall i | 0 <= i < |kids'| ensures g(kids'[i], KidLo(keys, lo, i), KidHi(keys, hi, i)) {
      if i < |keys| {
        assert g(kids[i], KidLo(keys, lo, i), KidHi(keys, Some(b), i));
      }
    }
  }

  lemma SingleKid(p: Params, c: FTree, d: nat, lo: Option<int>, hi: Option<int>)
    requires Good(p, c, d, lo, hi)
    ensures Good(p, BranchT([], [c]), d + 1, lo, hi) && Shaped(c, d) && Shaped(BranchT([], [c]), d + 1)
    ensures Leaves(BranchT([], [c]), d + 1) == Leaves(c, d)
  {
    GoodShaped(p, c, d, lo, hi);
    OneTree(c, d);
  }

  /** A branch node with a new last child. */
  lemma AppendOk(p: Params, keys: seq<int>, kids: seq<FTree>, d: nat, lo: Option<int>, b: int, hi: Option<int>, c: FTree)
    requires Good(p, BranchT(keys, kids), d + 1, lo, Some(b)) && Good(p, c, d, Some(b), hi) && Above(lo, b) && Below(b, hi)
    ensures AllShaped(kids, d) && Shaped(c, d)
    ensures GrownOk(p, AppendTo(p, keys, kids, b, c), d + 1, lo, hi, AllLeaves(kids, d) + Leaves(c, d))
  {
    GoodShaped(p, BranchT(keys, kids), d + 1, lo, Some(b));
    SingleKid(p, c, d, Some(b), hi);
    GoodBranch(p, keys, kids, d, lo, Some(b));
    if |keys| != p.n {
      AppendKid(GoodAt(p, d), keys, kids, lo, b, hi, c);
      GoodBranch(p, keys + [b], kids + [c], d, lo, hi);
      OneTree(c, d);
      LeavesConcat(kids, [c], d);
    }
  }

  /** A branch node with another last child. */
  lemma SetLastOk(p: Params, keys: seq<int>, kids: seq<FTree>, d: nat, lo: Option<int>, b: int, hi: Option<int>, c: FTree)
    requires Good(p, BranchT(keys, kids), d + 1, lo, Some(b)) && Good(p, c, d, KidLo(keys, lo, |keys|), hi) && Below(b, hi)
    ensures AllShaped(kids, d) && Shaped(c, d) && AllShaped(kids[..|keys|], d)
    ensures GrownOk(p, Same(BranchT(keys, kids[|keys| := c])), d + 1, lo, hi, AllLeaves(kids[..|keys|], d) + Leaves(c, d))
  {
    GoodShaped(p, BranchT(keys, kids), d + 1, lo, Some(b));
    GoodShaped(p, c, d, KidLo(keys, lo, |keys|), hi);
    GoodBranch(p, keys, kids, d, lo, Some(b));
    SetLast(GoodAt(p, d), keys, kids, lo, b, hi, c);
    GoodBranch(p, keys, kids[|keys| := c], d, lo, hi);
    assert kids[|keys| := c] == kids[..|keys|] + [c];
    OneTree(c, d);
    LeavesConcat(kids[..|keys|], [c], d);
  }

  /** The tree with one more leaf at its right edge. */
  lemma {:induction false} RecoveryInsertOk(p: Params, t: FTree, d: nat, leaf: Slots, lo: Option<int>, b: int, hi: Option<int>)
    requires d > 0 && Good(p, t, d, lo, Some(b)) && FpLeaf.GoodLeaf(p.h, leaf, p.m, Some(b), hi) && Above(lo, b) && Below(b, hi)
    ensures Shaped(t, d) && GrownOk(p, RecoveryInsert(p, t, d, leaf, b), d, lo, hi, Leaves(t, d) + [leaf])
    decreases d
  {
    GoodShaped(p, t, d, lo, Some(b));
    var keys, kids, last := t.keys, t.kids, |t.keys|;
    if d == 1 {
      AppendOk(p, keys, kids, 0, lo, b, hi, LeafT(leaf));
    } else {
      LastBounds(p, keys, kids, d - 1, lo, b);
      RecoveryInsertOk(p, kids[last], d - 1, leaf, KidLo(keys, lo, last), b, hi);
      RecoveryStep(p, keys, kids, d - 1, lo, b, hi, RecoveryInsert(p, kids[last], d - 1, leaf, b), leaf);
    }
  }

  lemma LastBounds(p: Params, keys: seq<int>, kids: seq<FTree>, d: nat, lo: Option<int>, b: int)
    requires Good(p, BranchT(keys, kids), d + 1, lo, Some(b)) && Above(lo, b)
    ensures Good(p, kids[|keys|], d, KidLo(keys, lo, |keys|), Some(b)) && Above(KidLo(keys, lo, |keys|), b)
  {
  }

  /** From the last child to its parent. */
  lemma RecoveryStep(p: Params, keys: seq<int>, kids: seq<FTree>, d: nat, lo: Option<int>, b: int, hi: Option<int>, g: Grown, leaf: Slots)
    requires Good(p, BranchT(keys, kids), d + 1, lo, Some(b)) && Above(lo, b) && Below(b, hi) && Shaped(kids[|keys|], d)
    requires GrownOk(p, g, d, KidLo(keys, lo, |keys|), hi, Leaves(kids[|keys|], d) + [leaf]) && (g.Pair? ==> g.sep == b)
    ensures AllShaped(kids, d)
    ensures GrownOk(p, AfterLast(p, keys, kids, g), d + 1, lo, hi, AllLeaves(kids, d) + [leaf])
  {
    GoodShaped(p, BranchT(keys, kids), d + 1, lo, Some(b));
    LastLeaves(kids, |keys|, d, leaf);
    match g
    case Same(c) => SetLastOk(p, keys, kids, d, lo, b, hi, c);
    case Pair(l, sep, r) => SplitLastOk(p, keys, kids, d, lo, b, hi, l, r);
  }

  lemma LastLeaves(kids: seq<FTree>, last: nat, d: nat, leaf: Slots)
    requires AllShaped(kids, d) && |kids| == last + 1
    ensures AllShaped(kids[..last], d) && AllLeaves(kids, d) + [leaf] == AllLeaves(kids[..last], d) + (Leaves(kids[last], d) + [leaf])
  {
    LeavesAround(kids, last, d);
    assert kids[last + 1..] == [];
  }

  lemma SplitLastOk(p: Params, keys: seq<int>, kids: seq<FTree>, d: nat, lo: Option<int>, b: int, hi: Option<int>, l: FTree, r: FTree)
    requires Good(p, BranchT(keys, kids), d + 1, lo, Some(b)) && Above(lo, b) && Below(b, hi)
    requires Good(p, l, d, KidLo(keys, lo, |keys|), Some(b)) && Good(p, r, d, Some(b), hi)
    ensures AllShaped(kids[..|keys|], d) && Shaped(l, d) && Shaped(r, d)
    ensures GrownOk(p, AppendTo(p, keys, kids[|keys| := l], b, r), d + 1, lo, hi, AllLeaves(kids[..|keys|], d) + (Leaves(l, d) + Leaves(r, d)))
  {
    SetLastSame(p, keys, kids, d, lo, b, l);
    AppendOk(p, keys, kids[|keys| := l], d, lo, b, hi, r);
    Regroup(AllLeaves(kids[..|keys|], d), Leaves(l, d), Leaves(r, d));
  }

  lemma Regroup<T>(a: seq<T>, b: seq<T>, c: seq<T>)
    ensures a + (b + c) == (a + b) + c
  {
  }

  lemma SetLastSame(p: Params, keys: seq<int>, kids: seq<FTree>, d: nat, lo: Option<int>, b: int, c: FTree)
    requires Good(p, BranchT(keys, kids), d + 1, lo, Some(b)) && Good(p, c, d, KidLo(keys, lo, |keys|), Some(b))
    ensures Good(p, BranchT(keys, kids[|keys| := c]), d + 1, lo, Some(b)) && Shaped(c, d)
    ensures AllShaped(kids[..|keys|], d) && AllShaped(kids[|keys| := c], d)
    ensures AllLeaves(kids[|keys| := c], d) == AllLeaves(kids[..|keys|], d) + Leaves(c, d)
  {
    GoodShaped(p, c, d, KidLo(keys, lo, |keys|), Some(b));
    GoodShaped(p, BranchT(keys, kids), d + 1, lo, Some(b));
    assert kids[|keys| := c] == kids[..|keys|] + [c];
    OneTree(c, d);
    LeavesConcat(kids[..|keys|], [c], d);
  }

  // ------------------------------------------------------------ leaf lists in key order

  /** All keys of a leaf are below all keys of later leaves. */
  ghost predicate Ascending(leaves: seq<Slots>)
    requires FpLeaf.AllSized(leaves)
  {
    forall i: nat :: BelowLater(leaves, i)
  }

  ghost predicate BelowLater(leaves: seq<Slots>, i: nat)
    requires FpLeaf.AllSized(leaves)
  {
    forall j, a, b :: i < j < |leaves| && leaves[i].Uses(a) && leaves[j].Uses(b) ==> leaves[i].keys[a] < leaves[j].keys[b]
  }

  ghost predicate AllGood(p: Params, leaves: seq<Slots>, lo: Option<int>, hi: Option<int>) {
    forall i :: 0 <= i < |leaves| ==> FpLeaf.GoodLeaf(p.h, leaves[i], p.m, lo, hi)
  }

  ghost predicate ListOk(p: Params, leaves: seq<Slots>, lo: Option<int>, hi: Option<int>)
    requires FpLeaf.AllSized(leaves)
  {
    AllGood(p, leaves, lo, hi) && Ascending(leaves)
  }

  lemma ConcatBelow(p: Params, a: seq<Slots>, b: seq<Slots>, lo: Option<int>, mid: int, hi: Option<int>, i: nat)
    requires FpLeaf.AllSized(a) && FpLeaf.AllSized(b) && ListOk(p, a, lo, Some(mid)) && ListOk(p, b, Some(mid), hi) && FpLeaf.AllSized(a + b)
    ensures BelowLater(a + b, i)
  {
    var all := a + b;
    forall j, x, y | i < j < |all| && all[i].Uses(x) && all[j].Uses(y) ensures all[i].keys[x] < all[j].keys[y] {
      if j < |a| {
        assert BelowLater(a, i);
      } else if i < |a| {
        assert FpLeaf.GoodLeaf(p.h, a[i], p.m, lo, Some(mid)) && FpLeaf.GoodLeaf(p.h, b[j - |a|], p.m, Some(mid), hi);
      } else {
        assert BelowLater(b, i - |a|);
      }
    }
  }

  lemma ListConcat(p: Params, a: seq<Slots>, b: seq<Slots>, lo: Option<int>, mid: int, hi: Option<int>)
    requires FpLeaf.AllSized(a) && FpLeaf.AllSized(b) && ListOk(p, a, lo, Some(mid)) && ListOk(p, b, Some(mid), hi)
    requires Above(lo, mid) && Below(mid, hi)
    ensures FpLeaf.AllSized(a + b) && ListOk(p, a + b, lo, hi)
  {
    var all := a + b;
    forall i | 0 <= i < |all| ensures FpLeaf.GoodLeaf(p.h, all[i], p.m, lo, hi) {
      if i < |a| {
        assert FpLeaf.GoodLeaf(p.h, a[i], p.m, lo, Some(mid));
      } else {
        assert FpLeaf.GoodLeaf(p.h, b[i - |a|], p.m, Some(mid), hi);
      }
    }
    forall i: nat ensures BelowLater(all, i) {
      ConcatBelow(p, a, b, lo, mid, hi, i);
    }
  }

  /** The leaves of a good tree are good and in key order. */
  lemma {:induction false} GoodList(p: Params, t: FTree, d: nat, lo: Option<int>, hi: Option<int>)
    requires Good(p, t, d, lo, hi)
    ensures Shaped(t, d) && ListOk(p, Leaves(t, d), lo, hi)
    decreases d, 0
  {
    GoodShaped(p, t, d, lo, hi);
    if t.BranchT? {
      KidsList(p, t.keys, t.kids, d - 1, lo, hi, |t.keys|);
      assert t.kids[..|t.kids|] == t.kids;
    }
  }

  lemma {:induction false} KidsList(p: Params, keys: seq<int>, kids: seq<FTree>, d: nat, lo: Option<int>, hi: Option<int>, i: nat)
    requires Good(p, BranchT(keys, kids), d + 1, lo, hi) && i < |kids|
    ensures AllShaped(kids[..i + 1], d) && ListOk(p, AllLeaves(kids[..i + 1], d), lo, KidHi(keys, hi, i))
    decreases d, 1, i
  {
    GoodList(p, kids[i], d, KidLo(keys, lo, i), KidHi(keys, hi, i));
    OneTree(kids[i], d);
    if i == 0 {
      assert kids[..1] == [kids[0]];
    } else {
      KidsList(p, keys, kids, d, lo, hi, i - 1);
      assert kids[..i + 1] == kids[..i] + [kids[i]];
      LeavesConcat(kids[..i], [kids[i]], d);
      ListConcat(p, AllLeaves(kids[..i], d), Leaves(kids[i], d), lo, keys[i - 1], KidHi(keys, hi, i));
    }
  }

  // ---------------------------------------------------------------------------- recovering

  /** The bound that leaf i of a list sets for what is before it. */
  ghost predicate NextBound(leaves: seq<Slots>, i: nat, b: Option<int>)
    requires FpLeaf.AllSized(leaves) && i <= |leaves|
  {
    if i < |leaves| then b.Some? && FpLeaf.IsMin(leaves[i], b.value) else b.None?
  }

  ghost predicate RootOk(p: Params, t: FTree, d: nat) {
    Good(p, t, d, None, None) || (t.LeafT? && d == 0 && FpLeaf.LeafOk(p.h, t.leaf, p.m))
  }

  /** The smallest key of a leaf, found with `findMinKeyPos`. */
  method MinKey(p: Params, leaf: Slots) returns (b: int)
    requires ParamsOk(p) && FpLeaf.LeafOk(p.h, leaf, p.m) && FpLeaf.NonEmpty(leaf)
    ensures FpLeaf.IsMin(leaf, b)
  {
    var pos := FpLeaf.MinKeyPos(leaf, p.m);
    b := leaf.keys[pos];
    ghost var i :| leaf.Uses(i);
    assert FpLeaf.Stored(leaf, b, pos);
  }

  /** A leaf of an ordered list lies between its own smallest key and that of the next. */
  lemma LeafBetween(p: Params, leaves: seq<Slots>, i: nat, b: int, next: Option<int>)
    requires FpLeaf.AllSized(leaves) && ListOk(p, leaves, None, None) && i < |leaves|
    requires FpLeaf.IsMin(leaves[i], b) && NextBound(leaves, i + 1, next)
    ensures FpLeaf.GoodLeaf(p.h, leaves[i], p.m, Some(b), next) && FpLeaf.GoodLeaf(p.h, leaves[i], p.m, None, next) && Below(b, next)
  {
    assert FpLeaf.GoodLeaf(p.h, leaves[i], p.m, None, None) && BelowLater(leaves, i);
    if next.Some? {
      var y :| FpLeaf.Stored(leaves[i + 1], next.value, y);
      forall x | leaves[i].Uses(x) ensures leaves[i].keys[x] < next.value {
        assert leaves[i + 1].Uses(y);
      }
    }
  }

  ghost function MinOf(p: Params, leaf: Slots): (b: int)
    requires FpLeaf.LeafOk(p.h, leaf, p.m) && FpLeaf.NonEmpty(leaf)
    ensures FpLeaf.IsMin(leaf, b)
  {
    MinExists(p, leaf);
    var b :| FpLeaf.IsMin(leaf, b);
    b
  }

  lemma MinExists(p: Params, leaf: Slots)
    requires FpLeaf.LeafOk(p.h, leaf, p.m) && FpLeaf.NonEmpty(leaf)
    ensures exists b :: FpLeaf.IsMin(leaf, b)
  {
    var i :| leaf.Uses(i);
    var j := LeastUpTo(p, leaf, p.m, i);
    assert FpLeaf.Stored(leaf, leaf.keys[j], j);
    assert FpLeaf.IsMin(leaf, leaf.keys[j]);
  }

  lemma {:induction false} LeastUpTo(p: Params, leaf: Slots, n: nat, i: int) returns (j: int)
    requires FpLeaf.LeafOk(p.h, leaf, p.m) && n <= p.m && leaf.Uses(i)
    ensures leaf.Uses(j) && leaf.keys[j] <= leaf.keys[i] && forall x :: 0 <= x < n && leaf.Uses(x) ==> leaf.keys[j] <= leaf.keys[x]
    decreases n
  {
    if n == 0 {
      j := i;
    } else {
      j := LeastUpTo(p, leaf, n - 1, i);
      if leaf.Uses(n - 1) && leaf.keys[n - 1] < leaf.keys[j] {
        j := n - 1;
      }
    }
  }

  /** `recover`: new branch nodes over the leaves of a list. */
  method Recover(p: Params, leaves: seq<Slots>) returns (t: FTree, d: nat)
    requires ParamsOk(p) && FpLeaf.AllSized(leaves) && leaves != []
    requires |leaves| > 1 ==> ListOk(p, leaves, None, None)
    requires |leaves| == 1 ==> FpLeaf.LeafOk(p.h, leaves[0], p.m)
    ensures RootOk(p, t, d) && Shaped(t, d) && Leaves(t, d) == leaves
  {
    if |leaves| == 1 {
      assert leaves == [leaves[0]];
      return LeafT(leaves[0]), 0;
    }
    t, d := BranchT([], [LeafT(leaves[0])]), 1;
    ghost var bound := BoundAt(p, leaves, 1);
    FirstLeaf(p, leaves, bound);
    var i := 1;
    while i < |leaves|
      invariant 0 < i <= |leaves| && Recovered(p, leaves, t, d, i, bound)
    {
      t, d, bound := RecoverLeaf(p, leaves, t, d, i, bound);
      i := i + 1;
    }
    assert leaves[..i] == leaves;
  }

  ghost function BoundAt(p: Params, leaves: seq<Slots>, i: nat): (b: Option<int>)
    requires FpLeaf.AllSized(leaves) && ListOk(p, leaves, None, None) && i <= |leaves|
    ensures NextBound(leaves, i, b)
  {
    if i == |leaves| then None else assert FpLeaf.GoodLeaf(p.h, leaves[i], p.m, None, None); Some(MinOf(p, leaves[i]))
  }

  /** A good tree over the first i leaves of a list. */
  ghost predicate Recovered(p: Params, leaves: seq<Slots>, t: FTree, d: nat, i: nat, bound: Option<int>)
    requires FpLeaf.AllSized(leaves) && i <= |leaves|
  {
    d > 0 && NextBound(leaves, i, bound) && Good(p, t, d, None, bound) && Shaped(t, d) && Leaves(t, d) == leaves[..i]
  }

  /** `recoveryInsert` of leaf i. */
  method RecoverLeaf(p: Params, leaves: seq<Slots>, t: FTree, d: nat, i: nat, ghost bound: Option<int>)
    returns (t': FTree, d': nat, ghost next: Option<int>)
    requires ParamsOk(p) && FpLeaf.AllSized(leaves) && ListOk(p, leaves, None, None) && i < |leaves| && Recovered(p, leaves, t, d, i, bound)
    ensures Recovered(p, leaves, t', d', i + 1, next)
  {
    assert FpLeaf.GoodLeaf(p.h, leaves[i], p.m, None, None);
    var b := MinKey(p, leaves[i]);
    MinUnique(leaves[i], b, bound.value);
    next := BoundAt(p, leaves, i + 1);
    LeafBetween(p, leaves, i, b, next);
    RecoveryInsertOk(p, t, d, leaves[i], None, b, next);
    var g := RecoveryInsert(p, t, d, leaves[i], b);
    assert leaves[..i + 1] == leaves[..i] + [leaves[i]];
    RootGrows(p, g, d, next, leaves[..i + 1]);
    if g.Pair? {
      t', d' := BranchT([g.sep], [g.l, g.r]), d + 1;
    } else {
      t', d' := g.t, d;
    }
  }

  lemma MinUnique(leaf: Slots, a: int, b: int)
    requires |leaf.keys| == |leaf.bits| && FpLeaf.IsMin(leaf, a) && FpLeaf.IsMin(leaf, b)
    ensures a == b
  {
    var i :| FpLeaf.Stored(leaf, a, i);
    var j :| FpLeaf.Stored(leaf, b, j);
  }

  lemma FirstLeaf(p: Params, leaves: seq<Slots>, bound: Option<int>)
    requires FpLeaf.AllSized(leaves) && ListOk(p, leaves, None, None) && |leaves| > 1 && NextBound(leaves, 1, bound)
    ensures var t := BranchT([], [LeafT(leaves[0])]);
            Good(p, t, 1, None, bound) && Shaped(t, 1) && Leaves(t, 1) == leaves[..1]
  {
    LeafBetween(p, leaves, 0, MinOf(p, leaves[0]), bound);
    SingleKid(p, LeafT(leaves[0]), 0, None, bound);
    assert leaves[..1] == [leaves[0]];
  }

  /** A split of the root makes a new root. */
  lemma RootGrows(p: Params, g: Grown, d: nat, hi: Option<int>, leaves: seq<Slots>)
    requires ParamsOk(p) && GrownOk(p, g, d, None, hi, leaves)
    ensures g.Pair? ==> var t := BranchT([g.sep], [g.l, g.r]); Good(p, t, d + 1, None, hi) && Shaped(t, d + 1) && Leaves(t, d + 1) == leaves
  {
    if g.Pair? {
      var kids := [g.l, g.r];
      forall i | 0 <= i < 2 ensures Good(p, kids[i], d, KidLo([g.sep], None, i), KidHi([g.sep], hi, i)) {
      }
      assert kids == [g.l] + [g.r];
      OneTree(g.l, d);
      OneTree(g.r, d);
      LeavesConcat([g.l], [g.r], d);
    }
  }

  lemma RootLookup(p: Params, t: FTree, d: nat, k: int)
    requires RootOk(p, t, d) && Shaped(t, d)
    ensures Lookup(t, d, k) == FpLeaf.ListGet(Leaves(t, d), k)
  {
    if Good(p, t, d, None, None) {
      LookupIsList(p, t, d, None, None, k);
    } else {
      assert [t.leaf][1..] == [];
      assert FpLeaf.ListGet([], k) == None;
    }
  }

  lemma LeavesOfRoot(p: Params, t: FTree, d: nat)
    requires RootOk(p, t, d) && Shaped(t, d)
    ensures Leaves(t, d) != [] && (|Leaves(t, d)| > 1 ==> ListOk(p, Leaves(t, d), None, None))
    ensures |Leaves(t, d)| == 1 ==> FpLeaf.LeafOk(p.h, Leaves(t, d)[0], p.m)
  {
    if Good(p, t, d, None, None) {
      GoodList(p, t, d, None, None);
      SomeLeaf(t, d);
    }
  }

  lemma {:induction false} SomeLeaf(t: FTree, d: nat)
    requires Shaped(t, d)
    ensures Leaves(t, d) != []
    decreases d
  {
    if t.BranchT? {
      SomeLeaf(t.kids[0], d - 1);
    }
  }
}
