/** Insertion into the B+-tree: it keeps the tree well formed and puts the pair
    into the map of entries. */
module PbInsert {
  import opened Wrappers
  import opened PbTree

  function InsertAt<T>(s: seq<T>, i: nat, x: T): seq<T>
    requires i <= |s|
  {
    s[..i] + [x] + s[i..]
  }

  /** Where the parts of a sequence go when an element is inserted at p. */
  lemma CutInsert<T>(s: seq<T>, p: nat, x: T, j: nat)
    requires p <= |s| && j <= |s| + 1
    ensures p < j ==> InsertAt(s, p, x)[..j] == InsertAt(s[..j - 1], p, x) && InsertAt(s, p, x)[j..] == s[j - 1..]
    ensures p >= j ==> InsertAt(s, p, x)[..j] == s[..j] && InsertAt(s, p, x)[j..] == InsertAt(s[j..], p - j, x)
  {
  }

  lemma InsertedAt<T>(s: seq<T>, p: nat, x: T, i: nat)
    requires p <= |s| && i <= |s|
    ensures InsertAt(s, p, x)[i] == if i < p then s[i] else if i == p then x else s[i - 1]
  {
  }

  /** A subtree after an insertion, or its two halves and their separator. */
  datatype Result = One(t: Tree) | Two(l: Tree, sep: int, r: Tree)

  // ----------------------------------------------------------------- leaf nodes

  /** `insertInLeafNode`: replace, insert, or split and then insert. */
  function InsertLeaf(o: Order, keys: seq<int>, vals: seq<int>, k: int, v: int): Result
    requires |keys| == |vals| && OrderOk(o)
  {
    var p := LowerBound(keys, k);
    if p < |keys| && keys[p] == k then One(Leaf(keys, vals[p := v]))
    else if |keys| != o.m then One(Leaf(InsertAt(keys, p, k), InsertAt(vals, p, v)))
    else SplitLeafAndAdd(keys, vals, o.LeafMiddle(), p, k, v)
  }

  /** `splitLeafNode` at mid, and the new pair goes to the half that covers p. */
  function SplitLeafAndAdd(keys: seq<int>, vals: seq<int>, mid: nat, p: nat, k: int, v: int): Result
    requires |keys| == |vals| && p <= |keys| && mid < |keys|
  {
    if p < mid then
      Two(Leaf(InsertAt(keys[..mid], p, k), InsertAt(vals[..mid], p, v)), keys[mid], Leaf(keys[mid..], vals[mid..]))
    else
      var ks, vs := InsertAt(keys[mid..], p - mid, k), InsertAt(vals[mid..], p - mid, v);
      Two(Leaf(keys[..mid], vals[..mid]), ks[0], Leaf(ks, vs))
  }

  lemma PairsConcat(a: seq<int>, b: seq<int>, c: seq<int>, d: seq<int>)
    requires |a| == |c| && |b| == |d|
    ensures Pairs(a + b, c + d) == Pairs(a, c) + Pairs(b, d)
  {
  }

  /** Putting into the pairs of a sorted leaf is inserting or replacing at the position found. */
  lemma {:induction false} PutPairs(keys: seq<int>, vals: seq<int>, k: int, v: int)
    requires |keys| == |vals|
    ensures var p := LowerBound(keys, k);
            Put(Pairs(keys, vals), k, v) ==
            if p < |keys| && keys[p] == k then Pairs(keys, vals[p := v])
            else Pairs(InsertAt(keys, p, k), InsertAt(vals, p, v))
  {
    var p := LowerBound(keys, k);
    if keys == [] {
      assert Put([], k, v) == [(k, v)];
    } else {
      var es := Pairs(keys, vals);
      assert es[1..] == Pairs(keys[1..], vals[1..]);
      if keys[0] < k {
        PutPairs(keys[1..], vals[1..], k, v);
        PairsConsed(keys, vals, p, k, v);
      }
    }
  }

  lemma PairsConsed(keys: seq<int>, vals: seq<int>, p: nat, k: int, v: int)
    requires |keys| == |vals| && 0 < p <= |keys|
    ensures p < |keys| ==> Pairs(keys, vals[p := v]) == [(keys[0], vals[0])] + Pairs(keys[1..], vals[1..][p - 1 := v])
    ensures Pairs(InsertAt(keys, p, k), InsertAt(vals, p, v)) ==
            [(keys[0], vals[0])] + Pairs(InsertAt(keys[1..], p - 1, k), InsertAt(vals[1..], p - 1, v))
  {
    assert InsertAt(keys, p, k) == [keys[0]] + InsertAt(keys[1..], p - 1, k);
    assert InsertAt(vals, p, v) == [vals[0]] + InsertAt(vals[1..], p - 1, v);
  }

  lemma SortedInsert(keys: seq<int>, k: int)
    requires Sorted(keys)
    ensures var p := LowerBound(keys, k);
            !(p < |keys| && keys[p] == k) ==> Sorted(InsertAt(keys, p, k))
  {
  }

  /** Cutting a leaf in two. */
  lemma CutLeaf(keys: seq<int>, vals: seq<int>, lo: Option<int>, hi: Option<int>, j: nat)
    requires LeafOk(keys, vals, lo, hi) && 0 < j < |keys|
    ensures Above(lo, keys[j]) && Below(keys[j], hi)
    ensures LeafOk(keys[..j], vals[..j], lo, Some(keys[j])) && LeafOk(keys[j..], vals[j..], Some(keys[j]), hi)
    ensures Pairs(keys[..j], vals[..j]) + Pairs(keys[j..], vals[j..]) == Pairs(keys, vals)
  {
    assert keys[0] < keys[j];
  }

  /** The insertion into a full leaf is an insertion into an oversized leaf that is
      then cut in two at or next to the middle. */
  lemma SplitIsCut(keys: seq<int>, vals: seq<int>, mid: nat, p: nat, k: int, v: int)
    requires |keys| == |vals| && p <= |keys| && mid < |keys|
    ensures var j := if p < mid then mid + 1 else mid;
            var ks, vs := InsertAt(keys, p, k), InsertAt(vals, p, v);
            SplitLeafAndAdd(keys, vals, mid, p, k, v) == Two(Leaf(ks[..j], vs[..j]), ks[j], Leaf(ks[j..], vs[j..]))
  {
    var j := if p < mid then mid + 1 else mid;
    CutInsert(keys, p, k, j);
    CutInsert(vals, p, v, j);
    InsertedAt(keys, p, k, j);
  }

  // --------------------------------------------------------------- branch nodes

  /** A branch node with child p replaced by two children. */
  function AddKid(keys: seq<int>, kids: seq<Tree>, p: nat, sep: int, l: Tree, r: Tree): Tree
    requires p <= |keys| && p < |kids|
  {
    Branch(InsertAt(keys, p, sep), AddKids(kids, p, l, r))
  }

  function AddKids<T>(kids: seq<T>, p: nat, l: T, r: T): seq<T>
    requires p < |kids|
  {
    InsertAt(kids[p := r], p, l)
  }

  /** `insertInBranchNode` after the insertion into child p split it: add the new
      separator, splitting this node first if it is full. */
  function AddSplit(o: Order, keys: seq<int>, kids: seq<Tree>, p: nat, sep: int, l: Tree, r: Tree, k: int): Result
    requires p <= |keys| && |kids| == |keys| + 1 && OrderOk(o)
  {
    if |keys| != o.n() then One(AddKid(keys, kids, p, sep, l, r))
    else
      var mid := o.BranchMiddle();
      SplitAndAdd(keys, kids, if sep > keys[mid] then mid + 1 else mid, sep, l, r, k)
  }

  /** `splitBranchNode` at mid, and the new child goes to the half that covers k. */
  function SplitAndAdd(keys: seq<int>, kids: seq<Tree>, mid: nat, sep: int, l: Tree, r: Tree, k: int): Result
    requires |kids| == |keys| + 1 && 0 < mid <= |keys|
  {
    var up := keys[mid - 1];
    var lk, lc := keys[..mid - 1], kids[..mid];
    var rk, rc := keys[mid..], kids[mid..];
    if k < up then Two(AddKid(lk, lc, UpperBound(lk, k), sep, l, r), up, Branch(rk, rc))
    else Two(Branch(lk, lc), up, AddKid(rk, rc, UpperBound(rk, k), sep, l, r))
  }

  function Insert(o: Order, t: Tree, d: nat, k: int, v: int): Result
    requires Shaped(t, d) && OrderOk(o)
    decreases d
  {
    match t
    case Leaf(keys, vals) => InsertLeaf(o, keys, vals, k, v)
    case Branch(keys, kids) =>
      var p := UpperBound(keys, k);
      AfterKid(o, keys, kids, p, Insert(o, kids[p], d - 1, k, v), k)
  }

  /** `insert`: a split of the root makes a new root and a deeper tree. */
  function InsertRoot(o: Order, t: Tree, d: nat, k: int, v: int): (Tree, nat)
    requires Shaped(t, d) && OrderOk(o)
  {
    RootOf(Insert(o, t, d, k, v), d)
  }

  /** Bounds of the children of a branch node in which child p became two. The
      property g of a child and its bounds is kept abstract. */
  lemma AddKidKeeps(g: Judgement, keys: seq<int>, kids: seq<Tree>, lo: Option<int>, hi: Option<int>,
                    p: nat, sep: int, l: Tree, r: Tree)
    requires |kids| == |keys| + 1 && KidsAre(g, keys, kids, lo, hi) && p <= |keys|
    requires g(l, KidLo(keys, lo, p), Some(sep)) && g(r, Some(sep), KidHi(keys, hi, p))
    ensures var t := AddKid(keys, kids, p, sep, l, r);
            |t.kids| == |t.keys| + 1 && KidsAre(g, t.keys, t.kids, lo, hi)
  {
    var t := AddKid(keys, kids, p, sep, l, r);
    forall i | 0 <= i < |t.kids| ensures g(t.kids[i], KidLo(t.keys, lo, i), KidHi(t.keys, hi, i)) {
      InsertedAt(kids[p := r], p, l, i);
      if i < |t.keys| { InsertedAt(keys, p, sep, i); }
      if i > 0 { InsertedAt(keys, p, sep, i - 1); }
      if i < p {
        assert g(kids[i], KidLo(keys, lo, i), KidHi(keys, hi, i));
      } else if i > p + 1 {
        assert g(kids[i - 1], KidLo(keys, lo, i - 1), KidHi(keys, hi, i - 1));
      }
    }
  }

  lemma AddKidGood(o: Order, keys: seq<int>, kids: seq<Tree>, d: nat, lo: Option<int>, hi: Option<int>,
                   p: nat, sep: int, l: Tree, r: Tree)
    requires |kids| == |keys| + 1 && KeysOk(keys, lo, hi) && KidsGood(o, keys, kids, d, lo, hi) && p <= |keys|
    requires Good(o, l, d, KidLo(keys, lo, p), Some(sep)) && Good(o, r, d, Some(sep), KidHi(keys, hi, p))
    requires Above(KidLo(keys, lo, p), sep) && Below(sep, KidHi(keys, hi, p)) && Above(lo, sep) && Below(sep, hi)
    ensures var t := AddKid(keys, kids, p, sep, l, r);
            && |t.kids| == |t.keys| + 1 && KeysOk(t.keys, lo, hi) && KidsGood(o, t.keys, t.kids, d, lo, hi)
  {
    AddKidKeeps(GoodAt(o, d), keys, kids, lo, hi, p, sep, l, r);
    AddKeyOk(keys, lo, hi, p, sep);
  }

  lemma AddKeyOk(keys: seq<int>, lo: Option<int>, hi: Option<int>, p: nat, sep: int)
    requires KeysOk(keys, lo, hi) && p <= |keys| && Above(lo, sep) && Below(sep, hi)
    requires (p > 0 ==> keys[p - 1] < sep) && (p < |keys| ==> sep < keys[p])
    ensures KeysOk(InsertAt(keys, p, sep), lo, hi)
  {
  }

  /** Cutting the children of a branch node at key j. */
  lemma CutKidsKeeps(g: Judgement, keys: seq<int>, kids: seq<Tree>, lo: Option<int>, hi: Option<int>, j: nat)
    requires |kids| == |keys| + 1 && KidsAre(g, keys, kids, lo, hi) && j < |keys|
    ensures KidsAre(g, keys[..j], kids[..j + 1], lo, Some(keys[j]))
    ensures KidsAre(g, keys[j + 1..], kids[j + 1..], Some(keys[j]), hi)
  {
    forall i | 0 <= i <= j ensures g(kids[..j + 1][i], KidLo(keys[..j], lo, i), KidHi(keys[..j], Some(keys[j]), i)) {
      assert g(kids[i], KidLo(keys, lo, i), KidHi(keys, hi, i));
    }
    var rk, rc := keys[j + 1..], kids[j + 1..];
    forall i | 0 <= i < |rc| ensures g(rc[i], KidLo(rk, Some(keys[j]), i), KidHi(rk, hi, i)) {
      var q := i + j + 1;
      assert g(kids[q], KidLo(keys, lo, q), KidHi(keys, hi, q));
    }
  }

  lemma CutKids(o: Order, keys: seq<int>, kids: seq<Tree>, d: nat, lo: Option<int>, hi: Option<int>, j: nat)
    requires |kids| == |keys| + 1 && KeysOk(keys, lo, hi) && KidsGood(o, keys, kids, d, lo, hi) && j < |keys|
    ensures Above(lo, keys[j]) && Below(keys[j], hi)
    ensures KeysOk(keys[..j], lo, Some(keys[j])) && KidsGood(o, keys[..j], kids[..j + 1], d, lo, Some(keys[j]))
    ensures KeysOk(keys[j + 1..], Some(keys[j]), hi) && KidsGood(o, keys[j + 1..], kids[j + 1..], d, Some(keys[j]), hi)
  {
    CutKidsKeeps(GoodAt(o, d), keys, kids, lo, hi, j);
  }

  lemma UpperBoundUnique(keys: seq<int>, k: int, p: nat)
    requires Sorted(keys) && p <= |keys| && (p > 0 ==> keys[p - 1] <= k) && (p < |keys| ==> k < keys[p])
    ensures UpperBound(keys, k) == p
  {
  }

  /** The child that became two ends up in the left half. */
  lemma CutAddKidLeft<T>(keys: seq<int>, kids: seq<T>, p: nat, sep: int, l: T, r: T, mid: nat)
    requires |kids| == |keys| + 1 && p < mid <= |keys|
    ensures var ks, cs := InsertAt(keys, p, sep), AddKids(kids, p, l, r);
            && |ks| > mid && |cs| > mid
            && InsertAt(keys[..mid - 1], p, sep) == ks[..mid] && AddKids(kids[..mid], p, l, r) == cs[..mid + 1]
            && ks[mid] == keys[mid - 1] && ks[mid + 1..] == keys[mid..] && cs[mid + 1..] == kids[mid..]
  {
    CutInsert(keys, p, sep, mid);
    CutInsert(keys, p, sep, mid + 1);
    InsertedAt(keys, p, sep, mid);
    CutInsert(kids[p := r], p, l, mid + 1);
    assert kids[p := r][..mid] == kids[..mid][p := r] && kids[p := r][mid..] == kids[mid..];
  }

  /** Or in the right half. */
  lemma CutAddKidRight<T>(keys: seq<int>, kids: seq<T>, p: nat, sep: int, l: T, r: T, mid: nat)
    requires |kids| == |keys| + 1 && 0 < mid <= p <= |keys|
    ensures var ks, cs := InsertAt(keys, p, sep), AddKids(kids, p, l, r);
            && |ks| >= mid && |cs| >= mid
            && ks[..mid - 1] == keys[..mid - 1] && cs[..mid] == kids[..mid] && ks[mid - 1] == keys[mid - 1]
            && InsertAt(keys[mid..], p - mid, sep) == ks[mid..] && AddKids(kids[mid..], p - mid, l, r) == cs[mid..]
  {
    CutInsert(keys, p, sep, mid);
    CutInsert(keys, p, sep, mid - 1);
    InsertedAt(keys, p, sep, mid - 1);
    CutInsert(kids[p := r], p, l, mid);
    assert kids[p := r][..mid] == kids[..mid] && kids[p := r][mid..] == kids[mid..][p - mid := r];
  }

  function Cut(t: Tree, j: nat): Result
    requires t.Branch? && j < |t.keys| && |t.kids| == |t.keys| + 1
  {
    Two(Branch(t.keys[..j], t.kids[..j + 1]), t.keys[j], Branch(t.keys[j + 1..], t.kids[j + 1..]))
  }

  lemma SplitAndAddLeft(keys: seq<int>, kids: seq<Tree>, mid: nat, sep: int, l: Tree, r: Tree, k: int, p: nat)
    requires |kids| == |keys| + 1 && p < mid <= |keys| && Sorted(keys) && p == UpperBound(keys, k)
    ensures SplitAndAdd(keys, kids, mid, sep, l, r, k) == Cut(AddKid(keys, kids, p, sep, l, r), mid)
  {
    var lk := keys[..mid - 1];
    assert UpperBound(lk, k) == p && k < keys[mid - 1] by { UpperBoundUnique(lk, k, p); }
    CutAddKidLeft(keys, kids, p, sep, l, r, mid);
  }

  lemma SplitAndAddRight(keys: seq<int>, kids: seq<Tree>, mid: nat, sep: int, l: Tree, r: Tree, k: int, p: nat)
    requires |kids| == |keys| + 1 && 0 < mid <= p <= |keys| && Sorted(keys) && p == UpperBound(keys, k)
    ensures SplitAndAdd(keys, kids, mid, sep, l, r, k) == Cut(AddKid(keys, kids, p, sep, l, r), mid - 1)
  {
    var rk := keys[mid..];
    assert UpperBound(rk, k) == p - mid && keys[mid - 1] <= k by { UpperBoundUnique(rk, k, p - mid); }
    CutAddKidRight(keys, kids, p, sep, l, r, mid);
  }

  /** Splitting a branch node and then adding the child is adding the child and
      then cutting. */
  lemma SplitAndAddIsCut(keys: seq<int>, kids: seq<Tree>, mid: nat, sep: int, l: Tree, r: Tree, k: int)
    requires |kids| == |keys| + 1 && 0 < mid <= |keys| && Sorted(keys)
    ensures var p := UpperBound(keys, k);
            SplitAndAdd(keys, kids, mid, sep, l, r, k) ==
            Cut(AddKid(keys, kids, p, sep, l, r), if p < mid then mid else mid - 1)
  {
    var p := UpperBound(keys, k);
    if p < mid {
      SplitAndAddLeft(keys, kids, mid, sep, l, r, k, p);
    } else {
      SplitAndAddRight(keys, kids, mid, sep, l, r, k, p);
    }
  }

  /** The point at which a full branch node splits because its child p did. */
  function SplitPoint(o: Order, p: nat): (mid: nat)
    requires OrderOk(o)
    ensures o.half <= mid <= o.half + 1
  {
    if p > o.half then o.half + 1 else o.half
  }

  lemma AddSplitPoint(o: Order, keys: seq<int>, kids: seq<Tree>, p: nat, sep: int, l: Tree, r: Tree, k: int)
    requires |kids| == |keys| + 1 && |keys| == o.n() && OrderOk(o) && Sorted(keys) && p <= |keys|
    requires (p > 0 ==> keys[p - 1] < sep) && (p < |keys| ==> sep < keys[p])
    ensures AddSplit(o, keys, kids, p, sep, l, r, k) == SplitAndAdd(keys, kids, SplitPoint(o, p), sep, l, r, k)
  {
    SeparatorSide(keys, p, sep, o.half);
  }

  /** A separator that belongs at position p is above key h exactly when p is. */
  lemma SeparatorSide(keys: seq<int>, p: nat, sep: int, h: nat)
    requires Sorted(keys) && p <= |keys| && h < |keys|
    requires (p > 0 ==> keys[p - 1] < sep) && (p < |keys| ==> sep < keys[p])
    ensures sep > keys[h] <==> p > h
  {
  }

  // ------------------------------------------------------------ the main theorem

  /** A result of height d inside [lo, hi) that holds exactly the entries es. */
  ghost predicate ResultOk(o: Order, res: Result, d: nat, lo: Option<int>, hi: Option<int>, es: seq<Entry>) {
    match res
    case One(t) => Good(o, t, d, lo, hi) && Shaped(t, d) && Entries(t, d) == es
    case Two(l, sep, r) =>
      && Above(lo, sep) && Below(sep, hi)
      && Good(o, l, d, lo, Some(sep)) && Good(o, r, d, Some(sep), hi)
      && Shaped(l, d) && Shaped(r, d) && Entries(l, d) + Entries(r, d) == es
  }

  lemma InsertedLeafOk(keys: seq<int>, vals: seq<int>, lo: Option<int>, hi: Option<int>, k: int, v: int)
    requires LeafOk(keys, vals, lo, hi) && AtLeast(lo, k) && Below(k, hi)
    ensures var p := LowerBound(keys, k);
            !(p < |keys| && keys[p] == k) ==> LeafOk(InsertAt(keys, p, k), InsertAt(vals, p, v), lo, hi)
  {
    SortedInsert(keys, k);
  }

  lemma SplitLeafOk(o: Order, ks: seq<int>, vs: seq<int>, lo: Option<int>, hi: Option<int>, j: nat)
    requires OrderOk(o) && LeafOk(ks, vs, lo, hi) && |ks| == o.m + 1 && o.LeafMiddle() <= j <= o.LeafMiddle() + 1
    ensures ResultOk(o, Two(Leaf(ks[..j], vs[..j]), ks[j], Leaf(ks[j..], vs[j..])), 0, lo, hi, Pairs(ks, vs))
  {
    CutLeaf(ks, vs, lo, hi, j);
  }

  lemma ReplaceLeafOk(o: Order, keys: seq<int>, vals: seq<int>, lo: Option<int>, hi: Option<int>, k: int, v: int)
    requires OrderOk(o) && LeafOk(keys, vals, lo, hi) && o.LeafMin() <= |keys| <= o.m
    requires LowerBound(keys, k) < |keys| && keys[LowerBound(keys, k)] == k
    ensures ResultOk(o, InsertLeaf(o, keys, vals, k, v), 0, lo, hi, Put(Pairs(keys, vals), k, v))
  {
    PutPairs(keys, vals, k, v);
  }

  lemma PlainLeafOk(o: Order, keys: seq<int>, vals: seq<int>, lo: Option<int>, hi: Option<int>, k: int, v: int)
    requires OrderOk(o) && LeafOk(keys, vals, lo, hi) && o.LeafMin() <= |keys| < o.m && AtLeast(lo, k) && Below(k, hi)
    requires LowerBound(keys, k) < |keys| ==> keys[LowerBound(keys, k)] != k
    ensures ResultOk(o, InsertLeaf(o, keys, vals, k, v), 0, lo, hi, Put(Pairs(keys, vals), k, v))
  {
    PutPairs(keys, vals, k, v);
    InsertedLeafOk(keys, vals, lo, hi, k, v);
  }

  lemma FullLeafOk(o: Order, keys: seq<int>, vals: seq<int>, lo: Option<int>, hi: Option<int>, k: int, v: int)
    requires OrderOk(o) && LeafOk(keys, vals, lo, hi) && |keys| == o.m && AtLeast(lo, k) && Below(k, hi)
    requires LowerBound(keys, k) < |keys| ==> keys[LowerBound(keys, k)] != k
    ensures ResultOk(o, InsertLeaf(o, keys, vals, k, v), 0, lo, hi, Put(Pairs(keys, vals), k, v))
  {
    var p := LowerBound(keys, k);
    var mid := o.LeafMiddle();
    var ks, vs := InsertAt(keys, p, k), InsertAt(vals, p, v);
    assert Put(Pairs(keys, vals), k, v) == Pairs(ks, vs) by { PutPairs(keys, vals, k, v); }
    assert LeafOk(ks, vs, lo, hi) by { InsertedLeafOk(keys, vals, lo, hi, k, v); }
    SplitIsCut(keys, vals, mid, p, k, v);
    SplitLeafOk(o, ks, vs, lo, hi, if p < mid then mid + 1 else mid);
  }

  lemma InsertLeafOk(o: Order, keys: seq<int>, vals: seq<int>, lo: Option<int>, hi: Option<int>, k: int, v: int)
    requires OrderOk(o) && LeafOk(keys, vals, lo, hi) && o.LeafMin() <= |keys| <= o.m && AtLeast(lo, k) && Below(k, hi)
    ensures ResultOk(o, InsertLeaf(o, keys, vals, k, v), 0, lo, hi, Put(Pairs(keys, vals), k, v))
  {
    var p := LowerBound(keys, k);
    if p < |keys| && keys[p] == k {
      ReplaceLeafOk(o, keys, vals, lo, hi, k, v);
    } else if |keys| < o.m {
      PlainLeafOk(o, keys, vals, lo, hi, k, v);
    } else {
      FullLeafOk(o, keys, vals, lo, hi, k, v);
    }
  }

  /** Cutting an oversized branch node. */
  lemma CutOk(o: Order, t: Tree, d: nat, lo: Option<int>, hi: Option<int>, j: nat)
    requires OrderOk(o) && t.Branch? && |t.kids| == |t.keys| + 1 && |t.keys| == o.n() + 1 && o.half - 1 <= j <= o.half
    requires KeysOk(t.keys, lo, hi) && KidsGood(o, t.keys, t.kids, d, lo, hi)
    ensures AllShaped(t.kids, d) && ResultOk(o, Cut(t, j), d + 1, lo, hi, AllEntries(t.kids, d))
  {
    CutKids(o, t.keys, t.kids, d, lo, hi, j);
    KidsShaped(o, t.keys, t.kids, d, lo, hi);
    EntriesConcat(t.kids[..j + 1], t.kids[j + 1..], d);
    assert t.kids[..j + 1] + t.kids[j + 1..] == t.kids;
    var res := Cut(t, j);
    assert Good(o, res.l, d + 1, lo, Some(res.sep)) && Good(o, res.r, d + 1, Some(res.sep), hi);
  }

  /** The entries of a branch node in which child p became two. */
  lemma AddKidEntries(keys: seq<int>, kids: seq<Tree>, d: nat, p: nat, sep: int, l: Tree, r: Tree)
    requires |kids| == |keys| + 1 && p <= |keys| && AllShaped(kids, d) && Shaped(l, d) && Shaped(r, d)
    ensures AllShaped(kids[..p], d) && AllShaped(kids[p + 1..], d)
    ensures var t := AddKid(keys, kids, p, sep, l, r);
            && AllShaped(t.kids, d)
            && AllEntries(t.kids, d) == AllEntries(kids[..p], d) + (Entries(l, d) + Entries(r, d)) + AllEntries(kids[p + 1..], d)
  {
    var t := AddKid(keys, kids, p, sep, l, r);
    var a, b := kids[..p], kids[p + 1..];
    assert t.kids == a + ([l, r] + b);
    OneEntry(l, d);
    OneEntry(r, d);
    EntriesConcat([l], [r], d);
    assert [l] + [r] == [l, r];
    EntriesConcat([l, r], b, d);
    EntriesConcat(a, [l, r] + b, d);
  }

  /** Adding the halves of a split child, with a split of this node if it is full. */
  lemma AddSplitOk(o: Order, keys: seq<int>, kids: seq<Tree>, d: nat, lo: Option<int>, hi: Option<int>, p: nat, sep: int, l: Tree, r: Tree,
                   k: int)
    requires OrderOk(o) && |kids| == |keys| + 1 && KeysOk(keys, lo, hi) && KidsGood(o, keys, kids, d, lo, hi)
    requires o.half - 1 <= |keys| <= o.n() && p == UpperBound(keys, k)
    requires Good(o, l, d, KidLo(keys, lo, p), Some(sep)) && Good(o, r, d, Some(sep), KidHi(keys, hi, p))
    requires Above(KidLo(keys, lo, p), sep) && Below(sep, KidHi(keys, hi, p))
    ensures var t := AddKid(keys, kids, p, sep, l, r);
            AllShaped(t.kids, d) && ResultOk(o, AddSplit(o, keys, kids, p, sep, l, r, k), d + 1, lo, hi, AllEntries(t.kids, d))
  {
    var t := AddKid(keys, kids, p, sep, l, r);
    BetweenBounds(keys, lo, hi, p, sep);
    AddKidGood(o, keys, kids, d, lo, hi, p, sep, l, r);
    KidsShaped(o, t.keys, t.kids, d, lo, hi);
    if |keys| == o.n() {
      AddSplitPoint(o, keys, kids, p, sep, l, r, k);
      var mid := SplitPoint(o, p);
      SplitAndAddIsCut(keys, kids, mid, sep, l, r, k);
      CutOk(o, t, d, lo, hi, if p < mid then mid else mid - 1);
    } else {
      assert Good(o, t, d + 1, lo, hi);
    }
  }

  /** What lies between the bounds of a child lies between those of its parent. */
  lemma BetweenBounds(keys: seq<int>, lo: Option<int>, hi: Option<int>, p: nat, sep: int)
    requires KeysOk(keys, lo, hi) && p <= |keys|
    requires Above(KidLo(keys, lo, p), sep) && Below(sep, KidHi(keys, hi, p))
    ensures Above(lo, sep) && Below(sep, hi)
  {
  }

  /** Replacing child p by another tree with the same bounds. */
  lemma SetKidGood(o: Order, keys: seq<int>, kids: seq<Tree>, d: nat, lo: Option<int>, hi: Option<int>, p: nat, c: Tree)
    requires |kids| == |keys| + 1 && KidsGood(o, keys, kids, d, lo, hi) && p < |kids|
    requires Good(o, c, d, KidLo(keys, lo, p), KidHi(keys, hi, p))
    ensures KidsGood(o, keys, kids[p := c], d, lo, hi)
  {
    assert KidsAre(GoodAt(o, d), keys, kids, lo, hi);
    SetKidKeeps(GoodAt(o, d), keys, kids, lo, hi, p, c);
  }

  lemma SetKidKeeps(g: Judgement, keys: seq<int>, kids: seq<Tree>, lo: Option<int>, hi: Option<int>, p: nat, c: Tree)
    requires |kids| == |keys| + 1 && KidsAre(g, keys, kids, lo, hi) && p < |kids| && g(c, KidLo(keys, lo, p), KidHi(keys, hi, p))
    ensures KidsAre(g, keys, kids[p := c], lo, hi)
  {
  }

  lemma SetKidEntries(kids: seq<Tree>, d: nat, p: nat, c: Tree)
    requires AllShaped(kids, d) && p < |kids| && Shaped(c, d)
    ensures AllShaped(kids[..p], d) && AllShaped(kids[p + 1..], d) && AllShaped(kids[p := c], d)
    ensures AllEntries(kids[p := c], d) == AllEntries(kids[..p], d) + Entries(c, d) + AllEntries(kids[p + 1..], d)
  {
    var kids' := kids[p := c];
    EntriesAround(kids', p, d);
    assert kids'[..p] == kids[..p] && kids'[p + 1..] == kids[p + 1..];
  }

  /** The step from child p to its parent when the child did not split. */
  lemma KidReplacedOk(o: Order, keys: seq<int>, kids: seq<Tree>, d: nat, lo: Option<int>, hi: Option<int>, k: int, v: int, p: nat, c: Tree)
    requires |kids| == |keys| + 1 && KeysOk(keys, lo, hi) && KidsGood(o, keys, kids, d, lo, hi)
    requires AtLeast(lo, k) && Below(k, hi) && p == UpperBound(keys, k)
    requires Shaped(kids[p], d) && ResultOk(o, One(c), d, KidLo(keys, lo, p), KidHi(keys, hi, p), Put(Entries(kids[p], d), k, v))
    ensures AllShaped(kids, d) && AllShaped(kids[p := c], d)
    ensures KidsGood(o, keys, kids[p := c], d, lo, hi)
    ensures AllEntries(kids[p := c], d) == Put(AllEntries(kids, d), k, v)
  {
    Focus(o, keys, kids, d, lo, hi, k);
    PutAround(AllEntries(kids[..p], d), Entries(kids[p], d), AllEntries(kids[p + 1..], d), k, v);
    SetKidGood(o, keys, kids, d, lo, hi, p, c);
    SetKidEntries(kids, d, p, c);
  }

  /** And when it did. */
  lemma KidSplitOk(o: Order, keys: seq<int>, kids: seq<Tree>, d: nat, lo: Option<int>, hi: Option<int>, k: int, v: int, p: nat, res: Result)
    requires |kids| == |keys| + 1 && KeysOk(keys, lo, hi) && KidsGood(o, keys, kids, d, lo, hi)
    requires AtLeast(lo, k) && Below(k, hi) && p == UpperBound(keys, k) && res.Two?
    requires Shaped(kids[p], d) && ResultOk(o, res, d, KidLo(keys, lo, p), KidHi(keys, hi, p), Put(Entries(kids[p], d), k, v))
    ensures var t := AddKid(keys, kids, p, res.sep, res.l, res.r);
            && AllShaped(kids, d) && AllShaped(t.kids, d) && |t.kids| == |t.keys| + 1
            && KeysOk(t.keys, lo, hi) && KidsGood(o, t.keys, t.kids, d, lo, hi)
            && AllEntries(t.kids, d) == Put(AllEntries(kids, d), k, v)
  {
    Focus(o, keys, kids, d, lo, hi, k);
    PutAround(AllEntries(kids[..p], d), Entries(kids[p], d), AllEntries(kids[p + 1..], d), k, v);
    AddKidEntries(keys, kids, d, p, res.sep, res.l, res.r);
    BetweenBounds(keys, lo, hi, p, res.sep);
    AddKidGood(o, keys, kids, d, lo, hi, p, res.sep, res.l, res.r);
  }

  /** What `insertInBranchNode` makes of the result for child p. */
  function AfterKid(o: Order, keys: seq<int>, kids: seq<Tree>, p: nat, res: Result, k: int): Result
    requires |kids| == |keys| + 1 && p <= |keys| && OrderOk(o)
  {
    match res
    case One(c) => One(Branch(keys, kids[p := c]))
    case Two(l, sep, r) => AddSplit(o, keys, kids, p, sep, l, r, k)
  }

  lemma AfterKidOk(o: Order, keys: seq<int>, kids: seq<Tree>, d: nat, lo: Option<int>, hi: Option<int>, k: int, v: int, p: nat, res: Result)
    requires OrderOk(o) && |kids| == |keys| + 1 && KeysOk(keys, lo, hi) && KidsGood(o, keys, kids, d, lo, hi)
    requires AtLeast(lo, k) && Below(k, hi) && o.half - 1 <= |keys| <= o.n() && p == UpperBound(keys, k)
    requires Shaped(kids[p], d) && ResultOk(o, res, d, KidLo(keys, lo, p), KidHi(keys, hi, p), Put(Entries(kids[p], d), k, v))
    ensures AllShaped(kids, d)
    ensures ResultOk(o, AfterKid(o, keys, kids, p, res, k), d + 1, lo, hi, Put(AllEntries(kids, d), k, v))
  {
    if res.Two? {
      KidSplitOk(o, keys, kids, d, lo, hi, k, v, p, res);
      AddSplitOk(o, keys, kids, d, lo, hi, p, res.sep, res.l, res.r, k);
    } else {
      KidReplacedOk(o, keys, kids, d, lo, hi, k, v, p, res.t);
      assert Good(o, Branch(keys, kids[p := res.t]), d + 1, lo, hi);
    }
  }

  /** Insertion into a good subtree yields one or two good subtrees that together
      hold its entries with the pair put in. */
  lemma {:induction false} InsertOk(o: Order, t: Tree, d: nat, lo: Option<int>, hi: Option<int>, k: int, v: int)
    requires OrderOk(o) && Good(o, t, d, lo, hi) && AtLeast(lo, k) && Below(k, hi)
    ensures Shaped(t, d) && ResultOk(o, Insert(o, t, d, k, v), d, lo, hi, Put(Entries(t, d), k, v))
    decreases d, 0
  {
    GoodShaped(o, t, d, lo, hi);
    match t
    case Leaf(keys, vals) => InsertLeafOk(o, keys, vals, lo, hi, k, v);
    case Branch(keys, kids) => InsertBranchOk(o, keys, kids, d - 1, lo, hi, k, v);
  }

  lemma {:induction false} InsertBranchOk(o: Order, keys: seq<int>, kids: seq<Tree>, d: nat, lo: Option<int>, hi: Option<int>, k: int, v: int)
    requires OrderOk(o) && |kids| == |keys| + 1 && KeysOk(keys, lo, hi) && KidsGood(o, keys, kids, d, lo, hi)
    requires AtLeast(lo, k) && Below(k, hi) && o.half - 1 <= |keys| <= o.n()
    ensures AllShaped(kids, d)
    ensures var p := UpperBound(keys, k);
            ResultOk(o, AfterKid(o, keys, kids, p, Insert(o, kids[p], d, k, v), k), d + 1, lo, hi, Put(AllEntries(kids, d), k, v))
    decreases d, 2
  {
    var res := InsertIntoKid(o, keys, kids, d, lo, hi, k, v);
    AfterKidOk(o, keys, kids, d, lo, hi, k, v, UpperBound(keys, k), res);
  }

  /** The insertion into the child that covers k. */
  lemma {:induction false} InsertIntoKid(o: Order, keys: seq<int>, kids: seq<Tree>, d: nat, lo: Option<int>, hi: Option<int>, k: int, v: int)
    returns (res: Result)
    requires OrderOk(o) && |kids| == |keys| + 1 && KeysOk(keys, lo, hi) && KidsGood(o, keys, kids, d, lo, hi)
    requires AtLeast(lo, k) && Below(k, hi)
    ensures var p := UpperBound(keys, k);
            && Shaped(kids[p], d) && res == Insert(o, kids[p], d, k, v)
            && ResultOk(o, res, d, KidLo(keys, lo, p), KidHi(keys, hi, p), Put(Entries(kids[p], d), k, v))
    decreases d, 1
  {
    var p := UpperBound(keys, k);
    ChildGood(o, keys, kids, d, lo, hi, k);
    InsertOk(o, kids[p], d, KidLo(keys, lo, p), KidHi(keys, hi, p), k, v);
    res := Insert(o, kids[p], d, k, v);
  }

  lemma ChildGood(o: Order, keys: seq<int>, kids: seq<Tree>, d: nat, lo: Option<int>, hi: Option<int>, k: int)
    requires |kids| == |keys| + 1 && KeysOk(keys, lo, hi) && KidsGood(o, keys, kids, d, lo, hi)
    requires AtLeast(lo, k) && Below(k, hi)
    ensures var p := UpperBound(keys, k);
            && Good(o, kids[p], d, KidLo(keys, lo, p), KidHi(keys, hi, p)) && Shaped(kids[p], d)
            && AtLeast(KidLo(keys, lo, p), k) && Below(k, KidHi(keys, hi, p))
  {
    Focus(o, keys, kids, d, lo, hi, k);
  }

  /** Insertion into the whole tree: well-formedness is kept and the pair is put
      into the entries. */
  lemma InsertRootOk(o: Order, t: Tree, d: nat, k: int, v: int)
    requires OrderOk(o) && RootOk(o, t, d)
    ensures Shaped(t, d)
    ensures var (t', d') := InsertRoot(o, t, d, k, v);
            RootOk(o, t', d') && Shaped(t', d') && Entries(t', d') == Put(Entries(t, d), k, v)
  {
    RootShaped(o, t, d);
    match t
    case Leaf(keys, vals) => InsertRootLeaf(o, keys, vals, k, v);
    case Branch(keys, kids) => InsertRootBranch(o, keys, kids, d - 1, k, v);
  }

  lemma NewRootOk(o: Order, res: Result, d: nat, es: seq<Entry>)
    requires OrderOk(o) && res.Two? && ResultOk(o, res, d, None, None, es)
    ensures var t := Branch([res.sep], [res.l, res.r]);
            RootOk(o, t, d + 1) && Shaped(t, d + 1) && Entries(t, d + 1) == es
  {
    var kids := [res.l, res.r];
    OneEntry(res.l, d);
    OneEntry(res.r, d);
    assert kids == [res.l] + [res.r];
    EntriesConcat([res.l], [res.r], d);
    forall i | 0 <= i < 2 ensures Good(o, kids[i], d, KidLo([res.sep], None, i), KidHi([res.sep], None, i)) {
    }
  }

  lemma InsertRootLeaf(o: Order, keys: seq<int>, vals: seq<int>, k: int, v: int)
    requires OrderOk(o) && RootOk(o, Leaf(keys, vals), 0)
    ensures var (t', d') := InsertRoot(o, Leaf(keys, vals), 0, k, v);
            RootOk(o, t', d') && Shaped(t', d') && Entries(t', d') == Put(Pairs(keys, vals), k, v)
  {
    if |keys| == o.m {
      InsertLeafOk(o, keys, vals, None, None, k, v);
      if InsertLeaf(o, keys, vals, k, v).Two? {
        NewRootOk(o, InsertLeaf(o, keys, vals, k, v), 0, Put(Pairs(keys, vals), k, v));
      }
    } else {
      PutPairs(keys, vals, k, v);
      InsertedLeafOk(keys, vals, None, None, k, v);
    }
  }

  lemma InsertRootBranch(o: Order, keys: seq<int>, kids: seq<Tree>, d: nat, k: int, v: int)
    requires OrderOk(o) && RootOk(o, Branch(keys, kids), d + 1)
    ensures Shaped(Branch(keys, kids), d + 1)
    ensures var (t', d') := InsertRoot(o, Branch(keys, kids), d + 1, k, v);
            RootOk(o, t', d') && Shaped(t', d') && Entries(t', d') == Put(AllEntries(kids, d), k, v)
  {
    RootShaped(o, Branch(keys, kids), d + 1);
    var res := InsertIntoKid(o, keys, kids, d, None, None, k, v);
    if |keys| >= o.half - 1 {
      FullRootOk(o, keys, kids, d, k, v, UpperBound(keys, k), res);
    } else {
      SmallRootOk(o, keys, kids, d, k, v, UpperBound(keys, k), res);
    }
  }

  /** The root after the insertion into its child p, with a split if it was full. */
  function RootAfter(o: Order, keys: seq<int>, kids: seq<Tree>, d: nat, p: nat, res: Result, k: int): (Tree, nat)
    requires |kids| == |keys| + 1 && p <= |keys| && OrderOk(o)
  {
    RootOf(AfterKid(o, keys, kids, p, res, k), d + 1)
  }

  lemma FullRootOk(o: Order, keys: seq<int>, kids: seq<Tree>, d: nat, k: int, v: int, p: nat, res: Result)
    requires OrderOk(o) && |kids| == |keys| + 1 && KeysOk(keys, None, None) && KidsGood(o, keys, kids, d, None, None)
    requires AllShaped(kids, d) && o.half - 1 <= |keys| <= o.n() && p == UpperBound(keys, k)
    requires ResultOk(o, res, d, KidLo(keys, None, p), KidHi(keys, None, p), Put(Entries(kids[p], d), k, v))
    ensures var (t', d') := RootAfter(o, keys, kids, d, p, res, k);
            RootOk(o, t', d') && Shaped(t', d') && Entries(t', d') == Put(AllEntries(kids, d), k, v)
  {
    AfterKidOk(o, keys, kids, d, None, None, k, v, p, res);
    RootFromResult(o, AfterKid(o, keys, kids, p, res, k), d + 1, Put(AllEntries(kids, d), k, v));
  }

  function RootOf(res: Result, d: nat): (Tree, nat) {
    match res
    case One(t) => (t, d)
    case Two(l, sep, r) => (Branch([sep], [l, r]), d + 1)
  }

  lemma RootFromResult(o: Order, res: Result, d: nat, es: seq<Entry>)
    requires OrderOk(o) && ResultOk(o, res, d, None, None, es)
    ensures var (t', d') := RootOf(res, d);
            RootOk(o, t', d') && Shaped(t', d') && Entries(t', d') == es
  {
    if res.Two? {
      NewRootOk(o, res, d, es);
    } else {
      GoodIsRoot(o, res.t, d);
    }
  }

  lemma GoodIsRoot(o: Order, t: Tree, d: nat)
    requires OrderOk(o) && Good(o, t, d, None, None)
    ensures RootOk(o, t, d)
  {
  }

  lemma RootBranchOk(o: Order, keys: seq<int>, kids: seq<Tree>, d: nat)
    requires |kids| == |keys| + 1 && KeysOk(keys, None, None) && KidsGood(o, keys, kids, d, None, None) && 1 <= |keys| <= o.n()
    ensures RootOk(o, Branch(keys, kids), d + 1) && Shaped(Branch(keys, kids), d + 1)
  {
    KidsShaped(o, keys, kids, d, None, None);
  }

  lemma SmallRootOk(o: Order, keys: seq<int>, kids: seq<Tree>, d: nat, k: int, v: int, p: nat, res: Result)
    requires OrderOk(o) && |kids| == |keys| + 1 && KeysOk(keys, None, None) && KidsGood(o, keys, kids, d, None, None)
    requires AllShaped(kids, d) && 1 <= |keys| < o.half - 1 && p == UpperBound(keys, k)
    requires ResultOk(o, res, d, KidLo(keys, None, p), KidHi(keys, None, p), Put(Entries(kids[p], d), k, v))
    ensures var (t', d') := RootAfter(o, keys, kids, d, p, res, k);
            RootOk(o, t', d') && Shaped(t', d') && Entries(t', d') == Put(AllEntries(kids, d), k, v)
  {
    if res.Two? {
      KidSplitOk(o, keys, kids, d, None, None, k, v, p, res);
      var t := AddKid(keys, kids, p, res.sep, res.l, res.r);
      RootBranchOk(o, t.keys, t.kids, d);
    } else {
      KidReplacedOk(o, keys, kids, d, None, None, k, v, p, res.t);
      RootBranchOk(o, keys, kids[p := res.t], d);
    }
  }
}
