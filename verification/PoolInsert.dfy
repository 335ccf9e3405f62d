/** Search in a node, and what an insertion makes of the nodes of a tree. */
module PoolInsert {
  import opened Wrappers
  import opened PbTree
  import opened PbInsert
  import opened PbErase
  import opened NodePool
  import opened LeafChain

  // ------------------------------------------------------------- search in a node

  /** `binarySearch<false>` */
  method SearchLeaf(keys: seq<int>, k: int) returns (pos: nat)
    requires Sorted(keys)
    ensures pos == LowerBound(keys, k)
  {
    pos := 0;
    var l, r := 0, |keys| - 1;
    while l <= r
      invariant 0 <= l <= r + 1 <= |keys|
      invariant forall i :: 0 <= i < l ==> keys[i] < k
      invariant forall i :: r < i < |keys| ==> k < keys[i]
      invariant l > r ==> pos == l
    {
      pos := (l + r) / 2;
      if keys[pos] == k {
        LowerBoundUnique(keys, k, pos);
        return;
      }
      if keys[pos] < k {
        pos := pos + 1;
        l := pos;
      } else {
        r := pos - 1;
      }
    }
    LowerBoundUnique(keys, k, pos);
  }

  /** `binarySearch<true>` */
  method SearchBranch(keys: seq<int>, k: int) returns (pos: nat)
    requires Sorted(keys)
    ensures pos == UpperBound(keys, k)
  {
    pos := 0;
    var l, r := 0, |keys| - 1;
    while l <= r
      invariant 0 <= l <= r + 1 <= |keys|
      invariant forall i :: 0 <= i < l ==> keys[i] < k
      invariant forall i :: r < i < |keys| ==> k < keys[i]
      invariant l > r ==> pos == l
    {
      pos := (l + r) / 2;
      if keys[pos] == k {
        pos := pos + 1;
        UpperBoundUnique(keys, k, pos);
        return;
      }
      if keys[pos] < k {
        pos := pos + 1;
        l := pos;
      } else {
        r := pos - 1;
      }
    }
    UpperBoundUnique(keys, k, pos);
  }

  lemma LowerBoundUnique(keys: seq<int>, k: int, p: nat)
    requires Sorted(keys) && p <= |keys| && (p > 0 ==> keys[p - 1] < k) && (p < |keys| ==> k <= keys[p])
    ensures LowerBound(keys, k) == p
  {
  }

  // -------------------------------------------------------------------- insertion

  /** Nodes with sorted keys and within their capacity. */
  ghost predicate Neat(o: Order, t: Tree, d: nat)
    decreases d
  {
    && Shaped(t, d) && Sorted(t.keys) && |t.keys| <= Most(o, d)
    && (t.Branch? ==> forall i :: 0 <= i < |t.kids| ==> Neat(o, t.kids[i], d - 1))
  }

  lemma {:induction false} GoodNeat(o: Order, t: Tree, d: nat, lo: Option<int>, hi: Option<int>)
    requires Good(o, t, d, lo, hi)
    ensures Neat(o, t, d)
    decreases d
  {
    GoodShaped(o, t, d, lo, hi);
    if t.Branch? {
      forall i | 0 <= i < |t.kids| ensures Neat(o, t.kids[i], d - 1) {
        GoodNeat(o, t.kids[i], d - 1, KidLo(t.keys, lo, i), KidHi(t.keys, hi, i));
      }
    }
  }

  lemma RootNeat(o: Order, t: Tree, d: nat)
    requires RootOk(o, t, d)
    ensures Neat(o, t, d)
  {
    RootShaped(o, t, d);
    if t.Branch? {
      forall i | 0 <= i < |t.kids| ensures Neat(o, t.kids[i], d - 1) {
        GoodNeat(o, t.kids[i], d - 1, KidLo(t.keys, None, i), KidHi(t.keys, None, i));
      }
    }
  }

  function Parts(res: Result): seq<Tree> {
    match res
    case One(t) => [t]
    case Two(l, sep, r) => [l, r]
  }

  /** What a split tells the parent: the separator and the new right node. */
  datatype Split = Split(sep: int, right: nat)

  /** The key at which a full branch node is cut once its child p has become two. */
  function CutKey(o: Order, keys: seq<int>, p: nat, sep: int): (j: nat)
    requires OrderOk(o) && |keys| == o.n()
    ensures o.half - 1 <= j <= o.half + 1
  {
    var mid := if sep > keys[o.BranchMiddle()] then o.BranchMiddle() + 1 else o.BranchMiddle();
    if p < mid then mid else mid - 1
  }

  lemma AddKidsReplaces<T>(kids: seq<T>, p: nat, l: T, r: T)
    requires p < |kids|
    ensures AddKids(kids, p, l, r) == Replace(kids, p, p + 1, [l, r])
  {
  }

  lemma TopsReplaced(kids: seq<Shape>, i: nat, j: nat, mid: seq<Shape>)
    requires i <= j <= |kids|
    ensures Tops(Replace(kids, i, j, mid)) == Replace(Tops(kids), i, j, Tops(mid))
  {
  }

  /** The addresses of the children once child p has become two. */
  lemma TopsAdded(kids: seq<Shape>, p: nat, l: Shape, r: Shape)
    requires p < |kids| && l.id == kids[p].id
    ensures AddKids(Tops(kids), p, l.id, r.id) == Tops(Replace(kids, p, p + 1, [l, r]))
  {
    TopsReplaced(kids, p, p + 1, [l, r]);
    AddKidsReplaces(Tops(kids), p, l.id, r.id);
    assert Tops([l, r]) == [l.id, r.id];
  }

  lemma TopsCut(kids: seq<Shape>, j: nat)
    requires j <= |kids|
    ensures Tops(kids)[..j] == Tops(kids[..j]) && Tops(kids)[j..] == Tops(kids[j..])
  {
  }

  /** A branch node whose child p has become two. */
  function Added(node: Node, p: nat, split: Split): Node
    requires node.BranchNode? && |node.kids| == |node.keys| + 1 && p <= |node.keys|
  {
    BranchNode(InsertAt(node.keys, p, split.sep), AddKids(node.kids, p, node.kids[p], split.right))
  }

  /** The halves of a branch node cut at key j. */
  function LeftOf(node: Node, j: nat): Node
    requires node.BranchNode? && |node.kids| == |node.keys| + 1 && j < |node.keys|
  {
    BranchNode(node.keys[..j], node.kids[..j + 1])
  }

  function RightOf(node: Node, j: nat): Node
    requires node.BranchNode? && |node.kids| == |node.keys| + 1 && j < |node.keys|
  {
    BranchNode(node.keys[j + 1..], node.kids[j + 1..])
  }

  /** Adding the new child to the left half of a split node gives the left half of
      the node with the new child. */
  lemma AddedToLeft(node: Node, p: nat, split: Split, k: int, mid: nat)
    requires node.BranchNode? && |node.kids| == |node.keys| + 1 && p < mid <= |node.keys|
    requires Sorted(node.keys) && p == UpperBound(node.keys, k)
    ensures var l, full := LeftOf(node, mid - 1), Added(node, p, split);
            && k < node.keys[mid - 1] && Added(l, UpperBound(l.keys, k), split) == LeftOf(full, mid)
            && full.keys[mid] == node.keys[mid - 1] && RightOf(node, mid - 1) == RightOf(full, mid)
  {
    UpperBoundUnique(node.keys[..mid - 1], k, p);
    CutAddKidLeft(node.keys, node.kids, p, split.sep, node.kids[p], split.right, mid);
  }

  lemma AddedToRight(node: Node, p: nat, split: Split, k: int, mid: nat)
    requires node.BranchNode? && |node.kids| == |node.keys| + 1 && 0 < mid <= p <= |node.keys|
    requires Sorted(node.keys) && p == UpperBound(node.keys, k)
    ensures var r, full := RightOf(node, mid - 1), Added(node, p, split);
            && k >= node.keys[mid - 1] && Added(r, UpperBound(r.keys, k), split) == RightOf(full, mid - 1)
            && full.keys[mid - 1] == node.keys[mid - 1] && LeftOf(node, mid - 1) == LeftOf(full, mid - 1)
  {
    UpperBoundUnique(node.keys[mid..], k, p - mid);
    CutAddKidRight(node.keys, node.kids, p, split.sep, node.kids[p], split.right, mid);
  }

  lemma HalvesSorted(node: Node, j: nat)
    requires node.BranchNode? && |node.kids| == |node.keys| + 1 && j < |node.keys| && Sorted(node.keys)
    ensures Sorted(LeftOf(node, j).keys) && Sorted(RightOf(node, j).keys)
  {
  }

  /** A full branch node takes a child by splitting first. */
  ghost predicate SplitAdd(o: Order, h: Pool, h': Pool, id: nat, other: nat, p: nat, split: Split, up: Option<Split>)
    requires OrderOk(o) && id in h && h[id].BranchNode?
    requires |h[id].kids| == |h[id].keys| + 1 && |h[id].keys| == o.n() && p <= |h[id].keys|
  {
    var node, j := Added(h[id], p, split), CutKey(o, h[id].keys, p, split.sep);
    up == Some(Split(node.keys[j], other)) && h' == h[id := LeftOf(node, j)][other := RightOf(node, j)]
  }

  /** A branch node takes a child. */
  ghost predicate ChildAdded(o: Order, h: Pool, h': Pool, id: nat, p: nat, split: Split, up: Option<Split>, top: nat, top': nat)
    requires OrderOk(o) && id in h && h[id].BranchNode?
    requires |h[id].kids| == |h[id].keys| + 1 && |h[id].keys| <= o.n() && p <= |h[id].keys|
  {
    if |h[id].keys| != o.n() then up == None && top' == top && h' == h[id := Added(h[id], p, split)]
    else top' == top + 1 && SplitAdd(o, h, h', id, top, p, split, up)
  }

  /** The new child goes where the search for k leads. */
  method AddTo(node: Node, split: Split, k: int) returns (node': Node)
    requires node.BranchNode? && |node.kids| == |node.keys| + 1 && Sorted(node.keys)
    ensures node' == Added(node, UpperBound(node.keys, k), split)
  {
    var pos := SearchBranch(node.keys, k);
    node' := Added(node, pos, split);
  }

  /** `splitBranchNode` */
  method SplitBranch(o: Order, node: Node, sep: int) returns (l: Node, r: Node, mid: nat)
    requires OrderOk(o) && node.BranchNode? && |node.kids| == |node.keys| + 1 && |node.keys| == o.n() && Sorted(node.keys)
    ensures mid == if sep > node.keys[o.half] then o.half + 1 else o.half
    ensures l == LeftOf(node, mid - 1) && r == RightOf(node, mid - 1)
    ensures Sorted(l.keys) && Sorted(r.keys)
  {
    mid := o.BranchMiddle();
    if sep > node.keys[mid] {
      mid := mid + 1;
    }
    HalvesSorted(node, mid - 1);
    l, r := LeftOf(node, mid - 1), RightOf(node, mid - 1);
  }

  /** A full branch node takes a new child: the result is the node with the new
      child, cut in two. */
  method SplitAround(o: Order, node: Node, p: nat, split: Split, k: int) returns (l: Node, r: Node, sep: int)
    requires OrderOk(o) && node.BranchNode? && |node.kids| == |node.keys| + 1 && |node.keys| == o.n()
    requires Sorted(node.keys) && p == UpperBound(node.keys, k)
    ensures var full, j := Added(node, p, split), CutKey(o, node.keys, p, split.sep);
            l == LeftOf(full, j) && r == RightOf(full, j) && sep == full.keys[j]
  {
    var mid;
    l, r, mid := SplitBranch(o, node, split.sep);
    sep := node.keys[mid - 1];
    ghost var full, j := Added(node, p, split), CutKey(o, node.keys, p, split.sep);
    assert j == if p < mid then mid else mid - 1;
    if p < mid {
      AddedToLeft(node, p, split, k, mid);
    } else {
      AddedToRight(node, p, split, k, mid);
    }
    if k < sep {
      l := AddTo(l, split, k);
      assert l == LeftOf(full, j) && r == RightOf(full, j);
    } else {
      r := AddTo(r, split, k);
      assert l == LeftOf(full, j) && r == RightOf(full, j);
    }
  }

  // --------------------------------------------- from a child to its parent, inserting

  /** The result of the insertion into child p, seen from the parent. */
  lemma KidInserted(h: Pool, h': Pool, id: nat, kids: seq<Shape>, keys: seq<int>, ts: seq<Tree>, p: nat,
                    out: seq<Shape>, ts': seq<Tree>, top: nat, top': nat)
    requires Rep(h, BranchAt(id, kids), Branch(keys, ts)) && Single([BranchAt(id, kids)], top) && p < |kids|
    requires Became(h, h', [kids[p]], out, ts', top, top')
    ensures id in h' && h'[id] == BranchNode(keys, Tops(kids)) && id < top
    ensures Became(h, h', kids, Replace(kids, p, p + 1, out), Replace(ts, p, p + 1, ts'), top, top')
  {
    BranchRep(h, id, kids, keys, ts);
    SingleKids(id, kids, top);
    assert [kids[p]] == kids[p..p + 1];
    CountSplit(kids, p, p + 1, id);
    assert Same(h, h', id);
    Inside(h, h', kids, ts, p, p + 1, out, ts', top, top');
  }

  /** The child did not split. */
  lemma KidStayed(h: Pool, h': Pool, id: nat, kids: seq<Shape>, keys: seq<int>, ts: seq<Tree>, p: nat, c: Shape, t: Tree, top: nat, top': nat)
    requires Rep(h, BranchAt(id, kids), Branch(keys, ts)) && Single([BranchAt(id, kids)], top) && p < |kids|
    requires Became(h, h', [kids[p]], [c], [t], top, top') && c.id == kids[p].id
    ensures Became(h, h', [BranchAt(id, kids)], [BranchAt(id, Replace(kids, p, p + 1, [c]))], [Branch(keys, ts[p := t])], top, top')
  {
    KidInserted(h, h', id, kids, keys, ts, p, [c], [t], top, top');
    var after := Replace(kids, p, p + 1, [c]);
    assert ts[p := t] == Replace(ts, p, p + 1, [t]);
    assert Tops(after) == Tops(kids);
    ParentSet(h, h', h', id, kids, after, keys, ts[p := t], top, top');
  }

  /** The child split and its parent had room. */
  lemma KidAdded(h: Pool, h1: Pool, h2: Pool, id: nat, kids: seq<Shape>, keys: seq<int>, ts: seq<Tree>, p: nat,
                 out: seq<Shape>, lt: Tree, sep: int, rt: Tree, top: nat, top': nat)
    requires Rep(h, BranchAt(id, kids), Branch(keys, ts)) && Single([BranchAt(id, kids)], top) && p < |kids| == |keys| + 1
    requires Became(h, h1, [kids[p]], out, [lt, rt], top, top') && |out| == 2 && out[0].id == kids[p].id
    requires id in h1 && h1[id] == BranchNode(keys, Tops(kids)) && h2 == h1[id := Added(h1[id], p, Split(sep, out[1].id))]
    ensures Became(h, h2, [BranchAt(id, kids)], [BranchAt(id, Replace(kids, p, p + 1, out))], [AddKid(keys, ts, p, sep, lt, rt)], top, top')
  {
    KidInserted(h, h1, id, kids, keys, ts, p, out, [lt, rt], top, top');
    assert out == [out[0], out[1]];
    TopsAdded(kids, p, out[0], out[1]);
    AddKidsReplaces(ts, p, lt, rt);
    ParentSet(h, h1, h2, id, kids, Replace(kids, p, p + 1, out), InsertAt(keys, p, sep), Replace(ts, p, p + 1, [lt, rt]), top, top');
  }

  lemma SplitNodes(o: Order, h: Pool, h': Pool, id: nat, kids: seq<Shape>, keys: seq<int>, p: nat, out: seq<Shape>, sep: int,
                   up: Option<Split>, other: nat, j: nat)
    requires OrderOk(o) && p < |kids| == |keys| + 1 && |keys| == o.n() && |out| == 2 && out[0].id == kids[p].id
    requires id in h && h[id] == BranchNode(keys, Tops(kids)) && SplitAdd(o, h, h', id, other, p, Split(sep, out[1].id), up)
    requires j == CutKey(o, keys, p, sep)
    ensures var after, full := Replace(kids, p, p + 1, out), InsertAt(keys, p, sep);
            && up == Some(Split(full[j], other))
            && h' == h[id := BranchNode(full[..j], Tops(after[..j + 1]))][other := BranchNode(full[j + 1..], Tops(after[j + 1..]))]
  {
    assert out == [out[0], out[1]];
    TopsAdded(kids, p, out[0], out[1]);
    TopsCut(Replace(kids, p, p + 1, out), j + 1);
  }

  lemma CutAdded(keys: seq<int>, ts: seq<Tree>, p: nat, sep: int, lt: Tree, rt: Tree, j: nat)
    requires p < |ts| == |keys| + 1 && j <= |keys|
    ensures var after, full := Replace(ts, p, p + 1, [lt, rt]), InsertAt(keys, p, sep);
            Cut(AddKid(keys, ts, p, sep, lt, rt), j) == Two(Branch(full[..j], after[..j + 1]), full[j], Branch(full[j + 1..], after[j + 1..]))
  {
    AddKidsReplaces(ts, p, lt, rt);
  }

  /** The child split and so did its parent. */
  lemma KidSplit(o: Order, h: Pool, h1: Pool, h2: Pool, id: nat, kids: seq<Shape>, keys: seq<int>, ts: seq<Tree>, p: nat,
                 out: seq<Shape>, lt: Tree, sep: int, rt: Tree, up: Option<Split>, top: nat, top': nat)
    requires OrderOk(o) && |keys| == o.n()
    requires Rep(h, BranchAt(id, kids), Branch(keys, ts)) && Single([BranchAt(id, kids)], top) && p < |kids| == |keys| + 1
    requires Became(h, h1, [kids[p]], out, [lt, rt], top, top') && |out| == 2 && out[0].id == kids[p].id
    requires id in h1 && h1[id] == BranchNode(keys, Tops(kids))
    requires SplitAdd(o, h1, h2, id, top', p, Split(sep, out[1].id), up)
    ensures var j := CutKey(o, keys, p, sep);
            var after, after', full := Replace(kids, p, p + 1, out), Replace(ts, p, p + 1, [lt, rt]), InsertAt(keys, p, sep);
            && Became(h, h2, [BranchAt(id, kids)], Halves(id, top', after, j + 1),
                      [Branch(full[..j], after'[..j + 1]), Branch(full[j + 1..], after'[j + 1..])], top, top' + 1)
            && up == Some(Split(full[j], top'))
  {
    KidInserted(h, h1, id, kids, keys, ts, p, out, [lt, rt], top, top');
    var after, after', full := Replace(kids, p, p + 1, out), Replace(ts, p, p + 1, [lt, rt]), InsertAt(keys, p, sep);
    var j := CutKey(o, keys, p, sep);
    SplitNodes(o, h1, h2, id, kids, keys, p, out, sep, up, top', j);
    ParentSplit(h, h1, h2, id, kids, after, full[..j], full[j + 1..], j + 1, after', top, top');
  }

  function Halves(id: nat, other: nat, kids: seq<Shape>, j: nat): seq<Shape>
    requires j <= |kids|
  {
    [BranchAt(id, kids[..j]), BranchAt(other, kids[j..])]
  }

  /** What the caller learns about the result of an insertion. */
  ghost predicate Reported(up: Option<Split>, id: nat, out: seq<Shape>, res: Result) {
    match res
    case One(t) => up == None && |out| == 1 && out[0].id == id
    case Two(l, sep, r) => |out| == 2 && out[0].id == id && up == Some(Split(sep, out[1].id))
  }

  /** An insertion turned s into `out`, which holds the trees of res, and reported it. */
  ghost predicate InsertDone(h: Pool, h': Pool, s: Shape, out: seq<Shape>, res: Result, up: Option<Split>, top: nat, top': nat) {
    Became(h, h', [s], out, Parts(res), top, top') && Reported(up, s.id, out, res)
  }

  /** The addresses of the parent after the insertion into child p, and of its new
      right half if it was split. */
  ghost function Grown(o: Order, id: nat, kids: seq<Shape>, keys: seq<int>, p: nat, out: seq<Shape>, res: Result, other: nat): (r: seq<Shape>)
    requires OrderOk(o) && p < |kids| == |keys| + 1 && |out| == |Parts(res)|
  {
    var after := Replace(kids, p, p + 1, out);
    if res.Two? && |keys| == o.n() then Halves(id, other, after, CutKey(o, keys, p, res.sep) + 1) else [BranchAt(id, after)]
  }

  lemma GrownLeaves(o: Order, id: nat, kids: seq<Shape>, keys: seq<int>, p: nat, out: seq<Shape>, res: Result, other: nat)
    requires OrderOk(o) && p < |kids| == |keys| + 1 && |out| == |Parts(res)|
    ensures AllLeaves(Grown(o, id, kids, keys, p, out, res, other)) == AllLeaves(Replace(kids, p, p + 1, out))
  {
    if res.Two? && |keys| == o.n() {
      LeavesOfCut(id, other, Replace(kids, p, p + 1, out), CutKey(o, keys, p, res.sep) + 1);
    } else {
      LeavesOfOne(id, Replace(kids, p, p + 1, out));
    }
  }

  /** The parent after the insertion into child p. */
  lemma KidDone(o: Order, h: Pool, h1: Pool, h2: Pool, id: nat, kids: seq<Shape>, keys: seq<int>, ts: seq<Tree>, p: nat, k: int,
                out: seq<Shape>, res: Result, split: Option<Split>, up: Option<Split>, top: nat, top1: nat, top2: nat)
    requires OrderOk(o) && Sorted(keys) && p == UpperBound(keys, k) && |kids| == |keys| + 1 <= o.n() + 1
    requires Rep(h, BranchAt(id, kids), Branch(keys, ts)) && Single([BranchAt(id, kids)], top)
    requires InsertDone(h, h1, kids[p], out, res, split, top, top1)
    requires id in h1 && h1[id] == BranchNode(keys, Tops(kids))
    requires if split == None then h2 == h1 && up == None && top2 == top1 else ChildAdded(o, h1, h2, id, p, split.value, up, top1, top2)
    ensures InsertDone(h, h2, BranchAt(id, kids), Grown(o, id, kids, keys, p, out, res, top1), AfterKid(o, keys, ts, p, res, k), up, top, top2)
  {
    if res.One? {
      KidStays(o, h, h1, id, kids, keys, ts, p, k, out, res, top, top1);
    } else if |keys| != o.n() {
      KidAdds(o, h, h1, h2, id, kids, keys, ts, p, k, out, res, top, top1);
    } else {
      KidHalved(o, h, h1, h2, id, kids, keys, ts, p, k, out, res, up, top, top1);
    }
  }

  lemma KidStays(o: Order, h: Pool, h1: Pool, id: nat, kids: seq<Shape>, keys: seq<int>, ts: seq<Tree>, p: nat, k: int,
                 out: seq<Shape>, res: Result, top: nat, top1: nat)
    requires OrderOk(o) && p < |kids| == |keys| + 1
    requires Rep(h, BranchAt(id, kids), Branch(keys, ts)) && Single([BranchAt(id, kids)], top)
    requires res.One? && Became(h, h1, [kids[p]], out, [res.t], top, top1) && |out| == 1 && out[0].id == kids[p].id
    ensures InsertDone(h, h1, BranchAt(id, kids), [BranchAt(id, Replace(kids, p, p + 1, out))], AfterKid(o, keys, ts, p, res, k), None, top, top1)
  {
    assert out == [out[0]];
    KidStayed(h, h1, id, kids, keys, ts, p, out[0], res.t, top, top1);
  }

  lemma KidAdds(o: Order, h: Pool, h1: Pool, h2: Pool, id: nat, kids: seq<Shape>, keys: seq<int>, ts: seq<Tree>, p: nat, k: int,
                out: seq<Shape>, res: Result, top: nat, top1: nat)
    requires OrderOk(o) && p < |kids| == |keys| + 1 && |keys| != o.n()
    requires Rep(h, BranchAt(id, kids), Branch(keys, ts)) && Single([BranchAt(id, kids)], top)
    requires res.Two? && Became(h, h1, [kids[p]], out, [res.l, res.r], top, top1) && |out| == 2 && out[0].id == kids[p].id
    requires id in h1 && h1[id] == BranchNode(keys, Tops(kids)) && h2 == h1[id := Added(h1[id], p, Split(res.sep, out[1].id))]
    ensures InsertDone(h, h2, BranchAt(id, kids), [BranchAt(id, Replace(kids, p, p + 1, out))], AfterKid(o, keys, ts, p, res, k), None, top, top1)
  {
    KidAdded(h, h1, h2, id, kids, keys, ts, p, out, res.l, res.sep, res.r, top, top1);
  }

  lemma KidHalved(o: Order, h: Pool, h1: Pool, h2: Pool, id: nat, kids: seq<Shape>, keys: seq<int>, ts: seq<Tree>, p: nat, k: int,
                  out: seq<Shape>, res: Result, up: Option<Split>, top: nat, top1: nat)
    requires OrderOk(o) && Sorted(keys) && p == UpperBound(keys, k) && |kids| == |keys| + 1 && |keys| == o.n()
    requires Rep(h, BranchAt(id, kids), Branch(keys, ts)) && Single([BranchAt(id, kids)], top)
    requires res.Two? && Became(h, h1, [kids[p]], out, [res.l, res.r], top, top1) && |out| == 2 && out[0].id == kids[p].id
    requires id in h1 && h1[id] == BranchNode(keys, Tops(kids))
    requires SplitAdd(o, h1, h2, id, top1, p, Split(res.sep, out[1].id), up)
    ensures InsertDone(h, h2, BranchAt(id, kids), Halves(id, top1, Replace(kids, p, p + 1, out), CutKey(o, keys, p, res.sep) + 1),
                       AfterKid(o, keys, ts, p, res, k), up, top, top1 + 1)
  {
    KidSplit(o, h, h1, h2, id, kids, keys, ts, p, out, res.l, res.sep, res.r, up, top, top1);
    AfterKidHalves(o, keys, ts, p, res, k, CutKey(o, keys, p, res.sep));
    var res', out' := AfterKid(o, keys, ts, p, res, k), Halves(id, top1, Replace(kids, p, p + 1, out), CutKey(o, keys, p, res.sep) + 1);
    assert Became(h, h2, [BranchAt(id, kids)], out', [res'.l, res'.r], top, top1 + 1);
    assert Reported(up, id, out', res');
  }

  lemma AfterKidHalves(o: Order, keys: seq<int>, ts: seq<Tree>, p: nat, res: Result, k: int, j: nat)
    requires OrderOk(o) && Sorted(keys) && p == UpperBound(keys, k) && |ts| == |keys| + 1 && |keys| == o.n()
    requires res.Two? && j == CutKey(o, keys, p, res.sep)
    ensures var after, full := Replace(ts, p, p + 1, [res.l, res.r]), InsertAt(keys, p, res.sep);
            AfterKid(o, keys, ts, p, res, k) == Two(Branch(full[..j], after[..j + 1]), full[j], Branch(full[j + 1..], after[j + 1..]))
  {
    CutKeyIsCut(o, keys, ts, p, res.sep, res.l, res.r, k);
    CutAdded(keys, ts, p, res.sep, res.l, res.r, j);
  }

  lemma LeavesOfOne(id: nat, kids: seq<Shape>)
    ensures AllLeaves([BranchAt(id, kids)]) == AllLeaves(kids)
  {
    assert [BranchAt(id, kids)][1..] == [];
  }

  lemma CutKeyIsCut(o: Order, keys: seq<int>, ts: seq<Tree>, p: nat, sep: int, l: Tree, r: Tree, k: int)
    requires OrderOk(o) && Sorted(keys) && p == UpperBound(keys, k) && |ts| == |keys| + 1 && |keys| == o.n()
    ensures AddSplit(o, keys, ts, p, sep, l, r, k) == Cut(AddKid(keys, ts, p, sep, l, r), CutKey(o, keys, p, sep))
  {
    SplitAndAddIsCut(keys, ts, if sep > keys[o.BranchMiddle()] then o.BranchMiddle() + 1 else o.BranchMiddle(), sep, l, r, k);
  }

  lemma LeavesOfCut(id: nat, other: nat, kids: seq<Shape>, j: nat)
    requires j <= |kids|
    ensures AllLeaves(Halves(id, other, kids, j)) == AllLeaves(kids)
  {
    LeavesTwo(BranchAt(id, kids[..j]), BranchAt(other, kids[j..]));
    LeavesCut(kids, j);
  }

  lemma CountLeaf(id: nat, x: nat)
    ensures CountAll([LeafAt(id)], x) == if id == x then 1 else 0
  {
    assert [LeafAt(id)][1..] == [];
  }

  /** A leaf after an insertion. */
  lemma LeafInserted(o: Order, h: Pool, h': Pool, id: nat, keys: seq<int>, vals: seq<int>, k: int, v: int, top: nat, top': nat)
    returns (out: seq<Shape>)
    requires OrderOk(o) && |keys| == |vals| && Single([LeafAt(id)], top)
    requires match InsertLeaf(o, keys, vals, k, v)
             case One(t) => h' == h[id := LeafNode(t.keys, t.vals)] && top' == top
             case Two(l, sep, r) =>
               top' == top + 1 && h' == h[id := LeafNode(l.keys, l.vals)][top := LeafNode(r.keys, r.vals)]
    ensures Became(h, h', [LeafAt(id)], out, Parts(InsertLeaf(o, keys, vals, k, v)), top, top')
    ensures if InsertLeaf(o, keys, vals, k, v).One? then out == [LeafAt(id)] && AllLeaves(out) == [id]
            else out == [LeafAt(id), LeafAt(top)] && AllLeaves(out) == [id, top]
  {
    var res := InsertLeaf(o, keys, vals, k, v);
    out := if res.One? then [LeafAt(id)] else [LeafAt(id), LeafAt(top)];
    LeavesConcat([LeafAt(id)], [LeafAt(top)]);
    assert [LeafAt(id)] + [LeafAt(top)] == [LeafAt(id), LeafAt(top)];
    assert [LeafAt(id)][1..] == [] && [LeafAt(top)][1..] == [];
    CountLeaf(id, id);
    assert CountAll([LeafAt(id)], id) <= if id < top then 1 else 0;
    forall x: nat
      ensures CountAll(out, x) <= if x < top then CountAll([LeafAt(id)], x) else if x < top' then 1 else 0
      ensures x < top && CountAll([LeafAt(id)], x) == 0 ==> Same(h, h', x)
    {
      CountLeaf(id, x);
      CountTwo(LeafAt(id), LeafAt(top), x);
    }
  }

  /** The leaves before, in and behind the children i to j of a node. */
  lemma LeavesInside(pre: seq<nat>, kids: seq<Shape>, i: nat, j: nat, post: seq<nat>)
    requires i <= j <= |kids|
    ensures pre + AllLeaves(kids) + post == (pre + AllLeaves(kids[..i])) + AllLeaves(kids[i..j]) + (AllLeaves(kids[j..]) + post)
  {
    LeavesSplit(kids, i, j);
    Regroup(pre, AllLeaves(kids[..i]), AllLeaves(kids[i..j]), AllLeaves(kids[j..]), post);
  }

  lemma Regroup<T>(pre: seq<T>, a: seq<T>, b: seq<T>, c: seq<T>, post: seq<T>)
    ensures (pre + a) + b + (c + post) == pre + (a + b + c) + post
  {
  }

  lemma LeavesOutside(pre: seq<nat>, kids: seq<Shape>, i: nat, j: nat, out: seq<Shape>, post: seq<nat>)
    requires i <= j <= |kids|
    ensures (pre + AllLeaves(kids[..i])) + AllLeaves(out) + (AllLeaves(kids[j..]) + post) == pre + AllLeaves(Replace(kids, i, j, out)) + post
  {
    LeavesReplace(kids, i, j, out);
    Regroup(pre, AllLeaves(kids[..i]), AllLeaves(out), AllLeaves(kids[j..]), post);
  }

  /** The leaves before and behind child p, whatever becomes of that child. */
  lemma ChildLinks(next: map<nat, nat>, prev: map<nat, nat>, top: nat, pre: seq<nat>, kids: seq<Shape>, p: nat, post: seq<nat>)
    returns (before: seq<nat>, behind: seq<nat>)
    requires p < |kids| && Links(next, prev, top, pre + AllLeaves(kids) + post)
    ensures Links(next, prev, top, before + Leaves(kids[p]) + behind)
    ensures forall out: seq<Shape> :: before + AllLeaves(out) + behind == pre + AllLeaves(Replace(kids, p, p + 1, out)) + post
  {
    before, behind := pre + AllLeaves(kids[..p]), AllLeaves(kids[p + 1..]) + post;
    LeavesOne(kids, p);
    Regroup(pre, AllLeaves(kids[..p]), Leaves(kids[p]), AllLeaves(kids[p + 1..]), post);
    forall out: seq<Shape> ensures before + AllLeaves(out) + behind == pre + AllLeaves(Replace(kids, p, p + 1, out)) + post {
      LeavesOutside(pre, kids, p, p + 1, out, post);
    }
  }

  /** What a node of the pool says about child p. */
  lemma ChildNode(h: Pool, id: nat, kids: seq<Shape>, keys: seq<int>, ts: seq<Tree>, p: nat, top: nat)
    requires p < |ts| && Rep(h, BranchAt(id, kids), Branch(keys, ts)) && Single([BranchAt(id, kids)], top)
    ensures h[id].kids[p] == kids[p].id && Single([kids[p]], top) && Rep(h, kids[p], ts[p])
  {
    SingleKids(id, kids, top);
    assert [kids[p]] == kids[p..p + 1] && [kids[p]][1..] == [];
    forall x: nat ensures CountAll([kids[p]], x) <= if x < top then 1 else 0 {
      CountSplit(kids, p, p + 1, x);
      assert CountAll(kids, x) <= if x < top then 1 else 0;
    }
  }

  /** `splitLeafNode`, and the new pair goes to the half that covers its position. */
  method SplitLeaf(keys: seq<int>, vals: seq<int>, mid: nat, pos: nat, k: int, v: int) returns (l: Node, r: Node)
    requires |keys| == |vals| && pos <= |keys| && mid < |keys|
    ensures l.LeafNode? && r.LeafNode? && r.keys != []
    ensures SplitLeafAndAdd(keys, vals, mid, pos, k, v) == Two(Leaf(l.keys, l.vals), r.keys[0], Leaf(r.keys, r.vals))
  {
    l, r := LeafNode(keys[..mid], vals[..mid]), LeafNode(keys[mid..], vals[mid..]);
    if pos < mid {
      l := LeafNode(InsertAt(l.keys, pos, k), InsertAt(l.vals, pos, v));
    } else {
      r := LeafNode(InsertAt(r.keys, pos - mid, k), InsertAt(r.vals, pos - mid, v));
    }
  }
}
