/** The B+-tree on linked nodes: the operations change nodes and leaf links in
    place and are proved against the operations on tree values. */
module BPlusTree {
  import opened Wrappers
  import opened PbTree
  import opened PbInsert
  import opened PbErase
  import opened NodePool
  import opened LeafChain
  import opened PoolInsert
  import opened PoolErase
  import opened PoolScan

  class Index {
    const order: Order
    var nodes: Pool
    var next: map<nat, nat>
    var prev: map<nat, nat>
    var top: nat
    var root: nat
    var depth: nat
    ghost var shape: Shape
    ghost var tree: Tree

    ghost predicate Valid()
      reads this
    {
      Stands(order, nodes, next, prev, top, root, depth, shape, tree)
    }

    /** The stored pairs in ascending order of keys. */
    ghost function Content(): (es: seq<Entry>)
      requires Valid()
      reads this
      ensures SortedEntries(es)
    {
      RootSorted(order, tree, depth);
      Entries(tree, depth)
    }

    /** An empty tree: a single leaf without keys. */
    constructor (order: Order)
      requires OrderOk(order)
      ensures Valid() && this.order == order && Content() == []
    {
      this.order := order;
      nodes, next, prev, top, root, depth := map[0 := LeafNode([], [])], map[], map[], 1, 0, 0;
      shape, tree := LeafAt(0), Leaf([], []);
      new;
      CountsOfOne();
    }

    /** `insert` */
    method InsertPair(k: int, v: int)
      requires Valid()
      modifies this
      ensures Valid() && Content() == Put(old(Content()), k, v)
    {
      ghost var es, s, t, d := Content(), shape, tree, depth;
      RootNeat(order, t, d);
      assert [] + Leaves(s) + [] == Leaves(s);
      var up, out := InsertInto(root, depth, k, v, s, t, [], []);
      GrowRoot(up, out, Insert(order, t, d, k, v), Put(es, k, v), old(nodes), old(top)) by {
        InsertWhole(order, t, d, k, v, Insert(order, t, d, k, v));
      }
    }

    /** The rest of `insert`: a split of the root makes a new root. */
    method GrowRoot(up: Option<Split>, ghost out: seq<Shape>, ghost res: Result, ghost es: seq<Entry>, ghost h: Pool, ghost top0: nat)
      requires OrderOk(order) && shape.id == root && Single([shape], top0) && InsertDone(h, nodes, shape, out, res, up, top0, top)
      requires Links(next, prev, top, [] + AllLeaves(out) + [])
      requires res.One? ==> WholeOk(order, res.t, depth, es)
      requires res.Two? ==> WholeOk(order, Branch([res.sep], [res.l, res.r]), depth + 1, es)
      modifies this`nodes, this`top, this`root, this`depth, this`shape, this`tree
      ensures Stands(order, nodes, next, prev, top, root, depth, shape, tree) && Entries(tree, depth) == es
    {
      ghost var h1, s, d, top1 := nodes, shape, depth, top;
      if up.Some? {
        nodes := nodes[top := BranchNode([up.value.sep], [root, up.value.right])];
        root, top, depth := top, top + 1, depth + 1;
        shape, tree := BranchAt(root, out), Branch([res.sep], [res.l, res.r]);
        RootSplits(order, h, h1, nodes, next, prev, s, out, res, up, d, top0, top1);
      } else {
        shape, tree := out[0], res.t;
        RootStays(order, h, h1, next, prev, s, out, res, d, top0, top1);
      }
    }

    /** `erase` of a stored key. */
    method EraseKey(k: int)
      requires Valid() && Find(Content(), k).Some?
      modifies this
      ensures Valid() && Content() == Drop(old(Content()), k)
    {
      ghost var h, s, t, d := nodes, shape, tree, depth;
      RootLookup(order, t, d, k);
      EraseRootOk(order, t, d, k);
      StoredKey(order, t, d, k);
      assert [] + Leaves(s) + [] == Leaves(s);
      shape := EraseFrom(root, depth, k, s, t, None, None, [], []);
      tree := Collapse(PbErase.Erase(order, t, d, k), d).0;
      RootErased(order, h, nodes, next, prev, s, shape, PbErase.Erase(order, t, d, k), d, top, root, depth);
    }

    /** `findLeafNode` */
    method FindLeaf(k: int) returns (id: nat, ghost pre: seq<nat>, ghost post: seq<nat>, ghost leaf: Tree)
      requires Valid()
      ensures Leaves(shape) == pre + [id] + post && AllBelow(Read(nodes, pre), k)
      ensures Shaped(leaf, 0) && id in nodes && nodes[id] == AsNode(leaf) && Sorted(leaf.keys)
      ensures Lookup(tree, depth, k) == Lookup(leaf, 0, k)
    {
      var d := depth;
      ghost var s, lo, hi := shape, None, None;
      id, pre, post, leaf := root, [], [], tree;
      while d > 0
        invariant Reached(order, nodes, s, leaf, d, lo, hi, k, pre) && s.id == id
        invariant Leaves(shape) == pre + Leaves(s) + post && Lookup(tree, depth, k) == Lookup(leaf, d, k)
      {
        pre, post := StepDown(order, nodes, s, leaf, d, lo, hi, k, pre, post);
        var p := SearchBranch(nodes[id].keys, k);
        id, d := nodes[id].kids[p], d - 1;
        lo, hi := KidLo(leaf.keys, lo, p), KidHi(leaf.keys, hi, p);
        s, leaf := s.kids[p], leaf.kids[p];
      }
    }

    /** `lookup` */
    method LookUp(k: int) returns (r: Option<int>)
      requires Valid()
      ensures r == Find(Content(), k)
    {
      RootLookup(order, tree, depth, k);
      var id, pre, post, leaf := FindLeaf(k);
      var keys := nodes[id].keys;
      var pos := SearchLeaf(keys, k);
      r := if pos < |keys| && keys[pos] == k then Some(nodes[id].vals[pos]) else None;
    }

    /** `scan`: the stored pairs with a key in [min, max], in ascending order. */
    method Scan(min: int, max: int) returns (found: seq<Entry>)
      requires Valid()
      ensures found == InRange(Content(), min, max)
    {
      var id, pre, post, _ := FindLeaf(min);
      found := [];
      NoneBelow(Read(nodes, pre), min, max);
      while true
        invariant Leaves(shape) == pre + [id] + post
        invariant found == InRange(Read(nodes, pre), min, max)
        decreases |post|
      {
        LeafOnChain(nodes, shape, tree, depth, order, pre, id, post);
        var part, stop := ScanLeaf(nodes[id].keys, nodes[id].vals, min, max);
        ScanStep(nodes, shape, tree, depth, order, pre, id, post, min, max, stop);
        NextOnChain(next, prev, top, pre, id, post);
        found := found + part;
        if stop || id !in next {
          return;
        }
        pre, id, post := pre + [id], next[id], post[1..];
      }
    }

    /** The new entry of a branch node whose child p was split; a full node is split
        before that. */
    method AddChild(id: nat, p: nat, split: Split, k: int) returns (up: Option<Split>)
      requires OrderOk(order) && id in nodes && nodes[id].BranchNode? && id < top
      requires |nodes[id].kids| == |nodes[id].keys| + 1 && |nodes[id].keys| <= order.n()
      requires Sorted(nodes[id].keys) && p == UpperBound(nodes[id].keys, k)
      modifies this`nodes, this`top
      ensures ChildAdded(order, old(nodes), nodes, id, p, split, up, old(top), top)
    {
      if |nodes[id].keys| != order.n() {
        up := None;
        nodes := nodes[id := Added(nodes[id], p, split)];
      } else {
        up := AddToFull(id, p, split, k);
      }
    }

    method AddToFull(id: nat, p: nat, split: Split, k: int) returns (up: Option<Split>)
      requires OrderOk(order) && id in nodes && nodes[id].BranchNode? && id < top
      requires |nodes[id].kids| == |nodes[id].keys| + 1 && |nodes[id].keys| == order.n()
      requires Sorted(nodes[id].keys) && p == UpperBound(nodes[id].keys, k)
      modifies this`nodes, this`top
      ensures top == old(top) + 1 && SplitAdd(order, old(nodes), nodes, id, old(top), p, split, up)
    {
      var l, r, sep := SplitAround(order, nodes[id], p, split, k);
      up := Some(Split(sep, top));
      nodes := nodes[id := l][top := r];
      top := top + 1;
    }

    /** The links of the sibling at the new address `top`, right of leaf id. */
    method LinkSibling(id: nat, ghost pre: seq<nat>, ghost post: seq<nat>)
      requires Links(next, prev, top, pre + [id] + post)
      modifies this`next, this`prev, this`top
      ensures top == old(top) + 1 && Links(next, prev, top, pre + [id, old(top)] + post)
    {
      SplitKeepsLinks(next, prev, top, pre, id, post);
      if id in next {
        prev := prev[next[id] := top];
        next := next[top := next[id]];
      }
      next := next[id := top];
      prev := prev[top := id];
      top := top + 1;
    }

    /** `insertInLeafNode` and `splitLeafNode`, with the leaf links. */
    method InsertInLeaf(id: nat, k: int, v: int, ghost pre: seq<nat>, ghost post: seq<nat>) returns (up: Option<Split>)
      requires OrderOk(order) && id in nodes && nodes[id].LeafNode? && |nodes[id].keys| == |nodes[id].vals| <= order.m
      requires Sorted(nodes[id].keys) && Links(next, prev, top, pre + [id] + post)
      modifies this`nodes, this`next, this`prev, this`top
      ensures match InsertLeaf(order, old(nodes)[id].keys, old(nodes)[id].vals, k, v)
              case One(t) =>
                && up == None && nodes == old(nodes)[id := LeafNode(t.keys, t.vals)] && top == old(top)
                && Links(next, prev, top, pre + [id] + post)
              case Two(l, sep, r) =>
                && up == Some(Split(sep, old(top))) && top == old(top) + 1
                && nodes == old(nodes)[id := LeafNode(l.keys, l.vals)][old(top) := LeafNode(r.keys, r.vals)]
                && Links(next, prev, top, pre + [id, old(top)] + post)
    {
      var keys, vals := nodes[id].keys, nodes[id].vals;
      var pos := SearchLeaf(keys, k);
      up := None;
      if pos < |keys| && keys[pos] == k {
        nodes := nodes[id := LeafNode(keys, vals[pos := v])];
      } else if |keys| == order.m {
        var l, r := SplitLeaf(keys, vals, order.LeafMiddle(), pos, k, v);
        up := Some(Split(r.keys[0], top));
        nodes := nodes[id := l][top := r];
        LinkSibling(id, pre, post);
      } else {
        nodes := nodes[id := LeafNode(InsertAt(keys, pos, k), InsertAt(vals, pos, v))];
      }
    }

    /** `insertInBranchNode`, and `insertInLeafNode` at height 0, for the node of the
        subtree t at the addresses s. The leaves of the tree are those of `pre`, of s
        and of `post`. */
    method InsertInto(id: nat, d: nat, k: int, v: int, ghost s: Shape, ghost t: Tree, ghost pre: seq<nat>, ghost post: seq<nat>)
      returns (up: Option<Split>, ghost out: seq<Shape>)
      requires OrderOk(order) && Neat(order, t, d) && Rep(nodes, s, t) && s.id == id && Single([s], top) && Links(next, prev, top, pre + Leaves(s) + post)
      modifies this`nodes, this`next, this`prev, this`top
      ensures InsertDone(old(nodes), nodes, s, out, Insert(order, t, d, k, v), up, old(top), top)
      ensures Links(next, prev, top, pre + AllLeaves(out) + post)
      decreases d, 0
    {
      if d == 0 {
        ghost var h, top0 := nodes, top;
        up := InsertInLeaf(id, k, v, pre, post);
        out := LeafInserted(order, h, nodes, id, t.keys, t.vals, k, v, top0, top);
      } else {
        up, out := InsertBelow(id, d - 1, k, v, s.kids, t.keys, t.kids, pre, post);
      }
    }

    /** `insertInBranchNode` for the branch node at id with children of height d. */
    method InsertBelow(id: nat, d: nat, k: int, v: int, ghost kids: seq<Shape>, ghost keys: seq<int>, ghost ts: seq<Tree>,
                       ghost pre: seq<nat>, ghost post: seq<nat>)
      returns (up: Option<Split>, ghost out: seq<Shape>)
      requires OrderOk(order) && Neat(order, Branch(keys, ts), d + 1)
      requires Rep(nodes, BranchAt(id, kids), Branch(keys, ts)) && Single([BranchAt(id, kids)], top)
      requires Links(next, prev, top, pre + AllLeaves(kids) + post)
      modifies this`nodes, this`next, this`prev, this`top
      ensures var p := UpperBound(keys, k);
              var res := AfterKid(order, keys, ts, p, Insert(order, ts[p], d, k, v), k);
              InsertDone(old(nodes), nodes, BranchAt(id, kids), out, res, up, old(top), top)
      ensures Links(next, prev, top, pre + AllLeaves(out) + post)
      decreases d, 2
    {
      ghost var h, top0 := nodes, top;
      var p := SearchBranch(nodes[id].keys, k);
      var split, parts := InsertChild(id, nodes[id].kids[p], d, k, v, p, kids, keys, ts, pre, post);
      up, out := AfterInsert(id, p, k, split, h, kids, keys, ts, parts, Insert(order, ts[p], d, k, v), top0, pre, post);
    }

    /** The insertion into child p. */
    method InsertChild(id: nat, child: nat, d: nat, k: int, v: int, ghost p: nat, ghost kids: seq<Shape>, ghost keys: seq<int>, ghost ts: seq<Tree>,
                       ghost pre: seq<nat>, ghost post: seq<nat>)
      returns (split: Option<Split>, ghost parts: seq<Shape>)
      requires OrderOk(order) && p < |ts| && Neat(order, ts[p], d)
      requires Rep(nodes, BranchAt(id, kids), Branch(keys, ts)) && Single([BranchAt(id, kids)], top) && child == kids[p].id
      requires Links(next, prev, top, pre + AllLeaves(kids) + post)
      modifies this`nodes, this`next, this`prev, this`top
      ensures InsertDone(old(nodes), nodes, kids[p], parts, Insert(order, ts[p], d, k, v), split, old(top), top)
      ensures Links(next, prev, top, pre + AllLeaves(Replace(kids, p, p + 1, parts)) + post)
      decreases d, 1
    {
      ghost var before, behind := ChildLinks(next, prev, top, pre, kids, p, post);
      ChildNode(nodes, id, kids, keys, ts, p, top);
      split, parts := InsertInto(child, d, k, v, kids[p], ts[p], before, behind);
    }

    /** The rest of `insertInBranchNode`, after the insertion into child p. */
    method AfterInsert(id: nat, p: nat, k: int, split: Option<Split>, ghost h: Pool, ghost kids: seq<Shape>, ghost keys: seq<int>,
                       ghost ts: seq<Tree>, ghost parts: seq<Shape>, ghost res: Result, ghost top0: nat,
                       ghost pre: seq<nat>, ghost post: seq<nat>)
      returns (up: Option<Split>, ghost out: seq<Shape>)
      requires OrderOk(order) && Sorted(keys) && p == UpperBound(keys, k) && |kids| == |keys| + 1 <= order.n() + 1
      requires Rep(h, BranchAt(id, kids), Branch(keys, ts)) && Single([BranchAt(id, kids)], top0)
      requires InsertDone(h, nodes, kids[p], parts, res, split, top0, top)
      requires Links(next, prev, top, pre + AllLeaves(Replace(kids, p, p + 1, parts)) + post)
      modifies this`nodes, this`top
      ensures InsertDone(h, nodes, BranchAt(id, kids), out, AfterKid(order, keys, ts, p, res, k), up, top0, top)
      ensures Links(next, prev, top, pre + AllLeaves(out) + post)
    {
      ghost var h1, top1 := nodes, top;
      KidInserted(h, h1, id, kids, keys, ts, p, parts, Parts(res), top0, top1);
      up := None;
      if split.Some? {
        up := AddChild(id, p, split.value, k);
      }
      KidDone(order, h, h1, nodes, id, kids, keys, ts, p, k, parts, res, split, up, top0, top1, top);
      out := Grown(order, id, kids, keys, p, parts, res, top1);
      GrownLeaves(order, id, kids, keys, p, parts, res, top1);
      LinksUp(next, prev, top1, top, pre + AllLeaves(out) + post);
    }

    // ------------------------------------------------------------------ deletion

    /** `underflowAtLeafLevel` for child p, a leaf that holds too few keys. */
    method UnderflowAtLeaf(id: nat, p: nat, leaf: nat, ghost kids: seq<Shape>, ghost keys: seq<int>, ghost ts: seq<Tree>,
                           ghost pre: seq<nat>, ghost post: seq<nat>)
      returns (ghost out: Shape)
      requires |ts| == |keys| + 1 && 0 < |keys| && p < |ts| && AllShaped(ts, 0) && FirstsInOrder(ts) && |ts[p].keys| < order.LeafMiddle()
      requires Rep(nodes, BranchAt(id, kids), Branch(keys, ts)) && Single([BranchAt(id, kids)], top) && leaf == kids[p].id
      requires Links(next, prev, top, pre + AllLeaves(kids) + post) && (|keys| == 1 ==> depth == 1)
      modifies this`nodes, this`next, this`prev, this`root, this`depth
      ensures FixDone(old(nodes), nodes, id, kids, out, Repair(order, keys, ts, p, 0), 0, top, old(root), root, old(depth), depth)
      ensures Links(next, prev, top, pre + Leaves(out) + post)
    {
      var mid := order.LeafMiddle();
      RepKid(nodes, id, kids, keys, ts, p);
      if p > 0 {
        RepKid(nodes, id, kids, keys, ts, p - 1);
        LeafNeighbours(nodes, id, kids, keys, ts, p - 1, next, prev, top, pre, post);
      }
      if p < |keys| {
        RepKid(nodes, id, kids, keys, ts, p + 1);
        LeafNeighbours(nodes, id, kids, keys, ts, p, next, prev, top, pre, post);
      }
      if p > 0 && |nodes[prev[leaf]].keys| > mid {
        out := RepairLeaf(id, p, prev[leaf], leaf, true, kids, keys, ts);
      } else if p < |nodes[id].keys| && |nodes[next[leaf]].keys| > mid {
        out := RepairLeaf(id, p, leaf, next[leaf], false, kids, keys, ts);
      } else if p > 0 {
        RepairByJoin(order, keys, ts, p, 0);
        out := MergeLeaves(id, p - 1, prev[leaf], leaf, kids, keys, ts, pre, post);
      } else {
        RepairByJoin(order, keys, ts, p, 0);
        out := MergeLeaves(id, p, leaf, next[leaf], kids, keys, ts, pre, post);
      }
    }

    /** Leaf p has too few keys and a neighbour more than enough. */
    method RepairLeaf(id: nat, p: nat, l: nat, r: nat, fromLeft: bool, ghost kids: seq<Shape>, ghost keys: seq<int>, ghost ts: seq<Tree>)
      returns (ghost out: Shape)
      requires |ts| == |keys| + 1 && p < |ts| && AllShaped(ts, 0) && FirstsInOrder(ts) && |ts[p].keys| < order.LeafMiddle()
      requires Rep(nodes, BranchAt(id, kids), Branch(keys, ts)) && Single([BranchAt(id, kids)], top)
      requires if fromLeft then p > 0 && |ts[p - 1].keys| > order.LeafMiddle() && l == kids[p - 1].id && r == kids[p].id
               else && p < |keys| && |ts[p + 1].keys| > order.LeafMiddle() && l == kids[p].id && r == kids[p + 1].id
                    && (p > 0 ==> |ts[p - 1].keys| <= order.LeafMiddle())
      modifies this`nodes
      ensures FixDone(old(nodes), nodes, id, kids, out, Repair(order, keys, ts, p, 0), 0, top, root, root, depth, depth)
      ensures out == BranchAt(id, kids)
    {
      RepairByBalance(order, keys, ts, p, 0, fromLeft);
      out := BalanceLeaves(id, if fromLeft then p - 1 else p, l, r, fromLeft, kids, keys, ts);
    }

    /** `balanceLeafNodes` for the leaves l and r, children i and i + 1. */
    method BalanceLeaves(id: nat, i: nat, l: nat, r: nat, fromLeft: bool, ghost kids: seq<Shape>, ghost keys: seq<int>, ghost ts: seq<Tree>)
      returns (ghost out: Shape)
      requires |ts| == |keys| + 1 && i < |keys| && AllShaped(ts, 0) && FirstsInOrder(ts)
      requires Rep(nodes, BranchAt(id, kids), Branch(keys, ts)) && Single([BranchAt(id, kids)], top)
      requires l == kids[i].id && r == kids[i + 1].id
      requires if fromLeft then |ts[i].keys| > |ts[i + 1].keys| else |ts[i + 1].keys| > |ts[i].keys|
      modifies this`nodes
      ensures var pr := Balanced(ts[i], keys[i], ts[i + 1], 0, fromLeft);
              FixDone(old(nodes), nodes, id, kids, out, SetPair(keys, ts, i, pr), 0, top, root, root, depth, depth)
      ensures out == BranchAt(id, kids)
    {
      ghost var h, pr := nodes, Balanced(ts[i], keys[i], ts[i + 1], 0, fromLeft);
      LeafKid(h, id, kids, keys, ts, i);
      LeafKid(h, id, kids, keys, ts, i + 1);
      var node, left, right := nodes[id], nodes[l], nodes[r];
      if fromLeft {
        left, right := BalanceLeafNodes(left, right);
      } else {
        right, left := BalanceLeafNodes(right, left);
      }
      nodes := nodes[l := left][r := right][id := BranchNode(node.keys[i := right.keys[0]], node.kids)];
      out := BranchAt(id, kids);
      LeafBalanceDone(h, nodes, id, kids, keys, ts, i, pr, top);
      BalanceFixed(h, nodes, id, kids, out, keys, ts, i, pr, 0, top, root, depth);
    }

    /** `mergeLeafNodes` for the leaves l and r, children i and i + 1. */
    method MergeLeaves(id: nat, i: nat, l: nat, r: nat, ghost kids: seq<Shape>, ghost keys: seq<int>, ghost ts: seq<Tree>,
                       ghost pre: seq<nat>, ghost post: seq<nat>)
      returns (ghost out: Shape)
      requires |ts| == |keys| + 1 && i < |keys| && AllShaped(ts, 0) && (|keys| == 1 ==> depth == 1)
      requires Rep(nodes, BranchAt(id, kids), Branch(keys, ts)) && Single([BranchAt(id, kids)], top)
      requires l == kids[i].id && r == kids[i + 1].id && Links(next, prev, top, pre + AllLeaves(kids) + post)
      modifies this`nodes, this`next, this`prev, this`root, this`depth
      ensures FixDone(old(nodes), nodes, id, kids, out, SetMerged(keys, ts, i, Join(ts[i], keys[i], ts[i + 1], 0)), 0, top,
                      old(root), root, old(depth), depth)
      ensures Links(next, prev, top, pre + Leaves(out) + post)
    {
      ghost var h, root0, depth0, t := nodes, root, depth, Join(ts[i], keys[i], ts[i + 1], 0);
      LeafKid(h, id, kids, keys, ts, i);
      LeafKid(h, id, kids, keys, ts, i + 1);
      var node := nodes[id];
      nodes := Without(nodes[l := LeafNode(nodes[l].keys + nodes[r].keys, nodes[l].vals + nodes[r].vals)], r);
      ghost var h1 := nodes;
      LeafMergeBelow(h, h1, id, kids, keys, ts, i, t, top);
      UnlinkLeaf(l, r, i, kids, pre, post);
      if |node.keys| > 1 {
        nodes := nodes[id := BranchNode(RemoveAt(node.keys, i), RemoveAt(node.kids, i + 1))];
      } else {
        root, depth := l, depth - 1;
      }
      out := MergeFixed(h, h1, nodes, id, kids, keys, ts, i, kids[i], t, 0, top, root0, root, depth0, depth);
    }

    /** The links after leaf r, child i + 1, went into leaf l. */
    method UnlinkLeaf(l: nat, r: nat, ghost i: nat, ghost kids: seq<Shape>, ghost pre: seq<nat>, ghost post: seq<nat>)
      requires i + 1 < |kids| && kids[i] == LeafAt(l) && kids[i + 1] == LeafAt(r) && Links(next, prev, top, pre + AllLeaves(kids) + post)
      modifies this`next, this`prev
      ensures Links(next, prev, top, pre + AllLeaves(Replace(kids, i, i + 2, [kids[i]])) + post)
    {
      LeafPairLinks(kids, i, l, r, pre, post);
      MergeKeepsLinks(next, prev, top, pre + AllLeaves(kids[..i]), l, r, AllLeaves(kids[i + 2..]) + post);
      prev := Unlink(if r in next then prev[next[r] := l] else prev, r);
      next := Unlink(if r in next then next[l := next[r]] else Unlink(next, l), r);
    }

    /** `underflowAtBranchLevel` for child p, a branch node of height d with too few
        keys, and the replacement of an empty root. */
    method UnderflowAtBranch(id: nat, p: nat, child: nat, ghost d: nat, ghost kids: seq<Shape>, ghost keys: seq<int>, ghost ts: seq<Tree>)
      returns (ghost out: Shape)
      requires |ts| == |keys| + 1 && 0 < |keys| && p < |ts| && d > 0 && AllShaped(ts, d) && FirstsInOrder(ts)
      requires |ts[p].keys| < order.BranchMiddle()
      requires Rep(nodes, BranchAt(id, kids), Branch(keys, ts)) && Single([BranchAt(id, kids)], top) && child == kids[p].id
      requires |keys| == 1 ==> depth == d + 1
      modifies this`nodes, this`root, this`depth
      ensures FixDone(old(nodes), nodes, id, kids, out, Repair(order, keys, ts, p, d), d, top, old(root), root, old(depth), depth)
      ensures Leaves(out) == AllLeaves(kids)
    {
      var mid := order.BranchMiddle();
      var node := nodes[id];
      if p > 0 {
        BranchKid(nodes, id, kids, keys, ts, p - 1, d);
      }
      if p < |keys| {
        BranchKid(nodes, id, kids, keys, ts, p + 1, d);
      }
      if p > 0 && |nodes[node.kids[p - 1]].keys| > mid {
        out := RepairBalancing(id, p, true, d, kids, keys, ts);
      } else if p < |node.keys| && |nodes[node.kids[p + 1]].keys| > mid {
        out := RepairBalancing(id, p, false, d, kids, keys, ts);
      } else {
        RepairByJoin(order, keys, ts, p, d);
        out := MergeBranches(id, if p > 0 then p - 1 else p, d, kids, keys, ts);
      }
    }

    /** Child p has too few keys and a neighbour more than enough. */
    method RepairBalancing(id: nat, p: nat, fromLeft: bool, ghost d: nat, ghost kids: seq<Shape>, ghost keys: seq<int>, ghost ts: seq<Tree>)
      returns (ghost out: Shape)
      requires |ts| == |keys| + 1 && 0 < |keys| && p < |ts| && d > 0 && AllShaped(ts, d) && FirstsInOrder(ts)
      requires |ts[p].keys| < order.BranchMiddle()
      requires Rep(nodes, BranchAt(id, kids), Branch(keys, ts)) && Single([BranchAt(id, kids)], top)
      requires if fromLeft then p > 0 && |ts[p - 1].keys| > order.BranchMiddle()
               else p < |keys| && |ts[p + 1].keys| > order.BranchMiddle() && (p > 0 ==> |ts[p - 1].keys| <= order.BranchMiddle())
      modifies this`nodes
      ensures FixDone(old(nodes), nodes, id, kids, out, Repair(order, keys, ts, p, d), d, top, root, root, depth, depth)
      ensures Leaves(out) == AllLeaves(kids)
    {
      RepairByBalance(order, keys, ts, p, d, fromLeft);
      out := BalanceBranches(id, if fromLeft then p - 1 else p, fromLeft, d, kids, keys, ts);
    }

    /** `balanceBranchNodes` for children i and i + 1. */
    method BalanceBranches(id: nat, i: nat, fromLeft: bool, ghost d: nat, ghost kids: seq<Shape>, ghost keys: seq<int>, ghost ts: seq<Tree>)
      returns (ghost out: Shape)
      requires |ts| == |keys| + 1 && i < |keys| && d > 0 && AllShaped(ts, d) && FirstsInOrder(ts)
      requires Rep(nodes, BranchAt(id, kids), Branch(keys, ts)) && Single([BranchAt(id, kids)], top)
      requires if fromLeft then |ts[i].keys| > |ts[i + 1].keys| else |ts[i + 1].keys| > |ts[i].keys|
      modifies this`nodes
      ensures var pr := Balanced(ts[i], keys[i], ts[i + 1], d, fromLeft);
              FixDone(old(nodes), nodes, id, kids, out, SetPair(keys, ts, i, pr), d, top, root, root, depth, depth)
      ensures Leaves(out) == AllLeaves(kids)
    {
      ghost var h, pr := nodes, Balanced(ts[i], keys[i], ts[i + 1], d, fromLeft);
      BranchKid(h, id, kids, keys, ts, i, d);
      BranchKid(h, id, kids, keys, ts, i + 1, d);
      BalancedIsCut(ts[i], keys[i], ts[i + 1], d, fromLeft);
      var node := nodes[id];
      var l, sep, r := BalancePair(nodes[node.kids[i]], node.keys[i], nodes[node.kids[i + 1]], fromLeft);
      nodes := nodes[node.kids[i] := l][node.kids[i + 1] := r][id := BranchNode(node.keys[i := sep], node.kids)];
      out := BranchBalanceDone(h, nodes, id, kids, keys, ts, i, d, CutPoint(|ts[i].keys|, |ts[i + 1].keys|, fromLeft), pr, top);
      BalanceFixed(h, nodes, id, kids, out, keys, ts, i, pr, d, top, root, depth);
    }

    /** `mergeBranchNodes` for children i and i + 1. */
    method MergeBranches(id: nat, i: nat, ghost d: nat, ghost kids: seq<Shape>, ghost keys: seq<int>, ghost ts: seq<Tree>)
      returns (ghost out: Shape)
      requires |ts| == |keys| + 1 && i < |keys| && d > 0 && AllShaped(ts, d) && (|keys| == 1 ==> depth == d + 1)
      requires Rep(nodes, BranchAt(id, kids), Branch(keys, ts)) && Single([BranchAt(id, kids)], top)
      modifies this`nodes, this`root, this`depth
      ensures FixDone(old(nodes), nodes, id, kids, out, SetMerged(keys, ts, i, Join(ts[i], keys[i], ts[i + 1], d)), d, top,
                      old(root), root, old(depth), depth)
      ensures Leaves(out) == AllLeaves(kids)
    {
      ghost var h, root0, depth0 := nodes, root, depth;
      BranchKid(h, id, kids, keys, ts, i, d);
      BranchKid(h, id, kids, keys, ts, i + 1, d);
      var node := nodes[id];
      var l, r := node.kids[i], node.kids[i + 1];
      nodes := Without(nodes[l := BranchNode(nodes[l].keys + [node.keys[i]] + nodes[r].keys, nodes[l].kids + nodes[r].kids)], r);
      ghost var h1 := nodes;
      ghost var m := BranchMergeBelow(h, h1, id, kids, keys, ts, i, d, top);
      nodes := nodes[id := BranchNode(RemoveAt(node.keys, i), RemoveAt(node.kids, i + 1))];
      if |nodes[id].keys| == 0 {
        root, depth := l, depth - 1;
      }
      out := MergeFixed(h, h1, nodes, id, kids, keys, ts, i, m, Join(ts[i], keys[i], ts[i + 1], d), d, top, root0, root, depth0, depth);
    }

    /** `eraseFromLeafNode` for a stored key. */
    method EraseFromLeaf(id: nat, k: int)
      requires id in nodes && IsLeaf(nodes[id]) && Sorted(nodes[id].keys)
      requires var p := LowerBound(nodes[id].keys, k); p < |nodes[id].keys| && nodes[id].keys[p] == k
      modifies this`nodes
      ensures nodes == old(nodes)[id := AsNode(EraseLeaf(old(nodes)[id].keys, old(nodes)[id].vals, k))]
    {
      var keys, vals := nodes[id].keys, nodes[id].vals;
      var pos := SearchLeaf(keys, k);
      if keys[pos] == k {
        nodes := nodes[id := LeafNode(RemoveAt(keys, pos), RemoveAt(vals, pos))];
      }
    }

    /** `eraseFromBranchNode`, and `eraseFromLeafNode` at height 0, for the node of the
        subtree t at the addresses s. */
    method EraseFrom(id: nat, d: nat, k: int, ghost s: Shape, ghost t: Tree, ghost lo: Option<int>, ghost hi: Option<int>,
                     ghost pre: seq<nat>, ghost post: seq<nat>)
      returns (ghost out: Shape)
      requires OrderOk(order) && Shaped(t, d) && NodeOk(order, t, d, lo, hi) && AtLeast(lo, k) && Below(k, hi) && Lookup(t, d, k).Some?
      requires |t.keys| > 0 && (|t.keys| == 1 && d > 0 ==> d == depth)
      requires Rep(nodes, s, t) && s.id == id && Single([s], top) && Links(next, prev, top, pre + Leaves(s) + post)
      modifies this`nodes, this`next, this`prev, this`root, this`depth
      ensures EraseDone(old(nodes), nodes, s, out, Erase(order, t, d, k), d, top, old(root), root, old(depth), depth)
      ensures Links(next, prev, top, pre + Leaves(out) + post)
      decreases d, 0
    {
      if d == 0 {
        ghost var h := nodes;
        EraseFromLeaf(id, k);
        LeafErased(h, nodes, id, t.keys, t.vals, k, top, root, depth);
        out := s;
      } else {
        out := EraseBelow(id, d - 1, k, s.kids, t.keys, t.kids, lo, hi, pre, post);
      }
    }

    /** `eraseFromBranchNode` for the branch node at id with children of height d. */
    method EraseBelow(id: nat, d: nat, k: int, ghost kids: seq<Shape>, ghost keys: seq<int>, ghost ts: seq<Tree>,
                      ghost lo: Option<int>, ghost hi: Option<int>, ghost pre: seq<nat>, ghost post: seq<nat>)
      returns (ghost out: Shape)
      requires OrderOk(order) && |ts| == |keys| + 1 && KeysOk(keys, lo, hi) && KidsGood(order, keys, ts, d, lo, hi) && AllShaped(ts, d)
      requires AtLeast(lo, k) && Below(k, hi) && Lookup(ts[UpperBound(keys, k)], d, k).Some?
      requires |keys| > 0 && (|keys| == 1 ==> depth == d + 1)
      requires Rep(nodes, BranchAt(id, kids), Branch(keys, ts)) && Single([BranchAt(id, kids)], top)
      requires Links(next, prev, top, pre + AllLeaves(kids) + post)
      modifies this`nodes, this`next, this`prev, this`root, this`depth
      ensures var p := UpperBound(keys, k);
              FixDone(old(nodes), nodes, id, kids, out, AfterErase(order, keys, ts, p, d, Erase(order, ts[p], d, k)), d, top,
                      old(root), root, old(depth), depth)
      ensures Links(next, prev, top, pre + Leaves(out) + post)
      decreases d, 2
    {
      ghost var h := nodes;
      var p := SearchBranch(nodes[id].keys, k);
      ChildReady(order, keys, ts, d, lo, hi, k, p);
      KidErased(order, keys, ts, d, lo, hi, k, p);
      LooseKeepsKey(order, Erase(order, ts[p], d, k), d, KidLo(keys, lo, p), KidHi(keys, hi, p));
      var child := nodes[id].kids[p];
      ghost var kid := EraseChild(id, child, d, k, p, kids, keys, ts, KidLo(keys, lo, p), KidHi(keys, hi, p), pre, post);
      LooseKids(order, keys, ts, d, lo, hi, p, Erase(order, ts[p], d, k));
      out := AfterErasing(id, d, p, child, h, kids, keys, ts, kid, Erase(order, ts[p], d, k), pre, post);
    }

    /** The erasure in child p. */
    method EraseChild(id: nat, child: nat, d: nat, k: int, ghost p: nat, ghost kids: seq<Shape>, ghost keys: seq<int>, ghost ts: seq<Tree>,
                      ghost lo: Option<int>, ghost hi: Option<int>, ghost pre: seq<nat>, ghost post: seq<nat>)
      returns (ghost out: Shape)
      requires OrderOk(order) && p < |ts| && Shaped(ts[p], d) && NodeOk(order, ts[p], d, lo, hi) && AtLeast(lo, k) && Below(k, hi)
      requires Lookup(ts[p], d, k).Some? && |ts[p].keys| > 1
      requires Rep(nodes, BranchAt(id, kids), Branch(keys, ts)) && Single([BranchAt(id, kids)], top) && child == kids[p].id
      requires Links(next, prev, top, pre + AllLeaves(kids) + post)
      modifies this`nodes, this`next, this`prev, this`root, this`depth
      ensures EraseDone(old(nodes), nodes, kids[p], out, Erase(order, ts[p], d, k), d, top, old(root), root, old(depth), depth)
      ensures Links(next, prev, top, pre + AllLeaves(Replace(kids, p, p + 1, [out])) + post)
      decreases d, 1
    {
      ghost var before, behind := ChildLinks(next, prev, top, pre, kids, p, post);
      ChildNode(nodes, id, kids, keys, ts, p, top);
      out := EraseFrom(child, d, k, kids[p], ts[p], lo, hi, before, behind);
      LeavesOfSingle(out);
    }

    /** The rest of `eraseFromBranchNode`, after the erasure in child p. */
    method AfterErasing(id: nat, d: nat, p: nat, child: nat, ghost h: Pool, ghost kids: seq<Shape>, ghost keys: seq<int>, ghost ts: seq<Tree>,
                        ghost kid: Shape, ghost c: Tree, ghost pre: seq<nat>, ghost post: seq<nat>)
      returns (ghost out: Shape)
      requires |ts| == |keys| + 1 && p < |ts| && AllShaped(ts, d) && Shaped(c, d) && AllShaped(ts[p := c], d) && FirstsInOrder(ts[p := c])
      requires |keys| > 0 && (|keys| == 1 ==> depth == d + 1)
      requires Rep(h, BranchAt(id, kids), Branch(keys, ts)) && Single([BranchAt(id, kids)], top)
      requires Became(h, nodes, [kids[p]], [kid], [c], top, top) && kid.id == kids[p].id == child
      requires Links(next, prev, top, pre + AllLeaves(Replace(kids, p, p + 1, [kid])) + post)
      modifies this`nodes, this`next, this`prev, this`root, this`depth
      ensures FixDone(h, nodes, id, kids, out, AfterErase(order, keys, ts, p, d, c), d, top, old(root), root, old(depth), depth)
      ensures Links(next, prev, top, pre + Leaves(out) + post)
    {
      ghost var h1, kids1, ts1, root0, depth0 := nodes, Replace(kids, p, p + 1, [kid]), ts[p := c], root, depth;
      KidReplaced(h, h1, id, kids, keys, ts, p, kid, c, top);
      out := RepairChild(id, d, p, child, kids1, keys, ts1, pre, post);
      FixAfter(h, h1, nodes, id, kids, kids1, Branch(keys, ts1), out, Repair(order, keys, ts1, p, d), d, top, root0, root, depth0, depth);
    }

    /** The repair of child p, if it holds too few keys. */
    method RepairChild(id: nat, d: nat, p: nat, child: nat, ghost kids: seq<Shape>, ghost keys: seq<int>, ghost ts: seq<Tree>,
                       ghost pre: seq<nat>, ghost post: seq<nat>)
      returns (ghost out: Shape)
      requires |ts| == |keys| + 1 && 0 < |keys| && p < |ts| && AllShaped(ts, d) && FirstsInOrder(ts)
      requires Rep(nodes, BranchAt(id, kids), Branch(keys, ts)) && Single([BranchAt(id, kids)], top) && child == kids[p].id
      requires Links(next, prev, top, pre + AllLeaves(kids) + post) && (|keys| == 1 ==> depth == d + 1)
      modifies this`nodes, this`next, this`prev, this`root, this`depth
      ensures FixDone(old(nodes), nodes, id, kids, out, Repair(order, keys, ts, p, d), d, top, old(root), root, old(depth), depth)
      ensures Links(next, prev, top, pre + Leaves(out) + post)
    {
      RepKid(nodes, id, kids, keys, ts, p);
      var mid := if d == 0 then order.LeafMiddle() else order.BranchMiddle();
      if |nodes[child].keys| >= mid {
        out := BranchAt(id, kids);
        NothingFixed(nodes, id, kids, keys, ts, d, top, root, depth);
      } else if d == 0 {
        out := UnderflowAtLeaf(id, p, child, kids, keys, ts, pre, post);
      } else {
        out := UnderflowAtBranch(id, p, child, d, kids, keys, ts);
      }
    }
  }
}
