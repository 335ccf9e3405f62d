/** What balancing and merging neighbours makes of the nodes of a tree. */
module PoolErase {
  import opened Wrappers
  import opened PbTree
  import opened PbInsert
  import opened PbErase
  import opened NodePool
  import opened LeafChain
  import opened PoolInsert

  function Without(h: Pool, id: nat): Pool {
    map x | x in h && x != id :: h[x]
  }

  /** One change after another. */
  lemma BecameTwice(h: Pool, h1: Pool, h2: Pool, s: seq<Shape>, s1: seq<Shape>, t1: seq<Tree>, s2: seq<Shape>, t2: seq<Tree>, top: nat)
    requires Became(h, h1, s, s1, t1, top, top) && Became(h1, h2, s1, s2, t2, top, top)
    ensures Became(h, h2, s, s2, t2, top, top)
  {
    forall x: nat
      ensures CountAll(s2, x) <= if x < top then CountAll(s, x) else if x < top then 1 else 0
      ensures x < top && CountAll(s, x) == 0 ==> Same(h, h2, x)
    {
      assert CountAll(s1, x) <= if x < top then CountAll(s, x) else if x < top then 1 else 0;
      assert CountAll(s2, x) <= if x < top then CountAll(s1, x) else if x < top then 1 else 0;
    }
  }

  lemma BecameSingle(h: Pool, h': Pool, s: seq<Shape>, s': seq<Shape>, ts: seq<Tree>, top: nat)
    requires Became(h, h', s, s', ts, top, top) && Single(s, top)
    ensures Single(s', top)
  {
    forall x: nat ensures CountAll(s', x) <= if x < top then 1 else 0 {
      assert CountAll(s', x) <= if x < top then CountAll(s, x) else if x < top then 1 else 0;
      assert CountAll(s, x) <= if x < top then 1 else 0;
    }
  }

  // ------------------------------------------------------ a pair below its parent

  lemma PairInside(h: Pool, h': Pool, id: nat, kids: seq<Shape>, keys: seq<int>, ts: seq<Tree>, i: nat,
                   out: seq<Shape>, ts': seq<Tree>, top: nat)
    requires Rep(h, BranchAt(id, kids), Branch(keys, ts)) && Single([BranchAt(id, kids)], top) && i + 1 < |kids|
    requires Became(h, h', [kids[i], kids[i + 1]], out, ts', top, top)
    ensures id in h' && h'[id] == BranchNode(keys, Tops(kids))
    ensures Became(h, h', kids, Replace(kids, i, i + 2, out), Replace(ts, i, i + 2, ts'), top, top)
  {
    BranchRep(h, id, kids, keys, ts);
    SingleKids(id, kids, top);
    assert [kids[i], kids[i + 1]] == kids[i..i + 2];
    CountSplit(kids, i, i + 2, id);
    assert Same(h, h', id);
    Inside(h, h', kids, ts, i, i + 2, out, ts', top, top);
  }

  /** Neighbours i and i + 1 and the separator between them change. */
  lemma PairSet(h: Pool, h1: Pool, h2: Pool, id: nat, kids: seq<Shape>, keys: seq<int>, ts: seq<Tree>, i: nat,
                out: seq<Shape>, pr: Pair, top: nat)
    requires Rep(h, BranchAt(id, kids), Branch(keys, ts)) && Single([BranchAt(id, kids)], top) && i < |keys| && |kids| == |keys| + 1
    requires Became(h, h1, [kids[i], kids[i + 1]], out, [pr.l, pr.r], top, top)
    requires |out| == 2 && out[0].id == kids[i].id && out[1].id == kids[i + 1].id
    requires h2 == h1[id := BranchNode(keys[i := pr.sep], Tops(kids))]
    ensures Became(h, h2, [BranchAt(id, kids)], [BranchAt(id, Replace(kids, i, i + 2, out))], [SetPair(keys, ts, i, pr)], top, top)
  {
    PairInside(h, h1, id, kids, keys, ts, i, out, [pr.l, pr.r], top);
    var after := Replace(kids, i, i + 2, out);
    assert Tops(after) == Tops(kids);
    assert ts[i := pr.l][i + 1 := pr.r] == Replace(ts, i, i + 2, [pr.l, pr.r]);
    ParentSet(h, h1, h2, id, kids, after, keys[i := pr.sep], Replace(ts, i, i + 2, [pr.l, pr.r]), top, top);
  }

  /** Neighbours i and i + 1 become one. */
  lemma PairMerge(h: Pool, h1: Pool, h2: Pool, id: nat, kids: seq<Shape>, keys: seq<int>, ts: seq<Tree>, i: nat,
                  m: Shape, t: Tree, top: nat)
    requires Rep(h, BranchAt(id, kids), Branch(keys, ts)) && Single([BranchAt(id, kids)], top) && i < |keys| && |kids| == |keys| + 1
    requires Became(h, h1, [kids[i], kids[i + 1]], [m], [t], top, top) && m.id == kids[i].id
    requires h2 == h1[id := BranchNode(RemoveAt(keys, i), RemoveAt(Tops(kids), i + 1))]
    ensures Became(h, h2, [BranchAt(id, kids)], [BranchAt(id, Replace(kids, i, i + 2, [m]))], [SetMerged(keys, ts, i, t)], top, top)
  {
    PairInside(h, h1, id, kids, keys, ts, i, [m], [t], top);
    var after := Replace(kids, i, i + 2, [m]);
    TopsMerged(kids, i, m);
    assert RemoveAt(ts[i := t], i + 1) == Replace(ts, i, i + 2, [t]);
    ParentSet(h, h1, h2, id, kids, after, RemoveAt(keys, i), Replace(ts, i, i + 2, [t]), top, top);
  }

  lemma TopsMerged(kids: seq<Shape>, i: nat, m: Shape)
    requires i + 1 < |kids| && m.id == kids[i].id
    ensures RemoveAt(Tops(kids), i + 1) == Tops(Replace(kids, i, i + 2, [m]))
  {
  }

  // ---------------------------------------------------------------- pairs of leaves

  lemma CountLeaves(l: nat, r: nat, x: nat)
    ensures CountAll([LeafAt(l), LeafAt(r)], x) == (if l == x then 1 else 0) + if r == x then 1 else 0
  {
    CountTwo(LeafAt(l), LeafAt(r), x);
  }

  lemma LeafPairSet(h: Pool, h': Pool, l: nat, r: nat, lt: Tree, rt: Tree, top: nat)
    requires Single([LeafAt(l), LeafAt(r)], top) && lt.Leaf? && rt.Leaf?
    requires h' == h[l := LeafNode(lt.keys, lt.vals)][r := LeafNode(rt.keys, rt.vals)]
    ensures Became(h, h', [LeafAt(l), LeafAt(r)], [LeafAt(l), LeafAt(r)], [lt, rt], top, top)
  {
    CountLeaves(l, r, l);
    CountLeaves(l, r, r);
    assert CountAll([LeafAt(l), LeafAt(r)], l) <= if l < top then 1 else 0;
    forall x: nat
      ensures x < top && CountAll([LeafAt(l), LeafAt(r)], x) == 0 ==> Same(h, h', x)
      ensures CountAll([LeafAt(l), LeafAt(r)], x) <= if x < top then CountAll([LeafAt(l), LeafAt(r)], x) else if x < top then 1 else 0
    {
      CountLeaves(l, r, x);
      assert CountAll([LeafAt(l), LeafAt(r)], x) <= if x < top then 1 else 0;
    }
  }

  lemma LeafPairMerge(h: Pool, h': Pool, l: nat, r: nat, t: Tree, top: nat)
    requires Single([LeafAt(l), LeafAt(r)], top) && t.Leaf?
    requires h' == Without(h[l := LeafNode(t.keys, t.vals)], r)
    ensures Became(h, h', [LeafAt(l), LeafAt(r)], [LeafAt(l)], [t], top, top)
  {
    CountLeaves(l, r, l);
    CountLeaves(l, r, r);
    assert CountAll([LeafAt(l), LeafAt(r)], l) <= if l < top then 1 else 0;
    forall x: nat
      ensures x < top && CountAll([LeafAt(l), LeafAt(r)], x) == 0 ==> Same(h, h', x)
      ensures CountAll([LeafAt(l)], x) <= if x < top then CountAll([LeafAt(l), LeafAt(r)], x) else if x < top then 1 else 0
    {
      CountLeaves(l, r, x);
      CountLeaf(l, x);
      assert CountAll([LeafAt(l), LeafAt(r)], x) <= if x < top then 1 else 0;
    }
  }

  // ----------------------------------------------------------- pairs of branch nodes

  lemma CountBranches(l: nat, lc: seq<Shape>, r: nat, rc: seq<Shape>, x: nat)
    ensures CountAll([BranchAt(l, lc), BranchAt(r, rc)], x) == (if l == x then 1 else 0) + (if r == x then 1 else 0) + CountAll(lc + rc, x)
  {
    CountTwo(BranchAt(l, lc), BranchAt(r, rc), x);
    CountConcat(lc, rc, x);
  }

  lemma PairSingle(l: nat, lc: seq<Shape>, r: nat, rc: seq<Shape>, x: nat, top: nat)
    requires Single([BranchAt(l, lc), BranchAt(r, rc)], top)
    ensures (if l == x then 1 else 0) + (if r == x then 1 else 0) + CountAll(lc + rc, x) <= if x < top then 1 else 0
  {
    CountBranches(l, lc, r, rc, x);
    assert CountAll([BranchAt(l, lc), BranchAt(r, rc)], x) <= if x < top then 1 else 0;
  }

  /** The children of two neighbours stay when only the neighbours change. */
  lemma GrandkidsKept(h: Pool, h': Pool, l: nat, lc: seq<Shape>, lk: seq<int>, lt: seq<Tree>, r: nat, rc: seq<Shape>, rk: seq<int>, rt: seq<Tree>, top: nat)
    requires Rep(h, BranchAt(l, lc), Branch(lk, lt)) && Rep(h, BranchAt(r, rc), Branch(rk, rt))
    requires Single([BranchAt(l, lc), BranchAt(r, rc)], top)
    requires forall x: nat :: x != l && x != r ==> Same(h, h', x)
    ensures Related(RepIn(h'), lc + rc, lt + rt) && l != r && l < top && r < top
    ensures forall x: nat :: CountAll(lc + rc, x) <= if x < top && x != l && x != r then 1 else 0
  {
    BranchRep(h, l, lc, lk, lt);
    BranchRep(h, r, rc, rk, rt);
    RelatedConcat(RepIn(h), lc, lt, rc, rt);
    PairSingle(l, lc, r, rc, l, top);
    PairSingle(l, lc, r, rc, r, top);
    forall x: nat ensures CountAll(lc + rc, x) <= if x < top && x != l && x != r then 1 else 0 {
      PairSingle(l, lc, r, rc, x, top);
    }
    RelatedKept(h, h', lc + rc, lt + rt);
  }

  lemma BranchPairSet(h: Pool, h': Pool, l: nat, lc: seq<Shape>, lk: seq<int>, lt: seq<Tree>, r: nat, rc: seq<Shape>, rk: seq<int>, rt: seq<Tree>,
                      j: nat, lk': seq<int>, rk': seq<int>, top: nat)
    requires Rep(h, BranchAt(l, lc), Branch(lk, lt)) && Rep(h, BranchAt(r, rc), Branch(rk, rt))
    requires Single([BranchAt(l, lc), BranchAt(r, rc)], top) && j <= |lc + rc|
    requires h' == h[l := BranchNode(lk', Tops(lc + rc)[..j])][r := BranchNode(rk', Tops(lc + rc)[j..])]
    ensures |lt + rt| == |lc + rc|
    ensures Became(h, h', [BranchAt(l, lc), BranchAt(r, rc)], Halves(l, r, lc + rc, j), [Branch(lk', (lt + rt)[..j]), Branch(rk', (lt + rt)[j..])], top, top)
  {
    var all, ts := lc + rc, lt + rt;
    GrandkidsKept(h, h', l, lc, lk, lt, r, rc, rk, rt, top);
    RelatedSlice(RepIn(h'), all, ts, 0, j);
    RelatedSlice(RepIn(h'), all, ts, j, |all|);
    TopsCut(all, j);
    BranchRep(h', l, all[..j], lk', ts[..j]);
    BranchRep(h', r, all[j..], rk', ts[j..]);
    HalvesCounted(h, h', l, lc, r, rc, j, lk', rk', top);
  }

  /** The grandchildren are shared out among the two branch nodes, and nothing else is touched. */
  lemma HalvesCounted(h: Pool, h': Pool, l: nat, lc: seq<Shape>, r: nat, rc: seq<Shape>, j: nat, lk': seq<int>, rk': seq<int>, top: nat)
    requires Single([BranchAt(l, lc), BranchAt(r, rc)], top) && j <= |lc + rc|
    requires h' == h[l := BranchNode(lk', Tops(lc + rc)[..j])][r := BranchNode(rk', Tops(lc + rc)[j..])]
    ensures forall x: nat :: CountAll(Halves(l, r, lc + rc, j), x) <= if x < top then CountAll([BranchAt(l, lc), BranchAt(r, rc)], x) else if x < top then 1 else 0
    ensures forall x: nat :: x < top && CountAll([BranchAt(l, lc), BranchAt(r, rc)], x) == 0 ==> Same(h, h', x)
  {
    var all := lc + rc;
    assert all[..j] + all[j..] == all;
    forall x: nat
      ensures CountAll(Halves(l, r, all, j), x) <= if x < top then CountAll([BranchAt(l, lc), BranchAt(r, rc)], x) else if x < top then 1 else 0
      ensures x < top && CountAll([BranchAt(l, lc), BranchAt(r, rc)], x) == 0 ==> Same(h, h', x)
    {
      CountBranches(l, lc, r, rc, x);
      CountBranches(l, all[..j], r, all[j..], x);
    }
  }

  lemma BranchPairMerge(h: Pool, h': Pool, l: nat, lc: seq<Shape>, lk: seq<int>, lt: seq<Tree>, r: nat, rc: seq<Shape>, rk: seq<int>, rt: seq<Tree>,
                        keys: seq<int>, top: nat)
    requires Rep(h, BranchAt(l, lc), Branch(lk, lt)) && Rep(h, BranchAt(r, rc), Branch(rk, rt))
    requires Single([BranchAt(l, lc), BranchAt(r, rc)], top)
    requires h' == Without(h[l := BranchNode(keys, Tops(lc + rc))], r)
    ensures Became(h, h', [BranchAt(l, lc), BranchAt(r, rc)], [BranchAt(l, lc + rc)], [Branch(keys, lt + rt)], top, top)
  {
    GrandkidsKept(h, h', l, lc, lk, lt, r, rc, rk, rt, top);
    BranchRep(h', l, lc + rc, keys, lt + rt);
    forall x: nat
      ensures CountAll([BranchAt(l, lc + rc)], x) <= if x < top then CountAll([BranchAt(l, lc), BranchAt(r, rc)], x) else if x < top then 1 else 0
      ensures x < top && CountAll([BranchAt(l, lc), BranchAt(r, rc)], x) == 0 ==> Same(h, h', x)
    {
      CountBranches(l, lc, r, rc, x);
      CountBranch(l, lc + rc, x);
    }
  }

  // --------------------------------------------------------------- balancing nodes

  function AsNode(t: Tree): Node
    requires t.Leaf?
  {
    LeafNode(t.keys, t.vals)
  }

  function AsLeaf(n: Node): Tree
    requires n.LeafNode?
  {
    Leaf(n.keys, n.vals)
  }

  predicate IsLeaf(n: Node) {
    n.LeafNode? && |n.keys| == |n.vals|
  }

  predicate IsBranch(n: Node) {
    n.BranchNode? && |n.kids| == |n.keys| + 1
  }

  /** `balanceLeafNodes`: the nodes move apart or together depending on their first keys. */
  method BalanceLeafNodes(donor: Node, receiver: Node) returns (donor': Node, receiver': Node)
    requires IsLeaf(donor) && IsLeaf(receiver) && |donor.keys| > |receiver.keys| > 0
    ensures IsLeaf(donor') && IsLeaf(receiver') && |donor'.keys| > 0 && |receiver'.keys| > 0
    ensures if donor.keys[0] < receiver.keys[0] then
              Pair(AsLeaf(donor'), receiver'.keys[0], AsLeaf(receiver')) == BalanceFromLeft(AsLeaf(donor), 0, AsLeaf(receiver), 0)
            else
              Pair(AsLeaf(receiver'), donor'.keys[0], AsLeaf(donor')) == BalanceFromRight(AsLeaf(receiver), 0, AsLeaf(donor), 0)
  {
    var balanced := (|donor.keys| + |receiver.keys|) / 2;
    var toMove := |donor.keys| - balanced;
    if donor.keys[0] < receiver.keys[0] {
      receiver' := LeafNode(donor.keys[balanced..] + receiver.keys, donor.vals[balanced..] + receiver.vals);
      donor' := LeafNode(donor.keys[..balanced], donor.vals[..balanced]);
    } else {
      receiver' := LeafNode(receiver.keys + donor.keys[..toMove], receiver.vals + donor.vals[..toMove]);
      donor' := LeafNode(donor.keys[toMove..], donor.vals[toMove..]);
    }
  }

  /** Two neighbouring branch nodes, joined and cut at key j. */
  function Recut(l: Node, sep: int, r: Node, j: nat): (Node, int, Node)
    requires IsBranch(l) && IsBranch(r) && j <= |l.keys| + |r.keys|
  {
    var keys, kids := l.keys + [sep] + r.keys, l.kids + r.kids;
    (BranchNode(keys[..j], kids[..j + 1]), keys[j], BranchNode(keys[j + 1..], kids[j + 1..]))
  }

  lemma CutInLeft<T>(lk: seq<int>, lc: seq<T>, sep: int, rk: seq<int>, rc: seq<T>, stay: nat)
    requires stay < |lk| && |lc| == |lk| + 1 && |rc| == |rk| + 1
    ensures var keys, kids := lk + [sep] + rk, lc + rc;
            && keys[..stay] == lk[..stay] && keys[stay] == lk[stay] && keys[stay + 1..] == lk[stay + 1..] + [sep] + rk
            && kids[..stay + 1] == lc[..stay + 1] && kids[stay + 1..] == lc[stay + 1..] + rc
  {
  }

  /** `balanceBranchNodes` */
  method BalanceBranchNodes(donor: Node, receiver: Node, sep: int) returns (donor': Node, sep': int, receiver': Node)
    requires IsBranch(donor) && IsBranch(receiver) && |donor.keys| > |receiver.keys| > 0
    ensures var half := (|donor.keys| + |receiver.keys|) / 2;
            if donor.keys[0] < receiver.keys[0] then (donor', sep', receiver') == Recut(donor, sep, receiver, half)
            else (receiver', sep', donor') == Recut(receiver, sep, donor, |donor.keys| + |receiver.keys| - half)
  {
    var balanced := (|donor.keys| + |receiver.keys|) / 2;
    var toMove := |donor.keys| - balanced;
    if donor.keys[0] < receiver.keys[0] {
      receiver' := BranchNode(donor.keys[balanced + 1..] + [sep] + receiver.keys, donor.kids[balanced + 1..] + receiver.kids);
      sep' := donor.keys[balanced];
      donor' := BranchNode(donor.keys[..balanced], donor.kids[..balanced + 1]);
      CutInLeft(donor.keys, donor.kids, sep, receiver.keys, receiver.kids, balanced);
    } else {
      receiver' := BranchNode(receiver.keys + [sep] + donor.keys[..toMove - 1], receiver.kids + donor.kids[..toMove]);
      sep' := donor.keys[toMove - 1];
      donor' := BranchNode(donor.keys[toMove..], donor.kids[toMove..]);
      CutInRight(receiver.keys, receiver.kids, sep, donor.keys, donor.kids, toMove);
    }
  }

  /** Where neighbours are cut again. */
  function CutPoint(l: nat, r: nat, fromLeft: bool): (j: nat)
    requires if fromLeft then l > r > 0 else r > l > 0
    ensures 0 < j < l + r
  {
    if fromLeft then (l + r) / 2 else l + r - (l + r) / 2
  }

  /** The neighbours l and r, balanced. */
  method BalancePair(l: Node, sep: int, r: Node, fromLeft: bool) returns (l': Node, sep': int, r': Node)
    requires IsBranch(l) && IsBranch(r) && if fromLeft then |l.keys| > |r.keys| > 0 else |r.keys| > |l.keys| > 0
    requires l.keys[0] < r.keys[0]
    ensures (l', sep', r') == Recut(l, sep, r, CutPoint(|l.keys|, |r.keys|, fromLeft))
  {
    if fromLeft {
      l', sep', r' := BalanceBranchNodes(l, r, sep);
    } else {
      r', sep', l' := BalanceBranchNodes(r, l, sep);
    }
  }

  function Balanced(l: Tree, sep: int, r: Tree, d: nat, fromLeft: bool): Pair
    requires SameKind(l, r, d) && if fromLeft then |l.keys| > |r.keys| > 0 else |r.keys| > |l.keys| > 0
  {
    if fromLeft then BalanceFromLeft(l, sep, r, d) else BalanceFromRight(l, sep, r, d)
  }

  lemma BalancedIsCut(l: Tree, sep: int, r: Tree, d: nat, fromLeft: bool)
    requires SameKind(l, r, d) && if fromLeft then |l.keys| > |r.keys| > 0 else |r.keys| > |l.keys| > 0
    ensures var j := CutPoint(|l.keys|, |r.keys|, fromLeft);
            && Shaped(Join(l, sep, r, d), d) && j < |Join(l, sep, r, d).keys|
            && Balanced(l, sep, r, d, fromLeft) == CutNode(Join(l, sep, r, d), d, j)
  {
    if fromLeft {
      BalanceLeftIsCut(l, sep, r, d);
    } else {
      BalanceRightIsCut(l, sep, r, d);
    }
  }

  /** What `Repair` does, by case. */
  lemma RepairByBalance(o: Order, keys: seq<int>, ts: seq<Tree>, p: nat, d: nat, fromLeft: bool)
    requires 0 < |keys| && |ts| == |keys| + 1 && p < |ts| && AllShaped(ts, d) && |ts[p].keys| > 0
    requires if fromLeft then p > 0 else p < |keys|
    requires var mid := if d == 0 then o.LeafMiddle() else o.BranchMiddle();
             && |ts[p].keys| < mid && if fromLeft then |ts[p - 1].keys| > mid else |ts[p + 1].keys| > mid && (p > 0 ==> |ts[p - 1].keys| <= mid)
    ensures var i := if fromLeft then p - 1 else p;
            Repair(o, keys, ts, p, d) == SetPair(keys, ts, i, Balanced(ts[i], keys[i], ts[i + 1], d, fromLeft))
  {
  }

  lemma RepairByJoin(o: Order, keys: seq<int>, ts: seq<Tree>, p: nat, d: nat)
    requires 0 < |keys| && |ts| == |keys| + 1 && p < |ts| && AllShaped(ts, d) && |ts[p].keys| > 0
    requires var mid := if d == 0 then o.LeafMiddle() else o.BranchMiddle();
             && |ts[p].keys| < mid && (p > 0 ==> |ts[p - 1].keys| <= mid) && (p < |keys| ==> |ts[p + 1].keys| <= mid)
    ensures var i := if p > 0 then p - 1 else p;
            Repair(o, keys, ts, p, d) == SetMerged(keys, ts, i, Join(ts[i], keys[i], ts[i + 1], d))
  {
  }

  // --------------------------------------------- from the neighbours to their parent

  lemma PairOfSingle(id: nat, kids: seq<Shape>, i: nat, top: nat)
    requires Single([BranchAt(id, kids)], top) && i + 1 < |kids|
    ensures Single([kids[i], kids[i + 1]], top)
  {
    SingleKids(id, kids, top);
    var pair := kids[i..i + 2];
    assert [kids[i], kids[i + 1]] == pair;
    forall x: nat ensures CountAll(pair, x) <= if x < top then 1 else 0 {
      CountSplit(kids, i, i + 2, x);
      assert CountAll(kids, x) <= if x < top then 1 else 0;
    }
  }

  /** Children that are leaves. */
  lemma LeafKid(h: Pool, id: nat, kids: seq<Shape>, keys: seq<int>, ts: seq<Tree>, i: nat)
    requires Rep(h, BranchAt(id, kids), Branch(keys, ts)) && AllShaped(ts, 0) && i < |ts|
    ensures kids[i] == LeafAt(kids[i].id) && kids[i].id in h && IsLeaf(h[kids[i].id]) && AsLeaf(h[kids[i].id]) == ts[i]
  {
    BranchRep(h, id, kids, keys, ts);
    assert RepIn(h)(kids[i], ts[i]);
  }

  lemma LeafBalanceDone(h: Pool, h': Pool, id: nat, kids: seq<Shape>, keys: seq<int>, ts: seq<Tree>, i: nat, pr: Pair, top: nat)
    requires Rep(h, BranchAt(id, kids), Branch(keys, ts)) && Single([BranchAt(id, kids)], top) && AllShaped(ts, 0)
    requires i < |keys| && |kids| == |keys| + 1 && pr.l.Leaf? && pr.r.Leaf?
    requires h' == h[kids[i].id := AsNode(pr.l)][kids[i + 1].id := AsNode(pr.r)][id := BranchNode(keys[i := pr.sep], Tops(kids))]
    ensures Became(h, h', [BranchAt(id, kids)], [BranchAt(id, kids)], [SetPair(keys, ts, i, pr)], top, top)
  {
    LeafKid(h, id, kids, keys, ts, i);
    LeafKid(h, id, kids, keys, ts, i + 1);
    PairOfSingle(id, kids, i, top);
    var l, r := kids[i].id, kids[i + 1].id;
    var h1 := h[l := AsNode(pr.l)][r := AsNode(pr.r)];
    LeafPairSet(h, h1, l, r, pr.l, pr.r, top);
    PairSet(h, h1, h', id, kids, keys, ts, i, [kids[i], kids[i + 1]], pr, top);
    assert [kids[i], kids[i + 1]] == kids[i..i + 2];
    ReplaceSelf(kids, i, i + 2);
  }

  lemma LeafMergeBelow(h: Pool, h': Pool, id: nat, kids: seq<Shape>, keys: seq<int>, ts: seq<Tree>, i: nat, t: Tree, top: nat)
    requires Rep(h, BranchAt(id, kids), Branch(keys, ts)) && Single([BranchAt(id, kids)], top) && AllShaped(ts, 0)
    requires i < |keys| && |kids| == |keys| + 1 && t.Leaf?
    requires h' == Without(h[kids[i].id := AsNode(t)], kids[i + 1].id)
    ensures Became(h, h', [kids[i], kids[i + 1]], [kids[i]], [t], top, top) && id in h' && h'[id] == BranchNode(keys, Tops(kids))
  {
    LeafKid(h, id, kids, keys, ts, i);
    LeafKid(h, id, kids, keys, ts, i + 1);
    PairOfSingle(id, kids, i, top);
    LeafPairMerge(h, h', kids[i].id, kids[i + 1].id, t, top);
    PairInside(h, h', id, kids, keys, ts, i, [kids[i]], [t], top);
  }

  /** Children that are branch nodes. */
  lemma BranchKid(h: Pool, id: nat, kids: seq<Shape>, keys: seq<int>, ts: seq<Tree>, i: nat, d: nat)
    requires Rep(h, BranchAt(id, kids), Branch(keys, ts)) && AllShaped(ts, d) && d > 0 && i < |ts|
    ensures kids[i].BranchAt? && kids[i].id in h && IsBranch(h[kids[i].id]) && h[kids[i].id] == BranchNode(ts[i].keys, Tops(kids[i].kids))
    ensures ts[i].Branch? && Rep(h, kids[i], ts[i])
  {
    BranchRep(h, id, kids, keys, ts);
    assert RepIn(h)(kids[i], ts[i]);
  }

  lemma TopsConcat(a: seq<Shape>, b: seq<Shape>)
    ensures Tops(a + b) == Tops(a) + Tops(b)
  {
  }

  lemma BranchBalanceDone(h: Pool, h': Pool, id: nat, kids: seq<Shape>, keys: seq<int>, ts: seq<Tree>, i: nat, d: nat, j: nat, pr: Pair, top: nat)
    returns (out: Shape)
    requires Rep(h, BranchAt(id, kids), Branch(keys, ts)) && Single([BranchAt(id, kids)], top) && AllShaped(ts, d) && d > 0
    requires i < |keys| && |kids| == |keys| + 1
    requires SameKind(ts[i], ts[i + 1], d) && Shaped(Join(ts[i], keys[i], ts[i + 1], d), d) && j < |Join(ts[i], keys[i], ts[i + 1], d).keys|
    requires pr == CutNode(Join(ts[i], keys[i], ts[i + 1], d), d, j)
    requires kids[i].id in h && IsBranch(h[kids[i].id]) && kids[i + 1].id in h && IsBranch(h[kids[i + 1].id])
    requires j <= |h[kids[i].id].keys| + |h[kids[i + 1].id].keys|
    requires var cut := Recut(h[kids[i].id], keys[i], h[kids[i + 1].id], j);
             h' == h[kids[i].id := cut.0][kids[i + 1].id := cut.2][id := BranchNode(keys[i := cut.1], Tops(kids))]
    ensures Became(h, h', [BranchAt(id, kids)], [out], [SetPair(keys, ts, i, pr)], top, top)
    ensures out.id == id && Leaves(out) == AllLeaves(kids)
  {
    BranchKid(h, id, kids, keys, ts, i, d);
    BranchKid(h, id, kids, keys, ts, i + 1, d);
    PairOfSingle(id, kids, i, top);
    var l, r := kids[i], kids[i + 1];
    var all := l.kids + r.kids;
    TopsConcat(l.kids, r.kids);
    var cut := Recut(h[l.id], keys[i], h[r.id], j);
    var h1 := h[l.id := cut.0][r.id := cut.2];
    BranchPairSet(h, h1, l.id, l.kids, ts[i].keys, ts[i].kids, r.id, r.kids, ts[i + 1].keys, ts[i + 1].kids, j + 1, pr.l.keys, pr.r.keys, top);
    var halves := Halves(l.id, r.id, all, j + 1);
    PairSet(h, h1, h', id, kids, keys, ts, i, halves, pr, top);
    out := BranchAt(id, Replace(kids, i, i + 2, halves));
    LeavesOfPair(kids, i, halves, j + 1);
  }

  lemma LeavesOfPair(kids: seq<Shape>, i: nat, halves: seq<Shape>, j: nat)
    requires i + 1 < |kids| && kids[i].BranchAt? && kids[i + 1].BranchAt? && j <= |kids[i].kids + kids[i + 1].kids|
    requires halves == Halves(kids[i].id, kids[i + 1].id, kids[i].kids + kids[i + 1].kids, j)
    ensures AllLeaves(Replace(kids, i, i + 2, halves)) == AllLeaves(kids)
  {
    LeavesOfCut(kids[i].id, kids[i + 1].id, kids[i].kids + kids[i + 1].kids, j);
    LeavesJoined(kids, i);
    LeavesReplace(kids, i, i + 2, halves);
    LeavesSplit(kids, i, i + 2);
  }

  lemma LeavesJoined(kids: seq<Shape>, i: nat)
    requires i + 1 < |kids| && kids[i].BranchAt? && kids[i + 1].BranchAt?
    ensures AllLeaves(kids[i].kids + kids[i + 1].kids) == AllLeaves(kids[i..i + 2])
  {
    assert [kids[i], kids[i + 1]] == kids[i..i + 2];
    LeavesTwo(kids[i], kids[i + 1]);
    LeavesConcat(kids[i].kids, kids[i + 1].kids);
  }

  lemma BranchMergeBelow(h: Pool, h': Pool, id: nat, kids: seq<Shape>, keys: seq<int>, ts: seq<Tree>, i: nat, d: nat, top: nat)
    returns (m: Shape)
    requires Rep(h, BranchAt(id, kids), Branch(keys, ts)) && Single([BranchAt(id, kids)], top) && AllShaped(ts, d) && d > 0
    requires i < |keys| && |kids| == |keys| + 1 && SameKind(ts[i], ts[i + 1], d)
    requires kids[i].id in h && IsBranch(h[kids[i].id]) && kids[i + 1].id in h && IsBranch(h[kids[i + 1].id])
    requires var l, r := h[kids[i].id], h[kids[i + 1].id];
             h' == Without(h[kids[i].id := BranchNode(l.keys + [keys[i]] + r.keys, l.kids + r.kids)], kids[i + 1].id)
    ensures Became(h, h', [kids[i], kids[i + 1]], [m], [Join(ts[i], keys[i], ts[i + 1], d)], top, top)
    ensures m.id == kids[i].id && id in h' && h'[id] == BranchNode(keys, Tops(kids))
    ensures AllLeaves(Replace(kids, i, i + 2, [m])) == AllLeaves(kids)
  {
    BranchKid(h, id, kids, keys, ts, i, d);
    BranchKid(h, id, kids, keys, ts, i + 1, d);
    PairOfSingle(id, kids, i, top);
    var l, r := kids[i], kids[i + 1];
    TopsConcat(l.kids, r.kids);
    BranchPairMerge(h, h', l.id, l.kids, ts[i].keys, ts[i].kids, r.id, r.kids, ts[i + 1].keys, ts[i + 1].kids,
                    ts[i].keys + [keys[i]] + ts[i + 1].keys, top);
    m := BranchAt(l.id, l.kids + r.kids);
    PairInside(h, h', id, kids, keys, ts, i, [m], [Join(ts[i], keys[i], ts[i + 1], d)], top);
    LeavesOfOne(l.id, l.kids + r.kids);
    LeavesJoined(kids, i);
    LeavesReplace(kids, i, i + 2, [m]);
    LeavesSplit(kids, i, i + 2);
  }

  // -------------------------------------------------------------------- the result

  /** The tree at s became the tree b of height d or, if b has a single child left,
      that child, which is the new root. */
  ghost predicate EraseDone(h: Pool, h': Pool, s: Shape, out: Shape, b: Tree, d: nat, top: nat,
                            root: nat, root': nat, depth: nat, depth': nat)
  {
    var (t', d') := Collapse(b, d);
    && Became(h, h', [s], [out], [t'], top, top)
    && if d' == d then out.id == s.id && root' == root && depth' == depth else root' == out.id && depth' + 1 == depth
  }

  ghost predicate FixDone(h: Pool, h': Pool, id: nat, kids: seq<Shape>, out: Shape, b: Tree, d: nat, top: nat,
                          root: nat, root': nat, depth: nat, depth': nat)
  {
    EraseDone(h, h', BranchAt(id, kids), out, b, d + 1, top, root, root', depth, depth')
  }

  lemma BalanceFixed(h: Pool, h': Pool, id: nat, kids: seq<Shape>, out: Shape, keys: seq<int>, ts: seq<Tree>, i: nat, pr: Pair, d: nat, top: nat,
                     root: nat, depth: nat)
    requires i < |keys| && |ts| == |keys| + 1 && out.id == id
    requires Became(h, h', [BranchAt(id, kids)], [out], [SetPair(keys, ts, i, pr)], top, top)
    ensures FixDone(h, h', id, kids, out, SetPair(keys, ts, i, pr), d, top, root, root, depth, depth)
  {
  }

  /** A merge: the parent loses a child or, if it is a root with two children, is
      replaced by the merged child. */
  lemma MergeFixed(h: Pool, h1: Pool, h2: Pool, id: nat, kids: seq<Shape>, keys: seq<int>, ts: seq<Tree>, i: nat, m: Shape, t: Tree, d: nat, top: nat,
                   root: nat, root': nat, depth: nat, depth': nat)
    returns (out: Shape)
    requires Rep(h, BranchAt(id, kids), Branch(keys, ts)) && Single([BranchAt(id, kids)], top) && i < |keys| && |kids| == |keys| + 1
    requires Became(h, h1, [kids[i], kids[i + 1]], [m], [t], top, top) && m.id == kids[i].id
    requires if |keys| > 1 then h2 == h1[id := BranchNode(RemoveAt(keys, i), RemoveAt(Tops(kids), i + 1))] && root' == root && depth' == depth
             else MergedRoot(h1, h2, id) && root' == m.id && depth' + 1 == depth
    ensures FixDone(h, h2, id, kids, out, SetMerged(keys, ts, i, t), d, top, root, root', depth, depth')
    ensures Leaves(out) == AllLeaves(Replace(kids, i, i + 2, [m]))
  {
    if |keys| > 1 {
      PairMerge(h, h1, h2, id, kids, keys, ts, i, m, t, top);
      out := BranchAt(id, Replace(kids, i, i + 2, [m]));
    } else {
      assert [kids[0], kids[1]] == kids;
      RootDropped(h, h1, h2, id, kids, m, t, top);
      out := m;
      assert Replace(kids, i, i + 2, [m]) == [m];
      assert [m][1..] == [];
    }
  }

  /** Nothing but the node of the former root may have changed. */
  ghost predicate MergedRoot(h: Pool, h': Pool, id: nat) {
    forall x: nat :: x != id ==> Same(h, h', x)
  }

  lemma RootDropped(h: Pool, h1: Pool, h2: Pool, id: nat, kids: seq<Shape>, m: Shape, t: Tree, top: nat)
    requires Single([BranchAt(id, kids)], top) && Became(h, h1, kids, [m], [t], top, top) && MergedRoot(h1, h2, id)
    ensures Became(h, h2, [BranchAt(id, kids)], [m], [t], top, top)
  {
    SingleKids(id, kids, top);
    assert AllKept(h1, h2, [m]) by {
      assert CountAll([m], id) <= CountAll(kids, id);
    }
    RelatedKept(h1, h2, [m], [t]);
    forall x: nat
      ensures CountAll([m], x) <= if x < top then CountAll([BranchAt(id, kids)], x) else if x < top then 1 else 0
      ensures x < top && CountAll([BranchAt(id, kids)], x) == 0 ==> Same(h, h2, x)
    {
      CountBranch(id, kids, x);
      assert CountAll([m], x) <= if x < top then CountAll(kids, x) else if x < top then 1 else 0;
      assert x < top && CountAll(kids, x) == 0 ==> Same(h, h1, x);
      assert x != id ==> Same(h1, h2, x);
    }
  }

  // ------------------------------------------------------------------ leaf neighbours

  /** The chain around two neighbouring leaves. */
  lemma LeafPairLinks(kids: seq<Shape>, i: nat, l: nat, r: nat, pre: seq<nat>, post: seq<nat>)
    requires i + 1 < |kids| && kids[i] == LeafAt(l) && kids[i + 1] == LeafAt(r)
    ensures pre + AllLeaves(kids) + post == (pre + AllLeaves(kids[..i])) + [l, r] + (AllLeaves(kids[i + 2..]) + post)
    ensures pre + AllLeaves(Replace(kids, i, i + 2, [kids[i]])) + post == (pre + AllLeaves(kids[..i])) + [l] + (AllLeaves(kids[i + 2..]) + post)
  {
    LeavesInside(pre, kids, i, i + 2, post);
    LeavesOutside(pre, kids, i, i + 2, [kids[i]], post);
    assert kids[i..i + 2] == [kids[i], kids[i + 1]];
    LeavesTwo(kids[i], kids[i + 1]);
    assert [kids[i]][1..] == [];
  }

  lemma LeafNeighbours(h: Pool, id: nat, kids: seq<Shape>, keys: seq<int>, ts: seq<Tree>, i: nat,
                       next: map<nat, nat>, prev: map<nat, nat>, top: nat, pre: seq<nat>, post: seq<nat>)
    requires Rep(h, BranchAt(id, kids), Branch(keys, ts)) && AllShaped(ts, 0) && i + 1 < |ts|
    requires Links(next, prev, top, pre + AllLeaves(kids) + post)
    ensures kids[i].id in next && next[kids[i].id] == kids[i + 1].id && kids[i + 1].id in prev && prev[kids[i + 1].id] == kids[i].id
  {
    LeafKid(h, id, kids, keys, ts, i);
    LeafKid(h, id, kids, keys, ts, i + 1);
    LeafPairLinks(kids, i, kids[i].id, kids[i + 1].id, pre, post);
    Neighbours(next, prev, top, pre + AllLeaves(kids[..i]), kids[i].id, kids[i + 1].id, AllLeaves(kids[i + 2..]) + post);
  }

  /** No node is empty, and the first keys of neighbours are in order. */
  ghost predicate FirstsInOrder(ts: seq<Tree>) {
    && (forall i :: 0 <= i < |ts| ==> |ts[i].keys| > 0)
    && (forall i :: 0 < i < |ts| ==> ts[i - 1].keys[0] < ts[i].keys[0])
  }

  lemma FirstWithin(o: Order, t: Tree, d: nat, lo: Option<int>, hi: Option<int>)
    requires OrderOk(o) && Loose(o, t, d, lo, hi)
    ensures |t.keys| > 0 && AtLeast(lo, t.keys[0]) && Below(t.keys[0], hi)
  {
  }

  lemma LooseFirsts(o: Order, keys: seq<int>, ts: seq<Tree>, d: nat, lo: Option<int>, hi: Option<int>, p: nat)
    requires OrderOk(o) && |ts| == |keys| + 1 && p < |ts| && KidsLoose(o, keys, ts, d, lo, hi, p)
    ensures FirstsInOrder(ts)
  {
    forall i | 0 <= i < |ts|
      ensures |ts[i].keys| > 0 && AtLeast(KidLo(keys, lo, i), ts[i].keys[0]) && Below(ts[i].keys[0], KidHi(keys, hi, i))
    {
      GoodIsNode(o, ts[i], d, KidLo(keys, lo, i), KidHi(keys, hi, i));
      FirstWithin(o, ts[i], d, KidLo(keys, lo, i), KidHi(keys, hi, i));
    }
  }

  // ------------------------------------------------- from a child to its parent, erasing

  lemma LeafErased(h: Pool, h': Pool, id: nat, keys: seq<int>, vals: seq<int>, k: int, top: nat, root: nat, depth: nat)
    requires |keys| == |vals| && Single([LeafAt(id)], top) && h' == h[id := AsNode(EraseLeaf(keys, vals, k))]
    ensures EraseDone(h, h', LeafAt(id), LeafAt(id), EraseLeaf(keys, vals, k), 0, top, root, root, depth, depth)
  {
    var before := [LeafAt(id)];
    forall x: nat
      ensures CountAll(before, x) <= if x < top then CountAll(before, x) else if x < top then 1 else 0
      ensures x < top && CountAll(before, x) == 0 ==> Same(h, h', x)
    {
      CountLeaf(id, x);
      assert CountAll(before, x) <= if x < top then 1 else 0;
    }
  }

  /** A child keeps at least one key and hence its place. */
  lemma KidErased(o: Order, keys: seq<int>, ts: seq<Tree>, d: nat, lo: Option<int>, hi: Option<int>, k: int, p: nat)
    requires OrderOk(o) && |ts| == |keys| + 1 && KeysOk(keys, lo, hi) && KidsGood(o, keys, ts, d, lo, hi)
    requires AtLeast(lo, k) && Below(k, hi) && p == UpperBound(keys, k)
    ensures Shaped(ts[p], d) && LooseKid(o, keys, ts, d, lo, hi, p, Erase(o, ts[p], d, k))
  {
    ChildGood(o, keys, ts, d, lo, hi, k);
    EraseOk(o, ts[p], d, KidLo(keys, lo, p), KidHi(keys, hi, p), k);
  }

  /** A tree that may stand in for child p until it is repaired. */
  ghost predicate LooseKid(o: Order, keys: seq<int>, ts: seq<Tree>, d: nat, lo: Option<int>, hi: Option<int>, p: nat, c: Tree)
    requires |ts| == |keys| + 1 && p < |ts|
  {
    Shaped(c, d) && Loose(o, c, d, KidLo(keys, lo, p), KidHi(keys, hi, p))
  }

  lemma LooseKeepsKey(o: Order, c: Tree, d: nat, lo: Option<int>, hi: Option<int>)
    requires OrderOk(o) && Loose(o, c, d, lo, hi)
    ensures |c.keys| > 0 && Collapse(c, d) == (c, d)
  {
  }

  lemma LooseKids(o: Order, keys: seq<int>, ts: seq<Tree>, d: nat, lo: Option<int>, hi: Option<int>, p: nat, c: Tree)
    requires OrderOk(o) && |ts| == |keys| + 1 && p < |ts| && KidsGood(o, keys, ts, d, lo, hi) && AllShaped(ts, d)
    requires LooseKid(o, keys, ts, d, lo, hi, p, c)
    ensures AllShaped(ts[p := c], d) && FirstsInOrder(ts[p := c])
  {
    assert KidsAre(GoodAt(o, d), keys, ts, lo, hi);
    SetLoose(GoodAt(o, d), keys, ts, lo, hi, p, c);
    var ts' := ts[p := c];
    forall q | 0 <= q < |ts'| && q != p ensures Good(o, ts'[q], d, KidLo(keys, lo, q), KidHi(keys, hi, q)) {
      assert GoodAt(o, d)(ts'[q], KidLo(keys, lo, q), KidHi(keys, hi, q));
    }
    LooseFirsts(o, keys, ts', d, lo, hi, p);
  }

  lemma SetLoose(g: Judgement, keys: seq<int>, ts: seq<Tree>, lo: Option<int>, hi: Option<int>, p: nat, c: Tree)
    requires |ts| == |keys| + 1 && KidsAre(g, keys, ts, lo, hi) && p < |ts|
    ensures forall q :: 0 <= q < |ts| && q != p ==> g(ts[p := c][q], KidLo(keys, lo, q), KidHi(keys, hi, q))
  {
  }

  /** The parent after the erasure in child p, before any repair. */
  lemma KidReplaced(h: Pool, h1: Pool, id: nat, kids: seq<Shape>, keys: seq<int>, ts: seq<Tree>, p: nat, c: Shape, t: Tree, top: nat)
    requires Rep(h, BranchAt(id, kids), Branch(keys, ts)) && Single([BranchAt(id, kids)], top) && p < |kids|
    requires Became(h, h1, [kids[p]], [c], [t], top, top) && c.id == kids[p].id
    ensures var kids' := Replace(kids, p, p + 1, [c]);
            && Became(h, h1, [BranchAt(id, kids)], [BranchAt(id, kids')], [Branch(keys, ts[p := t])], top, top)
            && Rep(h1, BranchAt(id, kids'), Branch(keys, ts[p := t])) && Single([BranchAt(id, kids')], top)
            && |kids'| == |kids| && kids'[p] == c
  {
    KidStayed(h, h1, id, kids, keys, ts, p, c, t, top, top);
    var after := [BranchAt(id, Replace(kids, p, p + 1, [c]))];
    BecameSingle(h, h1, [BranchAt(id, kids)], after, [Branch(keys, ts[p := t])], top);
    assert RepIn(h1)(after[0], [Branch(keys, ts[p := t])][0]);
  }

  /** Erasure in a child followed by a repair. */
  lemma FixAfter(h: Pool, h1: Pool, h2: Pool, id: nat, kids: seq<Shape>, kids1: seq<Shape>, t1: Tree, out: Shape, b: Tree, d: nat, top: nat,
                 root: nat, root': nat, depth: nat, depth': nat)
    requires Became(h, h1, [BranchAt(id, kids)], [BranchAt(id, kids1)], [t1], top, top)
    requires FixDone(h1, h2, id, kids1, out, b, d, top, root, root', depth, depth')
    ensures FixDone(h, h2, id, kids, out, b, d, top, root, root', depth, depth')
  {
    var (t', d') := Collapse(b, d + 1);
    BecameTwice(h, h1, h2, [BranchAt(id, kids)], [BranchAt(id, kids1)], [t1], [out], [t'], top);
  }

  lemma RepKid(h: Pool, id: nat, kids: seq<Shape>, keys: seq<int>, ts: seq<Tree>, p: nat)
    requires Rep(h, BranchAt(id, kids), Branch(keys, ts)) && p < |ts|
    ensures kids[p].id in h && h[kids[p].id].keys == ts[p].keys
  {
    BranchRep(h, id, kids, keys, ts);
    assert RepIn(h)(kids[p], ts[p]);
  }

  lemma NothingFixed(h: Pool, id: nat, kids: seq<Shape>, keys: seq<int>, ts: seq<Tree>, d: nat, top: nat, root: nat, depth: nat)
    requires Rep(h, BranchAt(id, kids), Branch(keys, ts)) && Single([BranchAt(id, kids)], top) && |keys| > 0
    ensures FixDone(h, h, id, kids, BranchAt(id, kids), Branch(keys, ts), d, top, root, root, depth, depth)
  {
    var before := [BranchAt(id, kids)];
    forall x: nat ensures CountAll(before, x) <= if x < top then CountAll(before, x) else if x < top then 1 else 0 {
      assert CountAll(before, x) <= if x < top then 1 else 0;
    }
  }

  lemma LeavesOfSingle(s: Shape)
    ensures AllLeaves([s]) == Leaves(s)
  {
    assert [s][1..] == [];
  }

  lemma ChildReady(o: Order, keys: seq<int>, ts: seq<Tree>, d: nat, lo: Option<int>, hi: Option<int>, k: int, p: nat)
    requires OrderOk(o) && |ts| == |keys| + 1 && KeysOk(keys, lo, hi) && KidsGood(o, keys, ts, d, lo, hi)
    requires AtLeast(lo, k) && Below(k, hi) && p == UpperBound(keys, k)
    ensures Shaped(ts[p], d) && NodeOk(o, ts[p], d, KidLo(keys, lo, p), KidHi(keys, hi, p)) && |ts[p].keys| > 1
    ensures AtLeast(KidLo(keys, lo, p), k) && Below(k, KidHi(keys, hi, p))
  {
    ChildGood(o, keys, ts, d, lo, hi, k);
    GoodIsNode(o, ts[p], d, KidLo(keys, lo, p), KidHi(keys, hi, p));
  }
}
