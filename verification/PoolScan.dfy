/** Reading a tree leaf by leaf along the chain of leaves. */
module PoolScan {
  import opened Wrappers
  import opened PbTree
  import opened PbInsert
  import opened PbErase
  import opened NodePool
  import opened LeafChain
  import opened PoolInsert
  import opened PoolErase

  function InRange(es: seq<Entry>, min: int, max: int): seq<Entry> {
    if es == [] then []
    else (if min <= es[0].0 <= max then [es[0]] else []) + InRange(es[1..], min, max)
  }

  /** Exactly the entries with a key in [min, max], and in the same order: sorted
      entries stay sorted. */
  lemma {:induction false} InRangeExact(es: seq<Entry>, min: int, max: int)
    requires SortedEntries(es)
    ensures SortedEntries(InRange(es, min, max))
    ensures forall e :: e in InRange(es, min, max) <==> e in es && min <= e.0 <= max
  {
    if es != [] {
      InRangeExact(es[1..], min, max);
      var rest := InRange(es[1..], min, max);
      assert es == [es[0]] + es[1..];
      forall i | 0 <= i < |rest| ensures es[0].0 < rest[i].0 {
        assert rest[i] in es[1..];
      }
    }
  }

  lemma {:induction false} InRangeConcat(a: seq<Entry>, b: seq<Entry>, min: int, max: int)
    ensures InRange(a + b, min, max) == InRange(a, min, max) + InRange(b, min, max)
  {
    if a == [] {
      assert a + b == b;
    } else {
      InRangeConcat(a[1..], b, min, max);
      Headed(a, b);
    }
  }

  lemma {:induction false} NoneBelow(es: seq<Entry>, min: int, max: int)
    requires AllBelow(es, min)
    ensures InRange(es, min, max) == []
  {
    if es != [] {
      NoneBelow(es[1..], min, max);
    }
  }

  lemma {:induction false} NoneAbove(es: seq<Entry>, min: int, max: int)
    requires AllAbove(es, max)
    ensures InRange(es, min, max) == []
  {
    if es != [] {
      NoneAbove(es[1..], min, max);
    }
  }

  // --------------------------------------------------------- entries along the chain

  ghost function LeafEntries(h: Pool, id: nat): seq<Entry> {
    if id in h && IsLeaf(h[id]) then Pairs(h[id].keys, h[id].vals) else []
  }

  ghost function Read(h: Pool, chain: seq<nat>): seq<Entry> {
    if chain == [] then [] else LeafEntries(h, chain[0]) + Read(h, chain[1..])
  }

  lemma {:induction false} ReadConcat(h: Pool, a: seq<nat>, b: seq<nat>)
    ensures Read(h, a + b) == Read(h, a) + Read(h, b)
  {
    if a == [] {
      assert a + b == b;
    } else {
      ReadConcat(h, a[1..], b);
      Headed(a, b);
      assert Read(h, a + b) == LeafEntries(h, a[0]) + (Read(h, a[1..]) + Read(h, b));
    }
  }

  /** Reading the leaves in chain order gives the entries of the tree. */
  lemma {:induction false} ReadTree(h: Pool, s: Shape, t: Tree, d: nat)
    requires Rep(h, s, t) && Shaped(t, d)
    ensures Read(h, Leaves(s)) == Entries(t, d)
    decreases d, 0, 0
  {
    match s
    case LeafAt(id) => assert [id][1..] == [];
    case BranchAt(id, kids) => ReadKids(h, kids, t.kids, d - 1);
  }

  lemma {:induction false} ReadKids(h: Pool, kids: seq<Shape>, ts: seq<Tree>, d: nat)
    requires |kids| == |ts| && AllShaped(ts, d) && forall i :: 0 <= i < |kids| ==> Rep(h, kids[i], ts[i])
    ensures Read(h, AllLeaves(kids)) == AllEntries(ts, d)
    decreases d, 1, |kids|
  {
    if kids != [] {
      ReadTree(h, kids[0], ts[0], d);
      ReadKids(h, kids[1..], ts[1..], d);
      ReadConcat(h, Leaves(kids[0]), AllLeaves(kids[1..]));
    }
  }

  // ------------------------------------------------------------------- one level down

  /** The subtree t at s is where a search for k has come to: its leaves lie between
      `pre` and `post`, and all keys in `pre` are below k. */
  ghost predicate Reached(o: Order, h: Pool, s: Shape, t: Tree, d: nat, lo: Option<int>, hi: Option<int>, k: int, pre: seq<nat>) {
    Shaped(t, d) && NodeOk(o, t, d, lo, hi) && AtLeast(lo, k) && Below(k, hi) && Rep(h, s, t) && AllBelow(Read(h, pre), k)
  }

  lemma StepDown(o: Order, h: Pool, s: Shape, t: Tree, d: nat, lo: Option<int>, hi: Option<int>, k: int, pre: seq<nat>, post: seq<nat>)
    returns (before: seq<nat>, behind: seq<nat>)
    requires d > 0 && Reached(o, h, s, t, d, lo, hi, k, pre)
    ensures var p := UpperBound(t.keys, k);
            && s.BranchAt? && |s.kids| == |t.kids| && h[s.id] == BranchNode(t.keys, Tops(s.kids))
            && Reached(o, h, s.kids[p], t.kids[p], d - 1, KidLo(t.keys, lo, p), KidHi(t.keys, hi, p), k, before)
            && pre + Leaves(s) + post == before + Leaves(s.kids[p]) + behind
  {
    var p, keys, kids, ts := UpperBound(t.keys, k), t.keys, s.kids, t.kids;
    before, behind := pre + AllLeaves(kids[..p]), AllLeaves(kids[p + 1..]) + post;
    BranchRep(h, s.id, kids, keys, ts);
    LeftBelow(o, h, kids, keys, ts, d - 1, lo, hi, k, p, pre);
    KidReached(o, keys, ts, d - 1, lo, hi, k, p);
    assert RepIn(h)(kids[p], ts[p]);
    ChainAround(pre, kids, p, post);
  }

  lemma ChainAround(pre: seq<nat>, kids: seq<Shape>, p: nat, post: seq<nat>)
    requires p < |kids|
    ensures pre + AllLeaves(kids) + post == (pre + AllLeaves(kids[..p])) + Leaves(kids[p]) + (AllLeaves(kids[p + 1..]) + post)
  {
    LeavesOne(kids, p);
    Regroup(pre, AllLeaves(kids[..p]), Leaves(kids[p]), AllLeaves(kids[p + 1..]), post);
  }

  lemma KidReached(o: Order, keys: seq<int>, ts: seq<Tree>, d: nat, lo: Option<int>, hi: Option<int>, k: int, p: nat)
    requires |ts| == |keys| + 1 && KeysOk(keys, lo, hi) && KidsGood(o, keys, ts, d, lo, hi)
    requires AtLeast(lo, k) && Below(k, hi) && p == UpperBound(keys, k)
    ensures Shaped(ts[p], d) && NodeOk(o, ts[p], d, KidLo(keys, lo, p), KidHi(keys, hi, p))
    ensures AtLeast(KidLo(keys, lo, p), k) && Below(k, KidHi(keys, hi, p))
  {
    ChildGood(o, keys, ts, d, lo, hi, k);
    GoodIsNode(o, ts[p], d, KidLo(keys, lo, p), KidHi(keys, hi, p));
  }

  lemma LeftBelow(o: Order, h: Pool, kids: seq<Shape>, keys: seq<int>, ts: seq<Tree>, d: nat, lo: Option<int>, hi: Option<int>, k: int, p: nat,
                  pre: seq<nat>)
    requires |ts| == |keys| + 1 && KeysOk(keys, lo, hi) && KidsGood(o, keys, ts, d, lo, hi) && Related(RepIn(h), kids, ts)
    requires AtLeast(lo, k) && Below(k, hi) && p == UpperBound(keys, k) && AllBelow(Read(h, pre), k)
    ensures AllBelow(Read(h, pre + AllLeaves(kids[..p])), k)
  {
    Focus(o, keys, ts, d, lo, hi, k);
    RelatedSlice(RepIn(h), kids, ts, 0, p);
    ReadRelated(h, kids[..p], ts[..p], d);
    ReadConcat(h, pre, AllLeaves(kids[..p]));
  }

  lemma ReadRelated(h: Pool, kids: seq<Shape>, ts: seq<Tree>, d: nat)
    requires AllShaped(ts, d) && Related(RepIn(h), kids, ts)
    ensures Read(h, AllLeaves(kids)) == AllEntries(ts, d)
  {
    forall i | 0 <= i < |kids| ensures Rep(h, kids[i], ts[i]) {
      assert RepIn(h)(kids[i], ts[i]);
    }
    ReadKids(h, kids, ts, d);
  }

  /** Everything behind a key above max is above max. */
  lemma RestAbove(a: seq<Entry>, b: seq<Entry>, c: seq<Entry>, max: int)
    requires SortedEntries(a + b + c) && exists i :: 0 <= i < |b| && b[i].0 > max
    ensures AllAbove(c, max)
  {
    var es := a + b + c;
    var i :| 0 <= i < |b| && b[i].0 > max;
    forall j | 0 <= j < |c| ensures max < c[j].0 {
      assert es[|a| + i] == b[i] && es[|a| + |b| + j] == c[j];
    }
  }

  /** The pairs of one leaf with a key in [min, max], and whether a key above max was met. */
  method ScanLeaf(keys: seq<int>, vals: seq<int>, min: int, max: int) returns (found: seq<Entry>, stop: bool)
    requires |keys| == |vals| && Sorted(keys)
    ensures found == InRange(Pairs(keys, vals), min, max)
    ensures stop ==> exists i :: 0 <= i < |keys| && Pairs(keys, vals)[i].0 > max
  {
    ghost var es := Pairs(keys, vals);
    found, stop := [], false;
    var i := 0;
    while i < |keys|
      invariant 0 <= i <= |keys| && found == InRange(es[..i], min, max)
    {
      assert es == es[..i] + es[i..] && es[..i + 1] == es[..i] + [es[i]];
      if keys[i] > max {
        stop := true;
        NoneAbove(es[i..], min, max);
        InRangeConcat(es[..i], es[i..], min, max);
        assert es[i].0 > max;
        return;
      }
      InRangeConcat(es[..i], [es[i]], min, max);
      assert [es[i]][1..] == [];
      if keys[i] >= min {
        found := found + [(keys[i], vals[i])];
      }
      i := i + 1;
    }
    assert es[..i] == es;
  }

  /** A leaf on the chain, and the entries before, in and behind it. */
  lemma LeafOnChain(h: Pool, s: Shape, t: Tree, d: nat, o: Order, pre: seq<nat>, id: nat, post: seq<nat>)
    requires RootOk(o, t, d) && Shaped(t, d) && Rep(h, s, t) && Leaves(s) == pre + [id] + post
    ensures id in h && IsLeaf(h[id]) && Sorted(h[id].keys)
    ensures Entries(t, d) == Read(h, pre) + LeafEntries(h, id) + Read(h, post) && SortedEntries(Entries(t, d))
    ensures Read(h, pre + [id]) == Read(h, pre) + LeafEntries(h, id)
  {
    RootNeat(o, t, d);
    RootSorted(o, t, d);
    ReadTree(h, s, t, d);
    LeafIsNode(o, h, s, t, d, id);
    ReadConcat(h, pre, [id]);
    ReadConcat(h, pre + [id], post);
    assert [id][1..] == [];
    assert Read(h, [id]) == LeafEntries(h, id);
  }

  /** The link behind a leaf. */
  lemma NextOnChain(next: map<nat, nat>, prev: map<nat, nat>, top: nat, pre: seq<nat>, id: nat, post: seq<nat>)
    requires Links(next, prev, top, pre + [id] + post)
    ensures if id in next then post != [] && next[id] == post[0] else post == []
    ensures post != [] ==> pre + [id] + post == (pre + [id]) + [post[0]] + post[1..]
  {
    var chain := pre + [id] + post;
    LinksThreaded(next, prev, top, chain);
    assert chain[|pre|] == id;
    assert post != [] ==> chain[|pre| + 1] == post[0];
  }

  /** What is found once leaf id has been scanned too. */
  lemma ScanStep(h: Pool, s: Shape, t: Tree, d: nat, o: Order, pre: seq<nat>, id: nat, post: seq<nat>, min: int, max: int, stop: bool)
    requires RootOk(o, t, d) && Shaped(t, d) && Rep(h, s, t) && Leaves(s) == pre + [id] + post
    requires id in h && IsLeaf(h[id])
    requires stop ==> exists i :: 0 <= i < |h[id].keys| && Pairs(h[id].keys, h[id].vals)[i].0 > max
    ensures InRange(Read(h, pre + [id]), min, max) == InRange(Read(h, pre), min, max) + InRange(LeafEntries(h, id), min, max)
    ensures stop || post == [] ==> InRange(Entries(t, d), min, max) == InRange(Read(h, pre + [id]), min, max)
  {
    LeafOnChain(h, s, t, d, o, pre, id, post);
    var a, b, c := Read(h, pre), LeafEntries(h, id), Read(h, post);
    InRangeConcat(a, b, min, max);
    InRangeConcat(a + b, c, min, max);
    if stop {
      RestAbove(a, b, c, max);
      NoneAbove(c, min, max);
    }
  }

  lemma {:induction false} LeafIsNode(o: Order, h: Pool, s: Shape, t: Tree, d: nat, id: nat)
    requires Rep(h, s, t) && Neat(o, t, d) && id in Leaves(s)
    ensures id in h && IsLeaf(h[id]) && Sorted(h[id].keys)
    decreases d
  {
    if s.BranchAt? {
      var i := KidWithLeaf(s.kids, id);
      LeafIsNode(o, h, s.kids[i], t.kids[i], d - 1, id);
    }
  }

  lemma {:induction false} KidWithLeaf(kids: seq<Shape>, id: nat) returns (i: nat)
    requires id in AllLeaves(kids)
    ensures i < |kids| && id in Leaves(kids[i])
  {
    if id in Leaves(kids[0]) {
      i := 0;
    } else {
      i := KidWithLeaf(kids[1..], id);
      i := i + 1;
    }
  }

  // ---------------------------------------------------------------------- the root

  /** The nodes at s make up the well-formed tree t, no address is used twice, and
      the leaf links thread its leaves from left to right. */
  ghost predicate Stands(o: Order, h: Pool, next: map<nat, nat>, prev: map<nat, nat>, top: nat, root: nat, depth: nat, s: Shape, t: Tree) {
    && OrderOk(o) && RootOk(o, t, depth) && Shaped(t, depth)
    && Rep(h, s, t) && s.id == root && Single([s], top) && Links(next, prev, top, Leaves(s))
  }

  lemma SameRoot(h: Pool, h': Pool, s: Shape, out: seq<Shape>, t: Tree, top: nat, top': nat)
    requires Single([s], top) && |out| == 1 && Became(h, h', [s], out, [t], top, top')
    ensures Rep(h', out[0], t) && Single(out, top') && out == [out[0]] && AllLeaves(out) == Leaves(out[0])
  {
    assert RepIn(h')(out[0], [t][0]);
    LeavesOfSingle(out[0]);
    assert out == [out[0]];
    forall x: nat ensures CountAll(out, x) <= if x < top' then 1 else 0 {
      assert CountAll([s], x) <= if x < top then 1 else 0;
      assert CountAll(out, x) <= if x < top then CountAll([s], x) else if x < top' then 1 else 0;
    }
  }

  lemma NewRoot(h: Pool, h1: Pool, h2: Pool, s: Shape, out: seq<Shape>, t: Tree, top: nat, top': nat)
    requires Single([s], top) && |out| == 2 && t.Branch? && |t.kids| == 2 && Became(h, h1, [s], out, t.kids, top, top')
    requires h2 == h1[top' := BranchNode(t.keys, [out[0].id, out[1].id])]
    ensures Rep(h2, BranchAt(top', out), t) && Single([BranchAt(top', out)], top' + 1)
  {
    var root := [BranchAt(top', out)];
    forall x: nat
      ensures CountAll(out, x) <= if x < top' then 1 else 0
      ensures CountAll(root, x) <= if x < top' + 1 then 1 else 0
    {
      assert CountAll([s], x) <= if x < top then 1 else 0;
      assert CountAll(out, x) <= if x < top then CountAll([s], x) else if x < top' then 1 else 0;
      CountBranch(top', out, x);
    }
    assert Tops(out) == [out[0].id, out[1].id];
    RelatedKept(h1, h2, out, t.kids);
    BranchRep(h2, top', out, t.keys, t.kids);
  }

  /** The tree after an insertion that did not split the root. */
  lemma RootStays(o: Order, h: Pool, h': Pool, next: map<nat, nat>, prev: map<nat, nat>, s: Shape, out: seq<Shape>, res: Result, d: nat,
                  top: nat, top': nat)
    requires OrderOk(o) && res.One? && Single([s], top) && InsertDone(h, h', s, out, res, None, top, top')
    requires RootOk(o, res.t, d) && Shaped(res.t, d) && Links(next, prev, top', [] + AllLeaves(out) + [])
    ensures Stands(o, h', next, prev, top', s.id, d, out[0], res.t)
  {
    SameRoot(h, h', s, out, res.t, top, top');
    assert [] + AllLeaves(out) + [] == AllLeaves(out);
  }

  /** And after one that did. */
  lemma RootSplits(o: Order, h: Pool, h1: Pool, h2: Pool, next: map<nat, nat>, prev: map<nat, nat>, s: Shape, out: seq<Shape>, res: Result,
                   up: Option<Split>, d: nat, top: nat, top': nat)
    requires OrderOk(o) && res.Two? && Single([s], top) && InsertDone(h, h1, s, out, res, up, top, top')
    requires h2 == h1[top' := BranchNode([up.value.sep], [s.id, up.value.right])]
    requires var t := Branch([res.sep], [res.l, res.r]); RootOk(o, t, d + 1) && Shaped(t, d + 1)
    requires Links(next, prev, top', [] + AllLeaves(out) + [])
    ensures Stands(o, h2, next, prev, top' + 1, top', d + 1, BranchAt(top', out), Branch([res.sep], [res.l, res.r]))
  {
    var t := Branch([res.sep], [res.l, res.r]);
    assert t.kids == Parts(res);
    NewRoot(h, h1, h2, s, out, t, top, top');
    assert [] + AllLeaves(out) + [] == AllLeaves(out);
    LinksUp(next, prev, top', top' + 1, AllLeaves(out));
  }

  /** The tree after a deletion. */
  lemma RootErased(o: Order, h: Pool, h': Pool, next: map<nat, nat>, prev: map<nat, nat>, s: Shape, out: Shape, b: Tree, d: nat, top: nat,
                   root': nat, depth': nat)
    requires OrderOk(o) && Single([s], top) && EraseDone(h, h', s, out, b, d, top, s.id, root', d, depth')
    requires var (t', d') := Collapse(b, d); RootOk(o, t', d') && Shaped(t', d')
    requires Links(next, prev, top, [] + Leaves(out) + [])
    ensures depth' == Collapse(b, d).1 && Stands(o, h', next, prev, top, root', depth', out, Collapse(b, d).0)
  {
    SameRoot(h, h', s, [out], Collapse(b, d).0, top, top);
    assert [] + Leaves(out) + [] == Leaves(out);
  }

  lemma CountsOfOne()
    ensures Single([LeafAt(0)], 1) && Links(map[], map[], 1, [0])
  {
    forall x: nat ensures CountAll([LeafAt(0)], x) <= if x < 1 then 1 else 0 {
      CountLeaf(0, x);
    }
    ThreadedLinks(map[], map[], 1, [0]);
  }

  /** A tree with a stored key has a node with a key, at the root in particular. */
  lemma StoredKey(o: Order, t: Tree, d: nat, k: int)
    requires RootOk(o, t, d) && Shaped(t, d) && Lookup(t, d, k).Some?
    ensures NodeOk(o, t, d, None, None) && |t.keys| > 0
  {
  }

  ghost predicate WholeOk(o: Order, t: Tree, d: nat, es: seq<Entry>) {
    RootOk(o, t, d) && Shaped(t, d) && Entries(t, d) == es
  }

  /** The tree after an insertion, by whether the root was split. */
  lemma InsertWhole(o: Order, t: Tree, d: nat, k: int, v: int, res: Result)
    requires OrderOk(o) && RootOk(o, t, d) && Shaped(t, d) && res == Insert(o, t, d, k, v)
    ensures res.One? ==> WholeOk(o, res.t, d, Put(Entries(t, d), k, v))
    ensures res.Two? ==> WholeOk(o, Branch([res.sep], [res.l, res.r]), d + 1, Put(Entries(t, d), k, v))
  {
    InsertRootOk(o, t, d, k, v);
  }
}
