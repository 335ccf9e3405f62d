/** The index with its persistent leaves, their links, and the volatile branch nodes: a
    restart loses the branch nodes and rebuilds them from the linked leaves. */
module FpIndex {
  import opened Wrappers
  import opened Runs
  import PbTree
  import opened LeafChain
  import FpLeaf
  import opened FpTree
  import FpInsert

  function Ids(leaves: seq<Slots>): (ids: seq<nat>)
    ensures |ids| == |leaves| && forall i :: 0 <= i < |ids| ==> ids[i] == leaves[i].id
  {
    seq(|leaves|, i requires 0 <= i < |leaves| => leaves[i].id)
  }

  /** The leaves are in the persistent memory, each at its address. */
  ghost predicate Written(pmem: map<nat, Slots>, leaves: seq<Slots>) {
    forall i :: 0 <= i < |leaves| ==> leaves[i].id in pmem && pmem[leaves[i].id] == leaves[i]
  }

  /** Good leaves in key order; a single leaf may be empty. */
  ghost predicate ListFine(p: Params, leaves: seq<Slots>) {
    && leaves != [] && FpLeaf.AllSized(leaves) && (|leaves| > 1 ==> ListOk(p, leaves, None, None))
    && (|leaves| == 1 ==> FpLeaf.LeafOk(p.h, leaves[0], p.m))
  }

  /** The leaves store exactly the pairs of the map. */
  ghost predicate Represents(leaves: seq<Slots>, content: map<int, int>)
    requires FpLeaf.AllSized(leaves)
  {
    forall k :: FpLeaf.ListGet(leaves, k) == if k in content then Some(content[k]) else None
  }

  datatype Clause = ListClause | LinksClause | MemoryClause | ContentClause

  ghost predicate Meets(c: Clause, p: Params, pmem: map<nat, Slots>, next: map<nat, nat>, prev: map<nat, nat>, top: nat, leafList: nat,
                        leaves: seq<Slots>, content: map<int, int>)
  {
    match c
    case ListClause => ParamsOk(p) && ListFine(p, leaves)
    case LinksClause => leaves != [] && leafList == leaves[0].id && Links(next, prev, top, Ids(leaves))
    case MemoryClause => Written(pmem, leaves)
    case ContentClause => FpLeaf.AllSized(leaves) && Represents(leaves, content)
  }

  /** The persistent part of the index: from the first leaf on the links thread the
      leaves, which store the map. */
  ghost predicate Stored(p: Params, pmem: map<nat, Slots>, next: map<nat, nat>, prev: map<nat, nat>, top: nat, leafList: nat,
                         leaves: seq<Slots>, content: map<int, int>)
  {
    forall c :: Meets(c, p, pmem, next, prev, top, leafList, leaves, content)
  }

  lemma StoredClauses(p: Params, pmem: map<nat, Slots>, next: map<nat, nat>, prev: map<nat, nat>, top: nat, leafList: nat,
                      leaves: seq<Slots>, content: map<int, int>)
    ensures Stored(p, pmem, next, prev, top, leafList, leaves, content) <==>
              && ParamsOk(p) && ListFine(p, leaves) && leafList == leaves[0].id && Links(next, prev, top, Ids(leaves))
              && Written(pmem, leaves) && Represents(leaves, content)
  {
    if && Meets(ListClause, p, pmem, next, prev, top, leafList, leaves, content)
       && Meets(LinksClause, p, pmem, next, prev, top, leafList, leaves, content)
       && Meets(MemoryClause, p, pmem, next, prev, top, leafList, leaves, content)
       && Meets(ContentClause, p, pmem, next, prev, top, leafList, leaves, content)
    {
      forall c ensures Meets(c, p, pmem, next, prev, top, leafList, leaves, content) {
        match c
        case ListClause => case LinksClause => case MemoryClause => case ContentClause =>
      }
    }
  }

  // ------------------------------------------------------------------- one leaf rewritten

  /** The memory after an insertion. */
  function MemoryAfter(pmem: map<nat, Slots>, parts: FpLeaf.Parts): map<nat, Slots> {
    match parts
    case Whole(l) => pmem[l.id := l]
    case Split(l, _, r) => pmem[l.id := l][r.id := r]
  }

  lemma SplicedIds(before: seq<Slots>, after: seq<Slots>, i: nat, parts: FpLeaf.Parts)
    requires FpInsert.Spliced(before, after, i, parts)
    ensures Ids(before) == Ids(before)[..i] + [parts.l.id] + Ids(before)[i + 1..]
    ensures Ids(after) == Ids(before)[..i] + (if parts.Whole? then [parts.l.id] else [parts.l.id, parts.r.id]) + Ids(before)[i + 1..]
  {
  }

  lemma SplicedMemory(pmem: map<nat, Slots>, top: nat, before: seq<Slots>, after: seq<Slots>, i: nat, parts: FpLeaf.Parts)
    requires Written(pmem, before) && FpInsert.Spliced(before, after, i, parts) && Distinct(Ids(before))
    requires (forall j :: 0 <= j < |before| ==> before[j].id < top) && (parts.Split? ==> parts.r.id == top)
    ensures Written(MemoryAfter(pmem, parts), after)
  {
    forall j | 0 <= j < |after| ensures after[j].id in MemoryAfter(pmem, parts) && MemoryAfter(pmem, parts)[after[j].id] == after[j] {
      if j < i {
        assert after[j] == before[j] && Ids(before)[j] != Ids(before)[i];
      } else if j >= i + |parts.List()| {
        var x := j - |parts.List()| + 1;
        assert after[j] == before[x] && Ids(before)[i] != Ids(before)[x];
      }
    }
  }

  /** The links after a split; otherwise they stay. */
  function NextAfter(next: map<nat, nat>, parts: FpLeaf.Parts): map<nat, nat> {
    if parts.Split? then NextSplit(next, parts.l.id, parts.r.id) else next
  }

  function PrevAfter(next: map<nat, nat>, prev: map<nat, nat>, parts: FpLeaf.Parts): map<nat, nat> {
    if parts.Split? then PrevSplit(next, prev, parts.l.id, parts.r.id) else prev
  }

  function TopAfter(top: nat, parts: FpLeaf.Parts): nat {
    if parts.Split? then top + 1 else top
  }

  /** The persistent part after a leaf became the parts. */
  lemma SplicedStored(p: Params, pmem: map<nat, Slots>, next: map<nat, nat>, prev: map<nat, nat>, top: nat, leafList: nat,
                      before: seq<Slots>, content: map<int, int>, after: seq<Slots>, content': map<int, int>, i: nat, parts: FpLeaf.Parts)
    requires Stored(p, pmem, next, prev, top, leafList, before, content)
    requires FpInsert.Spliced(before, after, i, parts) && (parts.Split? ==> parts.r.id == top)
    requires ListFine(p, after) && Represents(after, content')
    ensures Stored(p, MemoryAfter(pmem, parts), NextAfter(next, parts), PrevAfter(next, prev, parts), TopAfter(top, parts), leafList, after, content')
  {
    StoredClauses(p, pmem, next, prev, top, leafList, before, content);
    LinksThreaded(next, prev, top, Ids(before));
    SplicedMemory(pmem, top, before, after, i, parts);
    SplicedIds(before, after, i, parts);
    if parts.Split? {
      SplitKeepsLinks(next, prev, top, Ids(before)[..i], parts.l.id, Ids(before)[i + 1..]);
    }
    StoredClauses(p, MemoryAfter(pmem, parts), NextAfter(next, parts), PrevAfter(next, prev, parts), TopAfter(top, parts), leafList, after, content');
  }

  // ----------------------------------------------------------------------------- the index

  class Index {
    const p: Params
    var pmem: map<nat, Slots>
    var next: map<nat, nat>
    var prev: map<nat, nat>
    var top: nat
    var leafList: nat
    var tree: FTree
    var depth: nat
    ghost var leaves: seq<Slots>
    ghost var content: map<int, int>

    /** What survives a restart. */
    ghost predicate Durable()
      reads this
    {
      ParamsOk(p) && Stored(p, pmem, next, prev, top, leafList, leaves, content)
    }

    /** The branch nodes lead to the same leaves. */
    ghost predicate Valid()
      reads this
    {
      Durable() && RootOk(p, tree, depth) && Shaped(tree, depth) && Leaves(tree, depth) == leaves
    }

    /** An index with one empty leaf. */
    constructor (p: Params)
      requires ParamsOk(p)
      ensures Valid() && content == map[] && this.p == p
    {
      var leaf := FpLeaf.Slots(0, seq(p.m, _ => 0), seq(p.m, _ => 0), seq(p.m, _ => 0), seq(p.m, _ => false));
      this.p := p;
      pmem, next, prev, top, leafList := map[0 := leaf], map[], map[], 1, 0;
      tree, depth, leaves, content := LeafT(leaf), 0, [leaf], map[];
      new;
      EmptyStored(p, leaf);
    }

    /** `insert`: the leaf is written where it is; a new right half goes to the first unused
        address and into the links. */
    method Insert(k: int, v: int)
      requires Valid() && 0 <= k < FpLeaf.MAX_KEY
      modifies this
      ensures Valid() && content == old(content)[k := v]
    {
      var t, d, parts;
      ghost var i;
      t, d, parts, i := FpInsert.Insert(p, tree, depth, k, v, top);
      InsertedStored(p, tree, depth, t, d, k, v, leaves, content, pmem, next, prev, top, leafList, i, parts);
      pmem, next, prev, top := MemoryAfter(pmem, parts), NextAfter(next, parts), PrevAfter(next, prev, parts), TopAfter(top, parts);
      tree, depth, leaves, content := t, d, Leaves(t, d), content[k := v];
    }

    /** `lookup` */
    method LookUp(k: int) returns (r: Option<int>)
      requires Valid()
      ensures r == if k in content then Some(content[k]) else None
    {
      StoredClauses(p, pmem, next, prev, top, leafList, leaves, content);
      RootLookup(p, tree, depth, k);
      var leaf := FindLeaf(p, tree, depth, k);
      var pos := FpLeaf.Position(p.h, leaf, p.m, k);
      r := if pos < p.m then Some(leaf.vals[pos]) else None;
    }

    /** The leaves from the first one on along the links. */
    method WalkLeaves() returns (list: seq<Slots>)
      requires Durable()
      ensures list == leaves
    {
      StoredClauses(p, pmem, next, prev, top, leafList, leaves, content);
      LinksThreaded(next, prev, top, Ids(leaves));
      var cur := leafList;
      list := [pmem[cur]];
      while cur in next
        invariant 0 < |list| <= |leaves| && list == leaves[..|list|] && cur == Ids(leaves)[|list| - 1]
        decreases |leaves| - |list|
      {
        assert |list| < |leaves| && next[cur] == Ids(leaves)[|list|];
        cur := next[cur];
        list := list + [pmem[cur]];
      }
    }

    /** `recover`: new branch nodes from the persistent part alone. */
    method Recover()
      requires Durable()
      modifies this`tree, this`depth
      ensures Valid()
    {
      StoredClauses(p, pmem, next, prev, top, leafList, leaves, content);
      var list := WalkLeaves();
      tree, depth := FpTree.Recover(p, list);
    }

    /** A restart loses the branch nodes: `junk` is whatever is there instead. */
    method Restart(junk: FTree, junkDepth: nat)
      requires Durable()
      modifies this`tree, this`depth
      ensures Valid()
    {
      tree, depth := junk, junkDepth;
      Recover();
    }
  }

  lemma EmptyStored(p: Params, leaf: Slots)
    requires ParamsOk(p) && leaf.id == 0 && FpLeaf.Sized(leaf, p.m) && forall i :: !leaf.Uses(i)
    ensures Stored(p, map[0 := leaf], map[], map[], 1, 0, [leaf], map[])
    ensures RootOk(p, LeafT(leaf), 0) && Shaped(LeafT(leaf), 0) && Leaves(LeafT(leaf), 0) == [leaf]
  {
    assert Ids([leaf]) == [0];
    ThreadedLinks(map[], map[], 1, [0]);
    forall k ensures FpLeaf.ListGet([leaf], k) == None {
      assert forall i :: !FpLeaf.Stored(leaf, k, i);
      assert [leaf][1..] == [] && FpLeaf.ListGet([], k) == None;
    }
    StoredClauses(p, map[0 := leaf], map[], map[], 1, 0, [leaf], map[]);
  }

  /** The persistent part after an insertion stores the map with the new pair. */
  lemma InsertedStored(p: Params, t: FTree, d: nat, t': FTree, d': nat, k: int, v: int, leaves: seq<Slots>, content: map<int, int>,
                       pmem: map<nat, Slots>, next: map<nat, nat>, prev: map<nat, nat>, top: nat, leafList: nat, i: nat, parts: FpLeaf.Parts)
    requires Stored(p, pmem, next, prev, top, leafList, leaves, content)
    requires RootOk(p, t, d) && Shaped(t, d) && Leaves(t, d) == leaves && RootOk(p, t', d') && Shaped(t', d')
    requires forall x :: Lookup(t', d', x) == if x == k then Some(v) else Lookup(t, d, x)
    requires FpInsert.Spliced(leaves, Leaves(t', d'), i, parts) && (parts.Split? ==> parts.r.id == top)
    ensures Stored(p, MemoryAfter(pmem, parts), NextAfter(next, parts), PrevAfter(next, prev, parts), TopAfter(top, parts), leafList,
                   Leaves(t', d'), content[k := v])
  {
    StoredClauses(p, pmem, next, prev, top, leafList, leaves, content);
    LeavesOfRoot(p, t', d');
    forall x ensures FpLeaf.ListGet(Leaves(t', d'), x) == if x in content[k := v] then Some(content[k := v][x]) else None {
      RootLookup(p, t, d, x);
      RootLookup(p, t', d', x);
    }
    SplicedStored(p, pmem, next, prev, top, leafList, leaves, content, Leaves(t', d'), content[k := v], i, parts);
  }

  /** `findLeafNode` */
  method FindLeaf(p: Params, root: FTree, depth: nat, k: int) returns (leaf: Slots)
    requires RootOk(p, root, depth) && Shaped(root, depth)
    ensures FpLeaf.LeafOk(p.h, leaf, p.m) && FpLeaf.LeafGet(leaf, k) == Lookup(root, depth, k)
  {
    var t, d := root, depth;
    ghost var lo: Option<int>, hi: Option<int> := None, None;
    while d > 0
      invariant Shaped(t, d) && Lookup(t, d, k) == Lookup(root, depth, k)
      invariant Good(p, t, d, lo, hi) || (d == 0 && FpLeaf.LeafOk(p.h, t.leaf, p.m))
      decreases d
    {
      var pos := PbTree.UpperBound(t.keys, k);
      lo, hi := PbTree.KidLo(t.keys, lo, pos), PbTree.KidHi(t.keys, hi, pos);
      t, d := t.kids[pos], d - 1;
    }
    leaf := t.leaf;
  }

  // ------------------------------------------------------------------- sequences of calls

  datatype Op = Put(key: int, val: int) | Get(key: int) | Crash(junk: FTree, junkDepth: nat)

  function MapAfter(m: map<int, int>, op: Op): map<int, int> {
    if op.Put? then m[op.key := op.val] else m
  }

  /** What a map answers: only lookups give a value. */
  function MapAnswer(m: map<int, int>, op: Op): Option<int> {
    if op.Get? && op.key in m then Some(m[op.key]) else None
  }

  method Perform(index: Index, op: Op) returns (answer: Option<int>)
    requires index.Valid() && (op.Put? ==> 0 <= op.key < FpLeaf.MAX_KEY)
    modifies index
    ensures index.Valid() && index.content == MapAfter(old(index.content), op)
    ensures answer == MapAnswer(old(index.content), op)
  {
    answer := None;
    match op
    case Put(k, v) => index.Insert(k, v);
    case Get(k) => answer := index.LookUp(k);
    case Crash(junk, junkDepth) => index.Restart(junk, junkDepth);
  }

  /** Whatever is inserted and whenever the branch nodes are lost, every lookup finds what
      a map would hold. */
  method PerformAll(p: Params, ops: seq<Op>) returns (index: Index, answers: seq<Option<int>>)
    requires ParamsOk(p) && forall i :: 0 <= i < |ops| && ops[i].Put? ==> 0 <= ops[i].key < FpLeaf.MAX_KEY
    ensures fresh(index) && index.Valid() && index.content == StateAfter(MapAfter, map[], ops)
    ensures answers == Replies(MapAfter, MapAnswer, map[], ops)
  {
    index := new Index(p);
    answers := [];
    for i := 0 to |ops|
      invariant fresh(index) && index.Valid() && index.content == StateAfter(MapAfter, map[], ops[..i])
      invariant answers == Replies(MapAfter, MapAnswer, map[], ops[..i])
    {
      NextCall(MapAfter, MapAnswer, map[], ops, i);
      var answer := Perform(index, ops[i]);
      answers := answers + [answer];
    }
    assert ops[..|ops|] == ops;
  }

  /** No call from j up to n puts key k. */
  predicate NoPut(ops: seq<Op>, j: nat, n: nat, k: int)
    requires n <= |ops|
  {
    forall i :: j <= i < n ==> !(ops[i].Put? && ops[i].key == k)
  }

  lemma {:induction false} LatestPut(ops: seq<Op>, n: nat, j: nat)
    requires j < n <= |ops| && ops[j].Put? && NoPut(ops, j + 1, n, ops[j].key)
    ensures var m := StateAfter(MapAfter, map[], ops[..n]); ops[j].key in m && m[ops[j].key] == ops[j].val
  {
    StateNext(MapAfter, map[], ops, n - 1);
    if j < n - 1 {
      LatestPut(ops, n - 1, j);
    }
  }

  lemma {:induction false} NeverPut(ops: seq<Op>, n: nat, k: int)
    requires n <= |ops| && NoPut(ops, 0, n, k)
    ensures k !in StateAfter(MapAfter, map[], ops[..n])
  {
    if n > 0 {
      StateNext(MapAfter, map[], ops, n - 1);
      NeverPut(ops, n - 1, k);
    }
  }

  /** A lookup answers the value that was put last for its key, or nothing if there is none,
      whatever was lost and recovered in between. */
  lemma LookupsFindLatest(ops: seq<Op>, n: nat)
    requires n < |ops| && ops[n].Get?
    ensures var answer := Replies(MapAfter, MapAnswer, map[], ops)[n];
            && (forall j: nat :: j < n && ops[j].Put? && ops[j].key == ops[n].key && NoPut(ops, j + 1, n, ops[n].key) ==> answer == Some(ops[j].val))
            && (NoPut(ops, 0, n, ops[n].key) ==> answer == None)
  {
    ReplyAt(MapAfter, MapAnswer, map[], ops, n);
    forall j: nat | j < n && ops[j].Put? && ops[j].key == ops[n].key && NoPut(ops, j + 1, n, ops[n].key)
      ensures Replies(MapAfter, MapAnswer, map[], ops)[n] == Some(ops[j].val)
    {
      LatestPut(ops, n, j);
    }
    if NoPut(ops, 0, n, ops[n].key) {
      NeverPut(ops, n, ops[n].key);
    }
  }
}
