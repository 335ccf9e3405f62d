/** Tree nodes at addresses: which nodes make up a tree, and what tree they make up.
    Leaf links are kept apart from the nodes, in `LeafChain`. */
module NodePool {
  import opened PbTree

  datatype Node =
    | LeafNode(keys: seq<int>, vals: seq<int>)
    | BranchNode(keys: seq<int>, kids: seq<nat>)

  type Pool = map<nat, Node>

  /** The addresses of the nodes of a tree. */
  datatype Shape = LeafAt(id: nat) | BranchAt(id: nat, kids: seq<Shape>)

  /** The nodes at the addresses of s are those of the tree t. */
  ghost predicate Rep(h: Pool, s: Shape, t: Tree)
    decreases s
  {
    && s.id in h
    && match s
       case LeafAt(id) => t.Leaf? && h[id] == LeafNode(t.keys, t.vals)
       case BranchAt(id, kids) =>
         && t.Branch? && h[id] == BranchNode(t.keys, Tops(kids)) && |kids| == |t.kids|
         && forall i :: 0 <= i < |kids| ==> Rep(h, kids[i], t.kids[i])
  }

  function Tops(kids: seq<Shape>): (ids: seq<nat>)
    ensures |ids| == |kids|
    ensures forall i :: 0 <= i < |kids| ==> ids[i] == kids[i].id
  {
    seq(|kids|, i requires 0 <= i < |kids| => kids[i].id)
  }

  // --------------------------------------------------------- pairs of lists in step

  type Relation<!S, !T> = (S, T) -> bool

  ghost predicate Related<S, T>(rel: Relation<S, T>, a: seq<S>, b: seq<T>) {
    |a| == |b| && forall i :: 0 <= i < |a| ==> rel(a[i], b[i])
  }

  ghost function RepIn(h: Pool): Relation<Shape, Tree> {
    (s: Shape, t: Tree) => Rep(h, s, t)
  }

  lemma BranchRep(h: Pool, id: nat, kids: seq<Shape>, keys: seq<int>, ts: seq<Tree>)
    ensures Rep(h, BranchAt(id, kids), Branch(keys, ts)) <==>
            id in h && h[id] == BranchNode(keys, Tops(kids)) && Related(RepIn(h), kids, ts)
  {
  }

  lemma RelatedSlice<S, T>(rel: Relation<S, T>, a: seq<S>, b: seq<T>, i: nat, j: nat)
    requires Related(rel, a, b) && i <= j <= |a|
    ensures Related(rel, a[i..j], b[i..j])
  {
  }

  lemma RelatedConcat<S, T>(rel: Relation<S, T>, a: seq<S>, b: seq<T>, a': seq<S>, b': seq<T>)
    requires Related(rel, a, b) && Related(rel, a', b')
    ensures Related(rel, a + a', b + b')
  {
  }

  // ------------------------------------------------------------- addresses of a tree

  /** How often the address x occurs in s. */
  ghost function Count(s: Shape, x: nat): nat {
    (if s.id == x then 1 else 0) + if s.LeafAt? then 0 else CountAll(s.kids, x)
  }

  ghost function CountAll(kids: seq<Shape>, x: nat): nat {
    if kids == [] then 0 else Count(kids[0], x) + CountAll(kids[1..], x)
  }

  /** The leaves of a tree from left to right. */
  ghost function Leaves(s: Shape): seq<nat> {
    match s
    case LeafAt(id) => [id]
    case BranchAt(id, kids) => AllLeaves(kids)
  }

  ghost function AllLeaves(kids: seq<Shape>): seq<nat> {
    if kids == [] then [] else Leaves(kids[0]) + AllLeaves(kids[1..])
  }

  lemma Headed<T>(a: seq<T>, b: seq<T>)
    requires a != []
    ensures (a + b)[0] == a[0] && (a + b)[1..] == a[1..] + b
  {
  }

  lemma {:induction false} CountConcat(a: seq<Shape>, b: seq<Shape>, x: nat)
    ensures CountAll(a + b, x) == CountAll(a, x) + CountAll(b, x)
  {
    if a == [] {
      assert a + b == b;
    } else {
      CountConcat(a[1..], b, x);
      Headed(a, b);
    }
  }

  lemma {:induction false} LeavesConcat(a: seq<Shape>, b: seq<Shape>)
    ensures AllLeaves(a + b) == AllLeaves(a) + AllLeaves(b)
  {
    if a == [] {
      assert a + b == b;
    } else {
      LeavesConcat(a[1..], b);
      Headed(a, b);
      assert AllLeaves(a + b) == Leaves(a[0]) + (AllLeaves(a[1..]) + AllLeaves(b));
    }
  }

  lemma CountAround(a: seq<Shape>, s: Shape, b: seq<Shape>, x: nat)
    ensures CountAll(a + [s] + b, x) == CountAll(a, x) + Count(s, x) + CountAll(b, x)
  {
    assert [s][1..] == [];
    CountConcat(a, [s], x);
    CountConcat(a + [s], b, x);
  }

  lemma LeavesAround(a: seq<Shape>, s: Shape, b: seq<Shape>)
    ensures AllLeaves(a + [s] + b) == AllLeaves(a) + Leaves(s) + AllLeaves(b)
  {
    assert [s][1..] == [];
    LeavesConcat(a, [s]);
    LeavesConcat(a + [s], b);
  }

  lemma Around<T>(kids: seq<T>, i: nat)
    requires i < |kids|
    ensures kids == kids[..i] + [kids[i]] + kids[i + 1..]
  {
  }

  lemma CountOne(kids: seq<Shape>, i: nat, x: nat)
    requires i < |kids|
    ensures CountAll(kids, x) == CountAll(kids[..i], x) + Count(kids[i], x) + CountAll(kids[i + 1..], x)
  {
    Around(kids, i);
    CountAround(kids[..i], kids[i], kids[i + 1..], x);
  }

  lemma LeavesOne(kids: seq<Shape>, i: nat)
    requires i < |kids|
    ensures AllLeaves(kids) == AllLeaves(kids[..i]) + Leaves(kids[i]) + AllLeaves(kids[i + 1..])
  {
    Around(kids, i);
    LeavesAround(kids[..i], kids[i], kids[i + 1..]);
  }

  /** Addresses are not shared, and lie below `top`. */
  ghost predicate Single(kids: seq<Shape>, top: nat) {
    forall x: nat :: CountAll(kids, x) <= if x < top then 1 else 0
  }

  // --------------------------------------------------------------------- frames

  ghost predicate Same(h: Pool, h': Pool, x: nat) {
    x in h ==> x in h' && h'[x] == h[x]
  }

  /** Only nodes of `before` and nodes at new addresses, from `top` on, may differ. */
  ghost predicate Framed(h: Pool, h': Pool, before: seq<Shape>, top: nat) {
    forall x: nat :: x < top && CountAll(before, x) == 0 ==> Same(h, h', x)
  }

  ghost predicate Kept(h: Pool, h': Pool, s: Shape) {
    forall x: nat :: Count(s, x) > 0 ==> Same(h, h', x)
  }

  lemma {:induction false} RepKept(h: Pool, h': Pool, s: Shape, t: Tree)
    requires Rep(h, s, t) && Kept(h, h', s)
    ensures Rep(h', s, t)
    decreases s
  {
    assert Count(s, s.id) > 0;
    if s.BranchAt? {
      forall i | 0 <= i < |s.kids| ensures Rep(h', s.kids[i], t.kids[i]) {
        forall x: nat | Count(s.kids[i], x) > 0 ensures Same(h, h', x) {
          CountOne(s.kids, i, x);
          assert Count(s, x) > 0;
        }
        RepKept(h, h', s.kids[i], t.kids[i]);
      }
    }
  }

  ghost predicate AllKept(h: Pool, h': Pool, kids: seq<Shape>) {
    forall x: nat :: CountAll(kids, x) > 0 ==> Same(h, h', x)
  }

  lemma RelatedKept(h: Pool, h': Pool, kids: seq<Shape>, ts: seq<Tree>)
    requires Related(RepIn(h), kids, ts) && AllKept(h, h', kids)
    ensures Related(RepIn(h'), kids, ts)
  {
    forall i | 0 <= i < |kids| ensures RepIn(h')(kids[i], ts[i]) {
      forall x: nat | Count(kids[i], x) > 0 ensures Same(h, h', x) {
        CountOne(kids, i, x);
      }
      assert RepIn(h)(kids[i], ts[i]);
      RepKept(h, h', kids[i], ts[i]);
    }
  }

  // ------------------------------------------------------------- changes of a pool

  /** `after` uses addresses of `before`, none more often, and new ones at most once. */
  ghost predicate Grew(before: seq<Shape>, after: seq<Shape>, top: nat, top': nat) {
    forall x: nat :: CountAll(after, x) <= if x < top then CountAll(before, x) else if x < top' then 1 else 0
  }

  /** Between h and h' the trees at `before` became the trees ts at `after`. */
  ghost predicate Became(h: Pool, h': Pool, before: seq<Shape>, after: seq<Shape>, ts: seq<Tree>, top: nat, top': nat) {
    && top <= top' && Related(RepIn(h'), after, ts)
    && Grew(before, after, top, top') && Framed(h, h', before, top)
  }

  function Replace<T>(s: seq<T>, i: nat, j: nat, mid: seq<T>): seq<T>
    requires i <= j <= |s|
  {
    s[..i] + mid + s[j..]
  }

  lemma CountReplace(kids: seq<Shape>, i: nat, j: nat, mid: seq<Shape>, x: nat)
    requires i <= j <= |kids|
    ensures CountAll(Replace(kids, i, j, mid), x) == CountAll(kids[..i], x) + CountAll(mid, x) + CountAll(kids[j..], x)
  {
    CountConcat(kids[..i], mid, x);
    CountConcat(kids[..i] + mid, kids[j..], x);
  }

  lemma LeavesReplace(kids: seq<Shape>, i: nat, j: nat, mid: seq<Shape>)
    requires i <= j <= |kids|
    ensures AllLeaves(Replace(kids, i, j, mid)) == AllLeaves(kids[..i]) + AllLeaves(mid) + AllLeaves(kids[j..])
  {
    LeavesConcat(kids[..i], mid);
    LeavesConcat(kids[..i] + mid, kids[j..]);
  }

  lemma ReplaceSelf<T>(s: seq<T>, i: nat, j: nat)
    requires i <= j <= |s|
    ensures Replace(s, i, j, s[i..j]) == s
  {
  }

  lemma CountSplit(kids: seq<Shape>, i: nat, j: nat, x: nat)
    requires i <= j <= |kids|
    ensures CountAll(kids, x) == CountAll(kids[..i], x) + CountAll(kids[i..j], x) + CountAll(kids[j..], x)
  {
    ReplaceSelf(kids, i, j);
    CountReplace(kids, i, j, kids[i..j], x);
  }

  lemma LeavesSplit(kids: seq<Shape>, i: nat, j: nat)
    requires i <= j <= |kids|
    ensures AllLeaves(kids) == AllLeaves(kids[..i]) + AllLeaves(kids[i..j]) + AllLeaves(kids[j..])
  {
    ReplaceSelf(kids, i, j);
    LeavesReplace(kids, i, j, kids[i..j]);
  }

  lemma LeavesCut(kids: seq<Shape>, j: nat)
    requires j <= |kids|
    ensures AllLeaves(kids[..j]) + AllLeaves(kids[j..]) == AllLeaves(kids)
  {
    LeavesConcat(kids[..j], kids[j..]);
    assert kids == kids[..j] + kids[j..];
  }

  /** A change of the children i to j leaves the others as they were. */
  lemma Inside(h: Pool, h': Pool, kids: seq<Shape>, ts: seq<Tree>, i: nat, j: nat,
               after: seq<Shape>, ts': seq<Tree>, top: nat, top': nat)
    requires i <= j <= |kids| && Related(RepIn(h), kids, ts) && Single(kids, top)
    requires Became(h, h', kids[i..j], after, ts', top, top')
    ensures Became(h, h', kids, Replace(kids, i, j, after), Replace(ts, i, j, ts'), top, top')
  {
    OutsideKept(h, h', kids, i, j, top);
    RelatedSlice(RepIn(h), kids, ts, 0, i);
    RelatedSlice(RepIn(h), kids, ts, j, |kids|);
    RelatedKept(h, h', kids[..i], ts[..i]);
    RelatedKept(h, h', kids[j..], ts[j..]);
    RelatedConcat(RepIn(h'), kids[..i], ts[..i], after, ts');
    RelatedConcat(RepIn(h'), kids[..i] + after, ts[..i] + ts', kids[j..], ts[j..]);
    forall x: nat
      ensures CountAll(Replace(kids, i, j, after), x) <= if x < top then CountAll(kids, x) else if x < top' then 1 else 0
      ensures x < top && CountAll(kids, x) == 0 ==> Same(h, h', x)
    {
      CountReplace(kids, i, j, after, x);
      CountSplit(kids, i, j, x);
      assert CountAll(kids, x) <= if x < top then 1 else 0;
    }
  }

  lemma OutsideKept(h: Pool, h': Pool, kids: seq<Shape>, i: nat, j: nat, top: nat)
    requires i <= j <= |kids| && Single(kids, top) && Framed(h, h', kids[i..j], top)
    ensures AllKept(h, h', kids[..i]) && AllKept(h, h', kids[j..])
  {
    forall x: nat | CountAll(kids[..i], x) > 0 || CountAll(kids[j..], x) > 0 ensures Same(h, h', x) {
      CountSplit(kids, i, j, x);
      assert CountAll(kids, x) <= if x < top then 1 else 0;
    }
  }

  lemma CountBranch(id: nat, kids: seq<Shape>, x: nat)
    ensures CountAll([BranchAt(id, kids)], x) == (if id == x then 1 else 0) + CountAll(kids, x)
  {
    assert [BranchAt(id, kids)][1..] == [];
  }

  lemma CountTwo(l: Shape, r: Shape, x: nat)
    ensures CountAll([l, r], x) == Count(l, x) + Count(r, x)
  {
    assert [l, r] == [l] + [r];
    CountConcat([l], [r], x);
    assert [l][1..] == [] && [r][1..] == [];
  }

  lemma LeavesTwo(l: Shape, r: Shape)
    ensures AllLeaves([l, r]) == Leaves(l) + Leaves(r)
  {
    assert [l, r] == [l] + [r];
    LeavesConcat([l], [r]);
    assert [l][1..] == [] && [r][1..] == [];
  }

  lemma SingleKids(id: nat, kids: seq<Shape>, top: nat)
    requires Single([BranchAt(id, kids)], top)
    ensures Single(kids, top) && CountAll(kids, id) == 0 && id < top
  {
    forall x: nat
      ensures CountAll(kids, x) <= if x < top then 1 else 0
      ensures CountAll([BranchAt(id, kids)], x) == (if id == x then 1 else 0) + CountAll(kids, x)
    {
      CountBranch(id, kids, x);
      assert CountAll([BranchAt(id, kids)], x) <= if x < top then 1 else 0;
    }
    assert CountAll([BranchAt(id, kids)], id) <= if id < top then 1 else 0;
  }

  /** A change of the children followed by a change of their parent. */
  lemma ParentSet(h: Pool, h1: Pool, h2: Pool, id: nat, kids: seq<Shape>, after: seq<Shape>, keys: seq<int>, ts: seq<Tree>, top: nat, top': nat)
    requires Single([BranchAt(id, kids)], top) && Became(h, h1, kids, after, ts, top, top')
    requires h2 == h1[id := BranchNode(keys, Tops(after))]
    ensures Became(h, h2, [BranchAt(id, kids)], [BranchAt(id, after)], [Branch(keys, ts)], top, top')
  {
    SingleKids(id, kids, top);
    assert AllKept(h1, h2, after) by {
      assert CountAll(after, id) <= CountAll(kids, id);
    }
    RelatedKept(h1, h2, after, ts);
    BranchRep(h2, id, after, keys, ts);
    forall x: nat
      ensures CountAll([BranchAt(id, after)], x) <= if x < top then CountAll([BranchAt(id, kids)], x) else if x < top' then 1 else 0
      ensures x < top && CountAll([BranchAt(id, kids)], x) == 0 ==> Same(h, h2, x)
    {
      CountBranch(id, kids, x);
      CountBranch(id, after, x);
      assert x < top && CountAll(kids, x) == 0 ==> Same(h, h1, x);
    }
  }

  /** The same when the parent splits at child j and its right half gets the new
      address top'. */
  lemma ParentSplit(h: Pool, h1: Pool, h2: Pool, id: nat, kids: seq<Shape>, after: seq<Shape>, lk: seq<int>, rk: seq<int>, j: nat,
                    ts: seq<Tree>, top: nat, top': nat)
    requires Single([BranchAt(id, kids)], top) && Became(h, h1, kids, after, ts, top, top') && j <= |after|
    requires h2 == h1[id := BranchNode(lk, Tops(after[..j]))][top' := BranchNode(rk, Tops(after[j..]))]
    ensures Became(h, h2, [BranchAt(id, kids)], [BranchAt(id, after[..j]), BranchAt(top', after[j..])],
                   [Branch(lk, ts[..j]), Branch(rk, ts[j..])], top, top' + 1)
  {
    SingleKids(id, kids, top);
    assert AllKept(h1, h2, after) by {
      assert CountAll(after, id) <= CountAll(kids, id);
      assert CountAll(after, top') == 0;
    }
    RelatedKept(h1, h2, after, ts);
    RelatedSlice(RepIn(h2), after, ts, 0, j);
    RelatedSlice(RepIn(h2), after, ts, j, |after|);
    BranchRep(h2, id, after[..j], lk, ts[..j]);
    BranchRep(h2, top', after[j..], rk, ts[j..]);
    forall x: nat
      ensures CountAll([BranchAt(id, after[..j]), BranchAt(top', after[j..])], x)
           <= if x < top then CountAll([BranchAt(id, kids)], x) else if x < top' + 1 then 1 else 0
      ensures x < top && CountAll([BranchAt(id, kids)], x) == 0 ==> Same(h, h2, x)
    {
      CountBranch(id, kids, x);
      CountTwo(BranchAt(id, after[..j]), BranchAt(top', after[j..]), x);
      CountSplit(after, j, j, x);
      assert after[j..j] == [];
      assert x < top && CountAll(kids, x) == 0 ==> Same(h, h1, x);
      assert CountAll(after, x) <= if x < top then CountAll(kids, x) else if x < top' then 1 else 0;
    }
  }
}
