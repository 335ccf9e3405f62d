/** The B+-tree as a value: its nodes, search, and what a well-formed tree is.
    `BPlusTree` runs the same algorithms on a pool of linked nodes (`NodePool`,
    `PoolInsert`, `PoolErase`). */
module PbTree {
  import opened Wrappers

  /** A branch node holds up to n keys, an even number, and a leaf up to m. */
  datatype Order = Order(half: nat, m: nat) {
    function n(): nat { 2 * half }

    /** Where a full branch node splits, and below which number of keys it underflows. */
    function BranchMiddle(): (mid: nat)
      ensures mid == half
    {
      (n() + 1) / 2
    }

    /** The same for a leaf. */
    function LeafMiddle(): (mid: nat)
      ensures m <= 2 * mid <= m + 1
    {
      (m + 1) / 2
    }

    /** What a leaf can be left with after a split. */
    function LeafMin(): (least: nat)
      ensures least + LeafMiddle() == m
    {
      m / 2
    }
  }

  predicate OrderOk(o: Order) {
    o.half >= 3 && o.m >= 4
  }

  datatype Tree =
    | Leaf(keys: seq<int>, vals: seq<int>)
    | Branch(keys: seq<int>, kids: seq<Tree>)

  type Entry = (int, int)

  // --------------------------------------------------------------------- search

  /** The number of leading keys below k: the position of `binarySearch<false>`. */
  function LowerBound(keys: seq<int>, k: int): (p: nat)
    ensures p <= |keys|
    ensures forall i :: 0 <= i < p ==> keys[i] < k
    ensures p < |keys| ==> k <= keys[p]
  {
    if keys == [] || k <= keys[0] then 0 else 1 + LowerBound(keys[1..], k)
  }

  /** The number of leading keys not above k: the position of `binarySearch<true>`. */
  function UpperBound(keys: seq<int>, k: int): (p: nat)
    ensures p <= |keys|
    ensures forall i :: 0 <= i < p ==> keys[i] <= k
    ensures p < |keys| ==> k < keys[p]
  {
    if keys == [] || k < keys[0] then 0 else 1 + UpperBound(keys[1..], k)
  }

  predicate Sorted(keys: seq<int>) {
    forall i, j :: 0 <= i < j < |keys| ==> keys[i] < keys[j]
  }

  function Lookup(t: Tree, d: nat, k: int): Option<int>
    requires Shaped(t, d)
    decreases d
  {
    match t
    case Leaf(keys, vals) =>
      var p := LowerBound(keys, k);
      if p < |keys| && keys[p] == k then Some(vals[p]) else None
    case Branch(keys, kids) => Lookup(kids[UpperBound(keys, k)], d - 1, k)
  }

  /** All leaves are at depth d, and nodes have matching numbers of parts. */
  predicate Shaped(t: Tree, d: nat)
    decreases d
  {
    match t
    case Leaf(keys, vals) => d == 0 && |keys| == |vals|
    case Branch(keys, kids) =>
      d > 0 && |kids| == |keys| + 1 && forall i :: 0 <= i < |kids| ==> Shaped(kids[i], d - 1)
  }

  // ------------------------------------------------------------------ the content

  function Pairs(keys: seq<int>, vals: seq<int>): seq<Entry>
    requires |keys| == |vals|
  {
    seq(|keys|, i requires 0 <= i < |keys| => (keys[i], vals[i]))
  }

  /** The entries of a tree, leaf by leaf from left to right. */
  function Entries(t: Tree, d: nat): seq<Entry>
    requires Shaped(t, d)
    decreases d, 0
  {
    match t
    case Leaf(keys, vals) => Pairs(keys, vals)
    case Branch(keys, kids) => AllEntries(kids, d - 1)
  }

  predicate AllShaped(kids: seq<Tree>, d: nat) {
    forall i :: 0 <= i < |kids| ==> Shaped(kids[i], d)
  }

  function AllEntries(kids: seq<Tree>, d: nat): seq<Entry>
    requires AllShaped(kids, d)
    decreases d, 1, |kids|
  {
    if kids == [] then [] else Entries(kids[0], d) + AllEntries(kids[1..], d)
  }

  lemma {:induction false} EntriesConcat(a: seq<Tree>, b: seq<Tree>, d: nat)
    requires AllShaped(a, d) && AllShaped(b, d)
    ensures AllShaped(a + b, d) && AllEntries(a + b, d) == AllEntries(a, d) + AllEntries(b, d)
    decreases |a|
  {
    if a == [] {
      assert a + b == b;
    } else {
      EntriesConcat(a[1..], b, d);
      assert (a + b)[0] == a[0] && (a + b)[1..] == a[1..] + b;
    }
  }

  lemma OneEntry(t: Tree, d: nat)
    requires Shaped(t, d)
    ensures AllShaped([t], d) && AllEntries([t], d) == Entries(t, d)
  {
    assert [t][1..] == [];
  }

  /** The entries of a list of trees around position i. */
  lemma EntriesAround(kids: seq<Tree>, i: nat, d: nat)
    requires AllShaped(kids, d) && i < |kids|
    ensures AllShaped(kids[..i], d) && AllShaped(kids[i + 1..], d)
    ensures AllEntries(kids, d) == AllEntries(kids[..i], d) + Entries(kids[i], d) + AllEntries(kids[i + 1..], d)
  {
    assert kids == kids[..i] + ([kids[i]] + kids[i + 1..]);
    OneEntry(kids[i], d);
    EntriesConcat([kids[i]], kids[i + 1..], d);
    EntriesConcat(kids[..i], [kids[i]] + kids[i + 1..], d);
  }

  // ---------------------------------------------------- the map as a sorted list

  ghost predicate SortedEntries(es: seq<Entry>) {
    forall i, j :: 0 <= i < j < |es| ==> es[i].0 < es[j].0
  }

  /** Insert or replace in a list sorted by key. */
  function Put(es: seq<Entry>, k: int, v: int): seq<Entry> {
    if es == [] || k < es[0].0 then [(k, v)] + es
    else if k == es[0].0 then [(k, v)] + es[1..]
    else [es[0]] + Put(es[1..], k, v)
  }

  /** Remove a key from a list sorted by key. */
  function Drop(es: seq<Entry>, k: int): seq<Entry> {
    if es == [] then []
    else if k == es[0].0 then es[1..]
    else [es[0]] + Drop(es[1..], k)
  }

  function Find(es: seq<Entry>, k: int): Option<int> {
    if es == [] then None else if es[0].0 == k then Some(es[0].1) else Find(es[1..], k)
  }

  ghost predicate AllBelow(es: seq<Entry>, k: int) {
    forall i :: 0 <= i < |es| ==> es[i].0 < k
  }

  ghost predicate AllAbove(es: seq<Entry>, k: int) {
    forall i :: 0 <= i < |es| ==> k < es[i].0
  }

  lemma {:induction false} PutBefore(e: seq<Entry>, b: seq<Entry>, k: int, v: int)
    requires AllAbove(b, k)
    ensures Put(e + b, k, v) == Put(e, k, v) + b
  {
    if e == [] {
      assert e + b == b;
      assert Put(b, k, v) == [(k, v)] + b;
    } else {
      assert (e + b)[1..] == e[1..] + b;
      if e[0].0 < k {
        PutBefore(e[1..], b, k, v);
      } else if e[0].0 == k {
        assert Put(e, k, v) + b == [(k, v)] + (e[1..] + b);
      } else {
        assert Put(e, k, v) + b == [(k, v)] + (e + b);
      }
    }
  }

  lemma {:induction false} PutAround(a: seq<Entry>, e: seq<Entry>, b: seq<Entry>, k: int, v: int)
    requires AllBelow(a, k) && AllAbove(b, k)
    ensures Put(a + e + b, k, v) == a + Put(e, k, v) + b
  {
    if a == [] {
      PutBefore(e, b, k, v);
      assert a + e + b == e + b;
    } else {
      PutAround(a[1..], e, b, k, v);
      assert (a + e + b)[1..] == a[1..] + e + b;
    }
  }

  lemma {:induction false} DropBefore(e: seq<Entry>, b: seq<Entry>, k: int)
    requires AllAbove(b, k)
    ensures Drop(e + b, k) == Drop(e, k) + b
  {
    if e == [] {
      assert e + b == b;
      DropAbsent(b, k);
    } else {
      assert (e + b)[1..] == e[1..] + b;
      if e[0].0 != k {
        DropBefore(e[1..], b, k);
      }
    }
  }

  lemma {:induction false} DropAround(a: seq<Entry>, e: seq<Entry>, b: seq<Entry>, k: int)
    requires AllBelow(a, k) && AllAbove(b, k)
    ensures Drop(a + e + b, k) == a + Drop(e, k) + b
  {
    if a == [] {
      DropBefore(e, b, k);
      assert a + e + b == e + b;
    } else {
      DropAround(a[1..], e, b, k);
      assert (a + e + b)[1..] == a[1..] + e + b;
    }
  }

  lemma {:induction false} DropAbsent(b: seq<Entry>, k: int)
    requires AllAbove(b, k)
    ensures Drop(b, k) == b
  {
    if b != [] {
      DropAbsent(b[1..], k);
      assert b == [b[0]] + b[1..];
    }
  }

  lemma {:induction false} FindAround(a: seq<Entry>, e: seq<Entry>, b: seq<Entry>, k: int)
    requires AllBelow(a, k) && AllAbove(b, k)
    ensures Find(a + e + b, k) == Find(e, k)
    decreases |a| + |e| + |b|
  {
    var es := a + e + b;
    if a != [] {
      FindAround(a[1..], e, b, k);
      assert es[1..] == a[1..] + e + b;
    } else if e != [] {
      assert es[1..] == [] + e[1..] + b;
      if e[0].0 != k {
        FindAround([], e[1..], b, k);
      }
    } else if b != [] {
      assert es[1..] == [] + [] + b[1..];
      FindAround([], [], b[1..], k);
    }
  }

  // -------------------------------------------------------------- well-formedness

  predicate AtLeast(lo: Option<int>, k: int) {
    lo.None? || lo.value <= k
  }

  predicate Above(lo: Option<int>, k: int) {
    lo.None? || lo.value < k
  }

  predicate Below(k: int, hi: Option<int>) {
    hi.None? || k < hi.value
  }

  function KidLo(keys: seq<int>, lo: Option<int>, i: nat): Option<int>
    requires i <= |keys|
  {
    if i == 0 then lo else Some(keys[i - 1])
  }

  function KidHi(keys: seq<int>, hi: Option<int>, i: nat): Option<int>
    requires i <= |keys|
  {
    if i == |keys| then hi else Some(keys[i])
  }

  predicate LeafOk(keys: seq<int>, vals: seq<int>, lo: Option<int>, hi: Option<int>) {
    && |keys| == |vals| && Sorted(keys)
    && forall i :: 0 <= i < |keys| ==> AtLeast(lo, keys[i]) && Below(keys[i], hi)
  }

  predicate KeysOk(keys: seq<int>, lo: Option<int>, hi: Option<int>) {
    && Sorted(keys)
    && forall i :: 0 <= i < |keys| ==> Above(lo, keys[i]) && Below(keys[i], hi)
  }

  /** A subtree of height d with keys in [lo, hi): ordered, separated by the keys
      of its branch nodes, of uniform depth and filled within bounds. A leaf
      other than the root holds at least m / 2 keys, a branch node n / 2 - 1. */
  ghost predicate Good(o: Order, t: Tree, d: nat, lo: Option<int>, hi: Option<int>)
    decreases d, 0
  {
    match t
    case Leaf(keys, vals) =>
      d == 0 && LeafOk(keys, vals, lo, hi) && o.LeafMin() <= |keys| <= o.m
    case Branch(keys, kids) =>
      && d > 0 && |kids| == |keys| + 1 && KeysOk(keys, lo, hi)
      && o.half - 1 <= |keys| <= o.n()
      && KidsGood(o, keys, kids, d - 1, lo, hi)
  }

  ghost predicate KidsGood(o: Order, keys: seq<int>, kids: seq<Tree>, d: nat, lo: Option<int>, hi: Option<int>)
    requires |kids| == |keys| + 1
    decreases d, 1
  {
    forall i :: 0 <= i < |kids| ==> Good(o, kids[i], d, KidLo(keys, lo, i), KidHi(keys, hi, i))
  }

  /** A property of a subtree and its bounds. */
  type Judgement = (Tree, Option<int>, Option<int>) -> bool

  ghost function GoodAt(o: Order, d: nat): Judgement {
    (t: Tree, lo: Option<int>, hi: Option<int>) => Good(o, t, d, lo, hi)
  }

  ghost predicate KidsAre(g: Judgement, keys: seq<int>, kids: seq<Tree>, lo: Option<int>, hi: Option<int>)
    requires |kids| == |keys| + 1
  {
    forall i :: 0 <= i < |kids| ==> g(kids[i], KidLo(keys, lo, i), KidHi(keys, hi, i))
  }

  /** The whole tree: the root may be an underfull leaf or have a single key. */
  ghost predicate RootOk(o: Order, t: Tree, d: nat) {
    match t
    case Leaf(keys, vals) => d == 0 && LeafOk(keys, vals, None, None) && |keys| <= o.m
    case Branch(keys, kids) =>
      && d > 0 && |kids| == |keys| + 1 && KeysOk(keys, None, None) && 1 <= |keys| <= o.n()
      && KidsGood(o, keys, kids, d - 1, None, None)
  }

  lemma {:induction false} GoodShaped(o: Order, t: Tree, d: nat, lo: Option<int>, hi: Option<int>)
    requires Good(o, t, d, lo, hi)
    ensures Shaped(t, d)
    decreases d
  {
    if t.Branch? {
      forall i | 0 <= i < |t.kids| ensures Shaped(t.kids[i], d - 1) {
        GoodShaped(o, t.kids[i], d - 1, KidLo(t.keys, lo, i), KidHi(t.keys, hi, i));
      }
    }
  }

  lemma KidsShaped(o: Order, keys: seq<int>, kids: seq<Tree>, d: nat, lo: Option<int>, hi: Option<int>)
    requires |kids| == |keys| + 1 && KidsGood(o, keys, kids, d, lo, hi)
    ensures AllShaped(kids, d)
  {
    forall i | 0 <= i < |kids| ensures Shaped(kids[i], d) {
      GoodShaped(o, kids[i], d, KidLo(keys, lo, i), KidHi(keys, hi, i));
    }
  }

  lemma RootShaped(o: Order, t: Tree, d: nat)
    requires RootOk(o, t, d)
    ensures Shaped(t, d)
  {
    if t.Branch? {
      KidsShaped(o, t.keys, t.kids, d - 1, None, None);
    }
  }

  ghost predicate Within(es: seq<Entry>, lo: Option<int>, hi: Option<int>) {
    SortedEntries(es) && forall i :: 0 <= i < |es| ==> AtLeast(lo, es[i].0) && Below(es[i].0, hi)
  }

  /** Adjacent sorted ranges concatenate to a sorted range. */
  lemma WithinConcat(a: seq<Entry>, b: seq<Entry>, lo: Option<int>, mid: int, hi: Option<int>)
    requires Within(a, lo, Some(mid)) && Within(b, Some(mid), hi)
    requires Above(lo, mid) && Below(mid, hi)
    ensures Within(a + b, lo, hi)
  {
  }

  /** The entries of a good subtree are sorted and inside its bounds. */
  lemma {:induction false} GoodWithin(o: Order, t: Tree, d: nat, lo: Option<int>, hi: Option<int>)
    requires Good(o, t, d, lo, hi)
    ensures Shaped(t, d) && Within(Entries(t, d), lo, hi)
    decreases d, 0
  {
    GoodShaped(o, t, d, lo, hi);
    if t.Branch? {
      KidsShaped(o, t.keys, t.kids, d - 1, lo, hi);
      KidsWithin(o, t.keys, t.kids, d - 1, lo, hi, |t.keys|);
      assert t.kids[..|t.kids|] == t.kids;
    }
  }

  /** The same for the first i + 1 children of a branch node. */
  lemma {:induction false} KidsWithin(o: Order, keys: seq<int>, kids: seq<Tree>, d: nat, lo: Option<int>, hi: Option<int>, i: nat)
    requires |kids| == |keys| + 1 && KeysOk(keys, lo, hi) && KidsGood(o, keys, kids, d, lo, hi) && i < |kids|
    requires AllShaped(kids, d)
    ensures AllShaped(kids[..i + 1], d) && Within(AllEntries(kids[..i + 1], d), lo, KidHi(keys, hi, i))
    decreases d, 1, i
  {
    GoodWithin(o, kids[i], d, KidLo(keys, lo, i), KidHi(keys, hi, i));
    OneEntry(kids[i], d);
    if i == 0 {
      assert kids[..1] == [kids[0]];
    } else {
      KidsWithin(o, keys, kids, d, lo, hi, i - 1);
      assert kids[..i + 1] == kids[..i] + [kids[i]];
      EntriesConcat(kids[..i], [kids[i]], d);
      WithinConcat(AllEntries(kids[..i], d), Entries(kids[i], d), lo, keys[i - 1], KidHi(keys, hi, i));
    }
  }

  /** And for the children from i on. */
  lemma {:induction false} KidsWithinFrom(o: Order, keys: seq<int>, kids: seq<Tree>, d: nat, lo: Option<int>, hi: Option<int>, i: nat)
    requires |kids| == |keys| + 1 && KeysOk(keys, lo, hi) && KidsGood(o, keys, kids, d, lo, hi) && i < |kids|
    requires AllShaped(kids, d)
    ensures AllShaped(kids[i..], d) && Within(AllEntries(kids[i..], d), KidLo(keys, lo, i), hi)
    decreases |kids| - i
  {
    GoodWithin(o, kids[i], d, KidLo(keys, lo, i), KidHi(keys, hi, i));
    assert kids[i..][0] == kids[i] && kids[i..][1..] == kids[i + 1..];
    if i == |keys| {
      assert kids[i + 1..] == [];
    } else {
      KidsWithinFrom(o, keys, kids, d, lo, hi, i + 1);
      WithinConcat(Entries(kids[i], d), AllEntries(kids[i + 1..], d), KidLo(keys, lo, i), keys[i], hi);
    }
  }

  /** The child that a search for k descends into: everything to its left is
      below k, everything to its right above. */
  lemma Focus(o: Order, keys: seq<int>, kids: seq<Tree>, d: nat, lo: Option<int>, hi: Option<int>, k: int)
    requires |kids| == |keys| + 1 && KeysOk(keys, lo, hi) && KidsGood(o, keys, kids, d, lo, hi)
    requires AtLeast(lo, k) && Below(k, hi)
    ensures AllShaped(kids, d)
    ensures var p := UpperBound(keys, k);
            && AllShaped(kids[..p], d) && AllShaped(kids[p + 1..], d)
            && AllEntries(kids, d) == AllEntries(kids[..p], d) + Entries(kids[p], d) + AllEntries(kids[p + 1..], d)
            && AllBelow(AllEntries(kids[..p], d), k) && AllAbove(AllEntries(kids[p + 1..], d), k)
            && Good(o, kids[p], d, KidLo(keys, lo, p), KidHi(keys, hi, p))
            && AtLeast(KidLo(keys, lo, p), k) && Below(k, KidHi(keys, hi, p))
  {
    KidsShaped(o, keys, kids, d, lo, hi);
    var p := UpperBound(keys, k);
    EntriesAround(kids, p, d);
    if p > 0 {
      KidsWithin(o, keys, kids, d, lo, hi, p - 1);
    }
    if p < |keys| {
      KidsWithinFrom(o, keys, kids, d, lo, hi, p + 1);
    } else {
      assert kids[p + 1..] == [];
    }
  }

  lemma {:induction false} FindPairs(keys: seq<int>, vals: seq<int>, k: int)
    requires |keys| == |vals| && Sorted(keys)
    ensures var p := LowerBound(keys, k);
            Find(Pairs(keys, vals), k) == if p < |keys| && keys[p] == k then Some(vals[p]) else None
  {
    if keys != [] {
      FindPairs(keys[1..], vals[1..], k);
      assert Pairs(keys, vals)[1..] == Pairs(keys[1..], vals[1..]);
      if k <= keys[0] && k != keys[0] {
        FindNothing(Pairs(keys, vals), k);
      }
    }
  }

  lemma {:induction false} FindNothing(es: seq<Entry>, k: int)
    requires AllAbove(es, k)
    ensures Find(es, k) == None
  {
    if es != [] {
      FindNothing(es[1..], k);
    }
  }

  /** Searching a subtree finds exactly what its entries hold. */
  lemma {:induction false} LookupIsFind(o: Order, t: Tree, d: nat, lo: Option<int>, hi: Option<int>, k: int)
    requires Good(o, t, d, lo, hi) && AtLeast(lo, k) && Below(k, hi)
    ensures Shaped(t, d) && Lookup(t, d, k) == Find(Entries(t, d), k)
    decreases d, 0
  {
    GoodShaped(o, t, d, lo, hi);
    match t
    case Leaf(keys, vals) => FindPairs(keys, vals, k);
    case Branch(keys, kids) => BranchLookup(o, keys, kids, d - 1, lo, hi, k);
  }

  lemma {:induction false} BranchLookup(o: Order, keys: seq<int>, kids: seq<Tree>, d: nat, lo: Option<int>, hi: Option<int>, k: int)
    requires |kids| == |keys| + 1 && KeysOk(keys, lo, hi) && KidsGood(o, keys, kids, d, lo, hi)
    requires AtLeast(lo, k) && Below(k, hi)
    ensures AllShaped(kids, d) && Lookup(kids[UpperBound(keys, k)], d, k) == Find(AllEntries(kids, d), k)
    decreases d, 1
  {
    var p := UpperBound(keys, k);
    Focus(o, keys, kids, d, lo, hi, k);
    LookupIsFind(o, kids[p], d, KidLo(keys, lo, p), KidHi(keys, hi, p), k);
    FindAround(AllEntries(kids[..p], d), Entries(kids[p], d), AllEntries(kids[p + 1..], d), k);
  }

  /** The same for the whole tree, for every key. */
  lemma RootLookup(o: Order, t: Tree, d: nat, k: int)
    requires RootOk(o, t, d)
    ensures Shaped(t, d) && Lookup(t, d, k) == Find(Entries(t, d), k)
  {
    RootShaped(o, t, d);
    match t
    case Leaf(keys, vals) => FindPairs(keys, vals, k);
    case Branch(keys, kids) => BranchLookup(o, keys, kids, d - 1, None, None, k);
  }

  lemma RootSorted(o: Order, t: Tree, d: nat)
    requires RootOk(o, t, d)
    ensures Shaped(t, d) && SortedEntries(Entries(t, d))
  {
    RootShaped(o, t, d);
    if t.Branch? {
      KidsShaped(o, t.keys, t.kids, d - 1, None, None);
      KidsWithin(o, t.keys, t.kids, d - 1, None, None, |t.keys|);
      assert t.kids[..|t.kids|] == t.kids;
    }
  }

  // ------------------------------------------------------------------- the map

  /** Put, Drop and Find on sorted lists are the operations of a map. */
  lemma {:induction false} FindPut(es: seq<Entry>, k: int, v: int, x: int)
    ensures Find(Put(es, k, v), x) == if x == k then Some(v) else Find(es, x)
  {
    if es != [] {
      if k < es[0].0 {
        assert Put(es, k, v)[1..] == es;
      } else if k == es[0].0 {
        assert Put(es, k, v)[1..] == es[1..];
      } else {
        FindPut(es[1..], k, v, x);
        assert Put(es, k, v)[1..] == Put(es[1..], k, v);
      }
    }
  }

  lemma {:induction false} FindDrop(es: seq<Entry>, k: int, x: int)
    requires SortedEntries(es)
    ensures Find(Drop(es, k), x) == if x == k then None else Find(es, x)
  {
    if es != [] {
      FindDrop(es[1..], k, x);
      if k == es[0].0 {
        FindNothing(es[1..], k);
      } else {
        assert Drop(es, k)[1..] == Drop(es[1..], k);
      }
    }
  }
}
