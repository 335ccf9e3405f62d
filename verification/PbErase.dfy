/** Deletion from the B+-tree: underflow is repaired by balancing with a sibling
    or merging; the tree stays well formed and the key leaves the map. */
module PbErase {
  import opened Wrappers
  import opened PbTree
  import opened PbInsert

  function RemoveAt<T>(s: seq<T>, i: nat): seq<T>
    requires i < |s|
  {
    s[..i] + s[i + 1..]
  }

  // ------------------------------------------------------------- the operations

  /** `eraseFromLeafNode`: removes a stored key. `PbRawLeaf` says when the code also
      leaves a leaf without the key as it is. */
  function EraseLeaf(keys: seq<int>, vals: seq<int>, k: int): Tree
    requires |keys| == |vals|
  {
    var p := LowerBound(keys, k);
    if p < |keys| && keys[p] == k then Leaf(RemoveAt(keys, p), RemoveAt(vals, p)) else Leaf(keys, vals)
  }

  predicate SameKind(l: Tree, r: Tree, d: nat) {
    Shaped(l, d) && Shaped(r, d)
  }

  /** `mergeLeafNodes` and `mergeBranchNodes`. */
  function Join(l: Tree, sep: int, r: Tree, d: nat): Tree
    requires SameKind(l, r, d)
  {
    if l.Leaf? then Leaf(l.keys + r.keys, l.vals + r.vals)
    else Branch(l.keys + [sep] + r.keys, l.kids + r.kids)
  }

  /** Two neighbours and the separator between them. */
  datatype Pair = Pair(l: Tree, sep: int, r: Tree)

  /** `balanceLeafNodes` and `balanceBranchNodes` from the left neighbour: it keeps
      half of the keys and the others move, for branch nodes through the parent. */
  function BalanceFromLeft(l: Tree, sep: int, r: Tree, d: nat): Pair
    requires SameKind(l, r, d) && |l.keys| > |r.keys| > 0
  {
    var stay := (|l.keys| + |r.keys|) / 2;
    if l.Leaf? then
      var keys, vals := l.keys[stay..] + r.keys, l.vals[stay..] + r.vals;
      Pair(Leaf(l.keys[..stay], l.vals[..stay]), keys[0], Leaf(keys, vals))
    else
      Pair(Branch(l.keys[..stay], l.kids[..stay + 1]), l.keys[stay],
           Branch(l.keys[stay + 1..] + [sep] + r.keys, l.kids[stay + 1..] + r.kids))
  }

  /** The same from the right neighbour. */
  function BalanceFromRight(l: Tree, sep: int, r: Tree, d: nat): Pair
    requires SameKind(l, r, d) && |r.keys| > |l.keys| > 0
  {
    var move := |r.keys| - (|l.keys| + |r.keys|) / 2;
    if l.Leaf? then
      Pair(Leaf(l.keys + r.keys[..move], l.vals + r.vals[..move]), r.keys[move], Leaf(r.keys[move..], r.vals[move..]))
    else
      Pair(Branch(l.keys + [sep] + r.keys[..move - 1], l.kids + r.kids[..move]), r.keys[move - 1],
           Branch(r.keys[move..], r.kids[move..]))
  }

  /** A branch node with neighbours i and i + 1 and their separator replaced. */
  function SetPair(keys: seq<int>, kids: seq<Tree>, i: nat, pr: Pair): Tree
    requires i < |keys| && |kids| == |keys| + 1
  {
    Branch(keys[i := pr.sep], kids[i := pr.l][i + 1 := pr.r])
  }

  /** A branch node with neighbours i and i + 1 merged into t. */
  function SetMerged(keys: seq<int>, kids: seq<Tree>, i: nat, t: Tree): Tree
    requires i < |keys| && |kids| == |keys| + 1
  {
    Branch(RemoveAt(keys, i), RemoveAt(kids[i := t], i + 1))
  }

  /** `underflowAtLeafLevel` and `underflowAtBranchLevel` for child p of height d. */
  function Repair(o: Order, keys: seq<int>, kids: seq<Tree>, p: nat, d: nat): Tree
    requires 0 < |keys| && |kids| == |keys| + 1 && p < |kids| && AllShaped(kids, d) && |kids[p].keys| > 0
  {
    var mid := if d == 0 then o.LeafMiddle() else o.BranchMiddle();
    if |kids[p].keys| >= mid then Branch(keys, kids)
    else if p > 0 && |kids[p - 1].keys| > mid then
      SetPair(keys, kids, p - 1, BalanceFromLeft(kids[p - 1], keys[p - 1], kids[p], d))
    else if p < |keys| && |kids[p + 1].keys| > mid then
      SetPair(keys, kids, p, BalanceFromRight(kids[p], keys[p], kids[p + 1], d))
    else
      var i := if p > 0 then p - 1 else p;
      SetMerged(keys, kids, i, Join(kids[i], keys[i], kids[i + 1], d))
  }

  // ------------------------------------------------ balancing is joining and cutting

  /** Cut a node in two at key j. */
  function CutNode(t: Tree, d: nat, j: nat): Pair
    requires Shaped(t, d) && j < |t.keys|
  {
    if t.Leaf? then Pair(Leaf(t.keys[..j], t.vals[..j]), t.keys[j], Leaf(t.keys[j..], t.vals[j..]))
    else Pair(Branch(t.keys[..j], t.kids[..j + 1]), t.keys[j], Branch(t.keys[j + 1..], t.kids[j + 1..]))
  }

  lemma JoinShaped(l: Tree, sep: int, r: Tree, d: nat)
    requires SameKind(l, r, d)
    ensures Shaped(Join(l, sep, r, d), d)
    ensures |Join(l, sep, r, d).keys| == |l.keys| + |r.keys| + (if d == 0 then 0 else 1)
  {
  }

  lemma CutConcat<T>(a: seq<T>, b: seq<T>, j: nat)
    requires j <= |a| + |b|
    ensures j <= |a| ==> (a + b)[..j] == a[..j] && (a + b)[j..] == a[j..] + b
    ensures j >= |a| ==> (a + b)[..j] == a + b[..j - |a|] && (a + b)[j..] == b[j - |a|..]
  {
  }

  lemma LeavesLeftIsCut(lk: seq<int>, lv: seq<int>, rk: seq<int>, rv: seq<int>, sep: int)
    requires |lk| == |lv| && |rk| == |rv| && |lk| > |rk| > 0
    ensures var stay := (|lk| + |rk|) / 2;
            BalanceFromLeft(Leaf(lk, lv), sep, Leaf(rk, rv), 0) == CutNode(Leaf(lk + rk, lv + rv), 0, stay)
  {
    var stay := (|lk| + |rk|) / 2;
    CutConcat(lk, rk, stay);
    CutConcat(lv, rv, stay);
  }

  lemma BranchesLeftIsCut(lk: seq<int>, lc: seq<Tree>, sep: int, rk: seq<int>, rc: seq<Tree>, d: nat)
    requires SameKind(Branch(lk, lc), Branch(rk, rc), d) && Shaped(Branch(lk + [sep] + rk, lc + rc), d) && |lk| > |rk| > 0
    ensures var stay := (|lk| + |rk|) / 2;
            BalanceFromLeft(Branch(lk, lc), sep, Branch(rk, rc), d) == CutNode(Branch(lk + [sep] + rk, lc + rc), d, stay)
  {
    var stay := (|lk| + |rk|) / 2;
    assert lk + [sep] + rk == lk + ([sep] + rk);
    CutConcat(lk, [sep] + rk, stay);
    CutConcat(lk, [sep] + rk, stay + 1);
    assert lk[stay + 1..] + ([sep] + rk) == lk[stay + 1..] + [sep] + rk;
    CutConcat(lc, rc, stay + 1);
  }

  lemma BalanceLeftIsCut(l: Tree, sep: int, r: Tree, d: nat)
    requires SameKind(l, r, d) && |l.keys| > |r.keys| > 0
    ensures Shaped(Join(l, sep, r, d), d)
    ensures var stay := (|l.keys| + |r.keys|) / 2;
            stay < |Join(l, sep, r, d).keys| && BalanceFromLeft(l, sep, r, d) == CutNode(Join(l, sep, r, d), d, stay)
  {
    JoinShaped(l, sep, r, d);
    if l.Leaf? {
      LeavesLeftIsCut(l.keys, l.vals, r.keys, r.vals, sep);
    } else {
      BranchesLeftIsCut(l.keys, l.kids, sep, r.keys, r.kids, d);
    }
  }

  lemma LeavesRightIsCut(lk: seq<int>, lv: seq<int>, rk: seq<int>, rv: seq<int>, sep: int)
    requires |lk| == |lv| && |rk| == |rv| && |rk| > |lk| > 0
    ensures var j := |lk| + |rk| - (|lk| + |rk|) / 2;
            BalanceFromRight(Leaf(lk, lv), sep, Leaf(rk, rv), 0) == CutNode(Leaf(lk + rk, lv + rv), 0, j)
  {
    var j := |lk| + |rk| - (|lk| + |rk|) / 2;
    CutConcat(lk, rk, j);
    CutConcat(lv, rv, j);
  }

  /** A cut inside the right one of two joined branch nodes. */
  lemma CutInRight<T>(lk: seq<int>, lc: seq<T>, sep: int, rk: seq<int>, rc: seq<T>, move: nat)
    requires 0 < move <= |rk| && |lc| == |lk| + 1 && |rc| == |rk| + 1
    ensures var j, keys, kids := |lk| + move, lk + [sep] + rk, lc + rc;
            && keys[..j] == lk + [sep] + rk[..move - 1] && keys[j] == rk[move - 1] && keys[j + 1..] == rk[move..]
            && kids[..j + 1] == lc + rc[..move] && kids[j + 1..] == rc[move..]
  {
    var j := |lk| + move;
    CutConcat(lk + [sep], rk, j);
    CutConcat(lk + [sep], rk, j + 1);
    CutConcat(lc, rc, j + 1);
  }

  lemma BranchesRightIsCut(lk: seq<int>, lc: seq<Tree>, sep: int, rk: seq<int>, rc: seq<Tree>, d: nat)
    requires SameKind(Branch(lk, lc), Branch(rk, rc), d) && Shaped(Branch(lk + [sep] + rk, lc + rc), d) && |rk| > |lk| > 0
    ensures var j := |lk| + |rk| - (|lk| + |rk|) / 2;
            BalanceFromRight(Branch(lk, lc), sep, Branch(rk, rc), d) == CutNode(Branch(lk + [sep] + rk, lc + rc), d, j)
  {
    CutInRight(lk, lc, sep, rk, rc, |rk| - (|lk| + |rk|) / 2);
  }

  lemma BalanceRightIsCut(l: Tree, sep: int, r: Tree, d: nat)
    requires SameKind(l, r, d) && |r.keys| > |l.keys| > 0
    ensures Shaped(Join(l, sep, r, d), d)
    ensures var j := |l.keys| + |r.keys| - (|l.keys| + |r.keys|) / 2;
            j < |Join(l, sep, r, d).keys| && BalanceFromRight(l, sep, r, d) == CutNode(Join(l, sep, r, d), d, j)
  {
    JoinShaped(l, sep, r, d);
    if l.Leaf? {
      LeavesRightIsCut(l.keys, l.vals, r.keys, r.vals, sep);
    } else {
      BranchesRightIsCut(l.keys, l.kids, sep, r.keys, r.kids, d);
    }
  }

  // --------------------------------------------------------------- well-formedness

  /** Ordered and separated, whatever the number of keys. */
  ghost predicate NodeOk(o: Order, t: Tree, d: nat, lo: Option<int>, hi: Option<int>) {
    match t
    case Leaf(keys, vals) => d == 0 && LeafOk(keys, vals, lo, hi)
    case Branch(keys, kids) =>
      d > 0 && |kids| == |keys| + 1 && KeysOk(keys, lo, hi) && KidsGood(o, keys, kids, d - 1, lo, hi)
  }

  function Least(o: Order, d: nat): int {
    if d == 0 then o.LeafMin() else o.half - 1
  }

  function Most(o: Order, d: nat): nat {
    if d == 0 then o.m else o.n()
  }

  /** A node that may lack one key. */
  ghost predicate Loose(o: Order, t: Tree, d: nat, lo: Option<int>, hi: Option<int>) {
    NodeOk(o, t, d, lo, hi) && Least(o, d) - 1 <= |t.keys| <= Most(o, d)
  }

  lemma GoodIsNode(o: Order, t: Tree, d: nat, lo: Option<int>, hi: Option<int>)
    ensures Good(o, t, d, lo, hi) <==> NodeOk(o, t, d, lo, hi) && Least(o, d) <= |t.keys| <= Most(o, d)
  {
  }

  lemma NodeShaped(o: Order, t: Tree, d: nat, lo: Option<int>, hi: Option<int>)
    requires NodeOk(o, t, d, lo, hi)
    ensures Shaped(t, d)
  {
    if t.Branch? {
      KidsShaped(o, t.keys, t.kids, d - 1, lo, hi);
    }
  }

  /** Children of two neighbouring branch nodes side by side. */
  lemma JoinKids(g: Judgement, lk: seq<int>, lc: seq<Tree>, rk: seq<int>, rc: seq<Tree>, lo: Option<int>, sep: int, hi: Option<int>)
    requires |lc| == |lk| + 1 && |rc| == |rk| + 1
    requires KidsAre(g, lk, lc, lo, Some(sep)) && KidsAre(g, rk, rc, Some(sep), hi)
    ensures KidsAre(g, lk + [sep] + rk, lc + rc, lo, hi)
  {
    var keys, kids := lk + [sep] + rk, lc + rc;
    forall i | 0 <= i < |kids| ensures g(kids[i], KidLo(keys, lo, i), KidHi(keys, hi, i)) {
      if i < |lc| {
        assert g(lc[i], KidLo(lk, lo, i), KidHi(lk, Some(sep), i));
      } else {
        var q := i - |lc|;
        assert g(rc[q], KidLo(rk, Some(sep), q), KidHi(rk, hi, q));
      }
    }
  }

  lemma JoinKeysOk(lk: seq<int>, rk: seq<int>, lo: Option<int>, sep: int, hi: Option<int>)
    requires KeysOk(lk, lo, Some(sep)) && KeysOk(rk, Some(sep), hi) && Above(lo, sep) && Below(sep, hi)
    ensures KeysOk(lk + [sep] + rk, lo, hi)
  {
  }

  lemma JoinLeafOk(lk: seq<int>, lv: seq<int>, rk: seq<int>, rv: seq<int>, lo: Option<int>, sep: int, hi: Option<int>)
    requires LeafOk(lk, lv, lo, Some(sep)) && LeafOk(rk, rv, Some(sep), hi) && Above(lo, sep) && Below(sep, hi)
    ensures LeafOk(lk + rk, lv + rv, lo, hi)
  {
  }

  lemma JoinOk(o: Order, l: Tree, sep: int, r: Tree, d: nat, lo: Option<int>, hi: Option<int>)
    requires NodeOk(o, l, d, lo, Some(sep)) && NodeOk(o, r, d, Some(sep), hi) && Above(lo, sep) && Below(sep, hi)
    ensures SameKind(l, r, d) && Shaped(Join(l, sep, r, d), d)
    ensures NodeOk(o, Join(l, sep, r, d), d, lo, hi)
    ensures Entries(Join(l, sep, r, d), d) == Entries(l, d) + Entries(r, d)
  {
    NodeShaped(o, l, d, lo, Some(sep));
    NodeShaped(o, r, d, Some(sep), hi);
    if l.Leaf? {
      JoinLeafOk(l.keys, l.vals, r.keys, r.vals, lo, sep, hi);
      PairsConcat(l.keys, r.keys, l.vals, r.vals);
    } else {
      JoinKeysOk(l.keys, r.keys, lo, sep, hi);
      JoinKids(GoodAt(o, d - 1), l.keys, l.kids, r.keys, r.kids, lo, sep, hi);
      EntriesConcat(l.kids, r.kids, d - 1);
    }
  }

  /** A cut node: both halves are well formed and hold its entries. */
  ghost predicate PairOk(o: Order, pr: Pair, d: nat, lo: Option<int>, hi: Option<int>, es: seq<Entry>) {
    && Above(lo, pr.sep) && Below(pr.sep, hi)
    && NodeOk(o, pr.l, d, lo, Some(pr.sep)) && NodeOk(o, pr.r, d, Some(pr.sep), hi)
    && Shaped(pr.l, d) && Shaped(pr.r, d) && Entries(pr.l, d) + Entries(pr.r, d) == es
  }

  lemma CutNodeOk(o: Order, t: Tree, d: nat, lo: Option<int>, hi: Option<int>, j: nat)
    requires NodeOk(o, t, d, lo, hi) && Shaped(t, d) && j < |t.keys| && (d == 0 ==> j > 0)
    ensures PairOk(o, CutNode(t, d, j), d, lo, hi, Entries(t, d))
  {
    if t.Leaf? {
      CutLeaf(t.keys, t.vals, lo, hi, j);
    } else {
      CutBranchOk(o, t.keys, t.kids, d - 1, lo, hi, j);
    }
  }

  lemma CutBranchOk(o: Order, keys: seq<int>, kids: seq<Tree>, d: nat, lo: Option<int>, hi: Option<int>, j: nat)
    requires |kids| == |keys| + 1 && KeysOk(keys, lo, hi) && KidsGood(o, keys, kids, d, lo, hi) && AllShaped(kids, d) && j < |keys|
    ensures PairOk(o, Pair(Branch(keys[..j], kids[..j + 1]), keys[j], Branch(keys[j + 1..], kids[j + 1..])), d + 1, lo, hi, AllEntries(kids, d))
  {
    CutKids(o, keys, kids, d, lo, hi, j);
    CutEntries(kids, d, j + 1);
  }

  lemma CutEntries(kids: seq<Tree>, d: nat, j: nat)
    requires AllShaped(kids, d) && j <= |kids|
    ensures AllShaped(kids[..j], d) && AllShaped(kids[j..], d)
    ensures AllEntries(kids[..j], d) + AllEntries(kids[j..], d) == AllEntries(kids, d)
  {
    EntriesConcat(kids[..j], kids[j..], d);
    assert kids[..j] + kids[j..] == kids;
  }

  // ------------------------------------------------------------------ the parent

  /** All children but i and i + 1 have property g. */
  ghost predicate OthersAre(g: Judgement, keys: seq<int>, kids: seq<Tree>, lo: Option<int>, hi: Option<int>, i: nat)
    requires |kids| == |keys| + 1
  {
    forall q :: 0 <= q < |kids| && q != i && q != i + 1 ==> g(kids[q], KidLo(keys, lo, q), KidHi(keys, hi, q))
  }

  lemma SetPairKeeps(g: Judgement, keys: seq<int>, kids: seq<Tree>, lo: Option<int>, hi: Option<int>, i: nat, pr: Pair)
    requires |kids| == |keys| + 1 && i < |keys| && OthersAre(g, keys, kids, lo, hi, i)
    requires g(pr.l, KidLo(keys, lo, i), Some(pr.sep)) && g(pr.r, Some(pr.sep), KidHi(keys, hi, i + 1))
    ensures var t := SetPair(keys, kids, i, pr);
            |t.kids| == |t.keys| + 1 && KidsAre(g, t.keys, t.kids, lo, hi)
  {
    var t := SetPair(keys, kids, i, pr);
    forall q | 0 <= q < |t.kids| ensures g(t.kids[q], KidLo(t.keys, lo, q), KidHi(t.keys, hi, q)) {
    }
  }

  lemma SetMergedKeeps(g: Judgement, keys: seq<int>, kids: seq<Tree>, lo: Option<int>, hi: Option<int>, i: nat, t: Tree)
    requires |kids| == |keys| + 1 && i < |keys| && OthersAre(g, keys, kids, lo, hi, i)
    requires g(t, KidLo(keys, lo, i), KidHi(keys, hi, i + 1))
    ensures var b := SetMerged(keys, kids, i, t);
            |b.kids| == |b.keys| + 1 && KidsAre(g, b.keys, b.kids, lo, hi)
  {
    var b := SetMerged(keys, kids, i, t);
    forall q | 0 <= q < |b.kids| ensures g(b.kids[q], KidLo(b.keys, lo, q), KidHi(b.keys, hi, q)) {
      if q < i {
        assert g(kids[q], KidLo(keys, lo, q), KidHi(keys, hi, q));
      } else if q > i {
        assert g(kids[q + 1], KidLo(keys, lo, q + 1), KidHi(keys, hi, q + 1));
      }
    }
  }

  lemma SetKeyOk(keys: seq<int>, lo: Option<int>, hi: Option<int>, i: nat, sep: int)
    requires KeysOk(keys, lo, hi) && i < |keys| && Above(KidLo(keys, lo, i), sep) && Below(sep, KidHi(keys, hi, i + 1))
    ensures KeysOk(keys[i := sep], lo, hi)
  {
  }

  lemma RemoveKeyOk(keys: seq<int>, lo: Option<int>, hi: Option<int>, i: nat)
    requires KeysOk(keys, lo, hi) && i < |keys|
    ensures KeysOk(RemoveAt(keys, i), lo, hi)
  {
  }

  /** The entries around neighbours i and i + 1. */
  lemma EntriesAroundPair(kids: seq<Tree>, i: nat, d: nat)
    requires AllShaped(kids, d) && i + 1 < |kids|
    ensures AllShaped(kids[..i], d) && AllShaped(kids[i + 2..], d)
    ensures AllEntries(kids, d) ==
            AllEntries(kids[..i], d) + (Entries(kids[i], d) + Entries(kids[i + 1], d)) + AllEntries(kids[i + 2..], d)
  {
    EntriesAround(kids, i, d);
    var rest := kids[i + 1..];
    EntriesAround(rest, 0, d);
    assert rest[0] == kids[i + 1] && rest[..0] == [] && rest[1..] == kids[i + 2..];
  }

  lemma SetPairEntries(keys: seq<int>, kids: seq<Tree>, i: nat, pr: Pair, d: nat)
    requires |kids| == |keys| + 1 && i < |keys| && AllShaped(kids, d) && Shaped(pr.l, d) && Shaped(pr.r, d)
    requires Entries(pr.l, d) + Entries(pr.r, d) == Entries(kids[i], d) + Entries(kids[i + 1], d)
    ensures var t := SetPair(keys, kids, i, pr);
            AllShaped(t.kids, d) && AllEntries(t.kids, d) == AllEntries(kids, d)
  {
    var kids' := SetPair(keys, kids, i, pr).kids;
    EntriesAroundPair(kids, i, d);
    EntriesAroundPair(kids', i, d);
    assert kids'[..i] == kids[..i] && kids'[i + 2..] == kids[i + 2..];
  }

  lemma SetMergedEntries(keys: seq<int>, kids: seq<Tree>, i: nat, t: Tree, d: nat)
    requires |kids| == |keys| + 1 && i < |keys| && AllShaped(kids, d) && Shaped(t, d)
    requires Entries(t, d) == Entries(kids[i], d) + Entries(kids[i + 1], d)
    ensures var b := SetMerged(keys, kids, i, t);
            AllShaped(b.kids, d) && AllEntries(b.kids, d) == AllEntries(kids, d)
  {
    EntriesAroundPair(kids, i, d);
    RemoveSet(kids, i, t);
    EntriesMiddle(kids[..i], t, kids[i + 2..], d);
  }

  lemma RemoveSet<T>(s: seq<T>, i: nat, x: T)
    requires i + 1 < |s|
    ensures RemoveAt(s[i := x], i + 1) == s[..i] + ([x] + s[i + 2..])
  {
  }

  lemma EntriesMiddle(a: seq<Tree>, t: Tree, b: seq<Tree>, d: nat)
    requires AllShaped(a, d) && AllShaped(b, d) && Shaped(t, d)
    ensures AllShaped(a + ([t] + b), d)
    ensures AllEntries(a + ([t] + b), d) == AllEntries(a, d) + Entries(t, d) + AllEntries(b, d)
  {
    OneEntry(t, d);
    EntriesConcat([t], b, d);
    EntriesConcat(a, [t] + b, d);
  }

  /** The children of a node in which only child p may lack a key. */
  ghost predicate KidsLoose(o: Order, keys: seq<int>, kids: seq<Tree>, d: nat, lo: Option<int>, hi: Option<int>, p: nat)
    requires |kids| == |keys| + 1 && p < |kids|
  {
    && (forall q :: 0 <= q < |kids| && q != p ==> Good(o, kids[q], d, KidLo(keys, lo, q), KidHi(keys, hi, q)))
    && Loose(o, kids[p], d, KidLo(keys, lo, p), KidHi(keys, hi, p))
  }

  /** Good children with the given entries, at most one fewer than before. */
  ghost predicate RepairOk(o: Order, b: Tree, d: nat, lo: Option<int>, hi: Option<int>, n: nat, es: seq<Entry>) {
    && b.Branch? && |b.kids| == |b.keys| + 1 && n - 1 <= |b.keys| <= n
    && KeysOk(b.keys, lo, hi) && KidsGood(o, b.keys, b.kids, d, lo, hi)
    && AllShaped(b.kids, d) && AllEntries(b.kids, d) == es
  }

  /** Replacing neighbours by the halves of their cut join. */
  lemma RebalancePairOk(o: Order, keys: seq<int>, kids: seq<Tree>, d: nat, lo: Option<int>, hi: Option<int>, i: nat, pr: Pair)
    requires |kids| == |keys| + 1 && i < |keys| && KeysOk(keys, lo, hi) && AllShaped(kids, d)
    requires OthersAre(GoodAt(o, d), keys, kids, lo, hi, i)
    requires PairOk(o, pr, d, KidLo(keys, lo, i), KidHi(keys, hi, i + 1), Entries(kids[i], d) + Entries(kids[i + 1], d))
    requires Least(o, d) <= |pr.l.keys| <= Most(o, d) && Least(o, d) <= |pr.r.keys| <= Most(o, d)
    ensures RepairOk(o, SetPair(keys, kids, i, pr), d, lo, hi, |keys|, AllEntries(kids, d))
  {
    GoodIsNode(o, pr.l, d, KidLo(keys, lo, i), Some(pr.sep));
    GoodIsNode(o, pr.r, d, Some(pr.sep), KidHi(keys, hi, i + 1));
    SetPairKeeps(GoodAt(o, d), keys, kids, lo, hi, i, pr);
    SetKeyOk(keys, lo, hi, i, pr.sep);
    SetPairEntries(keys, kids, i, pr, d);
  }

  /** Merging neighbours. */
  lemma MergePairOk(o: Order, keys: seq<int>, kids: seq<Tree>, d: nat, lo: Option<int>, hi: Option<int>, i: nat, t: Tree)
    requires |kids| == |keys| + 1 && i < |keys| && KeysOk(keys, lo, hi) && AllShaped(kids, d)
    requires OthersAre(GoodAt(o, d), keys, kids, lo, hi, i)
    requires NodeOk(o, t, d, KidLo(keys, lo, i), KidHi(keys, hi, i + 1)) && Shaped(t, d)
    requires Entries(t, d) == Entries(kids[i], d) + Entries(kids[i + 1], d)
    requires Least(o, d) <= |t.keys| <= Most(o, d)
    ensures RepairOk(o, SetMerged(keys, kids, i, t), d, lo, hi, |keys|, AllEntries(kids, d))
  {
    GoodIsNode(o, t, d, KidLo(keys, lo, i), KidHi(keys, hi, i + 1));
    SetMergedKeeps(GoodAt(o, d), keys, kids, lo, hi, i, t);
    RemoveKeyOk(keys, lo, hi, i);
    SetMergedEntries(keys, kids, i, t, d);
  }

  // ------------------------------------------------------------------- the repair

  /** Half of the keys of an underfull node and a rich neighbour is enough for each. */
  lemma BalancedSizes(o: Order, d: nat, poor: nat, rich: nat)
    requires OrderOk(o) && Least(o, d) - 1 <= poor && rich <= Most(o, d)
    requires var mid := if d == 0 then o.LeafMiddle() else o.BranchMiddle(); poor < mid < rich
    ensures var stay := (poor + rich) / 2;
            0 < Least(o, d) <= stay <= poor + rich - stay <= Most(o, d)
  {
  }

  lemma MergedSizes(o: Order, d: nat, poor: nat, other: nat)
    requires OrderOk(o) && Least(o, d) - 1 <= poor && Least(o, d) <= other
    requires var mid := if d == 0 then o.LeafMiddle() else o.BranchMiddle(); poor < mid && other <= mid
    ensures Least(o, d) <= poor + other + (if d == 0 then 0 else 1) <= Most(o, d)
  {
  }

  /** The two neighbours i and i + 1, one of which is child p. */
  lemma NeighboursOk(o: Order, keys: seq<int>, kids: seq<Tree>, d: nat, lo: Option<int>, hi: Option<int>, p: nat, i: nat)
    requires |kids| == |keys| + 1 && p < |kids| && KeysOk(keys, lo, hi) && KidsLoose(o, keys, kids, d, lo, hi, p)
    requires i < |keys| && (i == p || i + 1 == p)
    ensures OthersAre(GoodAt(o, d), keys, kids, lo, hi, i)
    ensures NodeOk(o, kids[i], d, KidLo(keys, lo, i), Some(keys[i])) && NodeOk(o, kids[i + 1], d, Some(keys[i]), KidHi(keys, hi, i + 1))
    ensures Above(KidLo(keys, lo, i), keys[i]) && Below(keys[i], KidHi(keys, hi, i + 1))
    ensures var other := kids[if i == p then i + 1 else i];
            Least(o, d) <= |other.keys| <= Most(o, d)
  {
    var q := if i == p then i + 1 else i;
    GoodIsNode(o, kids[q], d, KidLo(keys, lo, q), KidHi(keys, hi, q));
  }

  /** Joining two neighbours and cutting them elsewhere. */
  lemma JoinCutOk(o: Order, l: Tree, sep: int, r: Tree, d: nat, lo: Option<int>, hi: Option<int>, j: nat)
    requires NodeOk(o, l, d, lo, Some(sep)) && NodeOk(o, r, d, Some(sep), hi) && Above(lo, sep) && Below(sep, hi)
    requires 0 < j < |l.keys| + |r.keys|
    ensures SameKind(l, r, d) && Shaped(Join(l, sep, r, d), d) && j < |Join(l, sep, r, d).keys|
    ensures PairOk(o, CutNode(Join(l, sep, r, d), d, j), d, lo, hi, Entries(l, d) + Entries(r, d))
  {
    JoinOk(o, l, sep, r, d, lo, hi);
    JoinShaped(l, sep, r, d);
    CutNodeOk(o, Join(l, sep, r, d), d, lo, hi, j);
  }

  lemma CutSizes(t: Tree, d: nat, j: nat)
    requires Shaped(t, d) && j < |t.keys|
    ensures |CutNode(t, d, j).l.keys| == j && |CutNode(t, d, j).r.keys| == |t.keys| - j - (if d == 0 then 0 else 1)
  {
  }

  lemma RepairFromRight(o: Order, keys: seq<int>, kids: seq<Tree>, d: nat, lo: Option<int>, hi: Option<int>, p: nat)
    requires OrderOk(o) && |kids| == |keys| + 1 && p < |keys| && KeysOk(keys, lo, hi) && AllShaped(kids, d)
    requires KidsLoose(o, keys, kids, d, lo, hi, p) && |kids[p].keys| > 0
    requires var mid := if d == 0 then o.LeafMiddle() else o.BranchMiddle(); |kids[p].keys| < mid < |kids[p + 1].keys|
    ensures var pr := BalanceFromRight(kids[p], keys[p], kids[p + 1], d);
            RepairOk(o, SetPair(keys, kids, p, pr), d, lo, hi, |keys|, AllEntries(kids, d))
  {
    NeighboursOk(o, keys, kids, d, lo, hi, p, p);
    var l, r := kids[p], kids[p + 1];
    var j := |l.keys| + |r.keys| - (|l.keys| + |r.keys|) / 2;
    BalancedSizes(o, d, |l.keys|, |r.keys|);
    JoinCutOk(o, l, keys[p], r, d, KidLo(keys, lo, p), KidHi(keys, hi, p + 1), j);
    BalanceRightIsCut(l, keys[p], r, d);
    JoinShaped(l, keys[p], r, d);
    CutSizes(Join(l, keys[p], r, d), d, j);
    RebalancePairOk(o, keys, kids, d, lo, hi, p, BalanceFromRight(l, keys[p], r, d));
  }

  lemma RepairFromLeft(o: Order, keys: seq<int>, kids: seq<Tree>, d: nat, lo: Option<int>, hi: Option<int>, p: nat)
    requires OrderOk(o) && |kids| == |keys| + 1 && 0 < p <= |keys| && KeysOk(keys, lo, hi) && AllShaped(kids, d)
    requires KidsLoose(o, keys, kids, d, lo, hi, p) && |kids[p].keys| > 0
    requires var mid := if d == 0 then o.LeafMiddle() else o.BranchMiddle(); |kids[p].keys| < mid < |kids[p - 1].keys|
    ensures var pr := BalanceFromLeft(kids[p - 1], keys[p - 1], kids[p], d);
            RepairOk(o, SetPair(keys, kids, p - 1, pr), d, lo, hi, |keys|, AllEntries(kids, d))
  {
    var i := p - 1;
    NeighboursOk(o, keys, kids, d, lo, hi, p, i);
    var l, r := kids[i], kids[p];
    var j := (|l.keys| + |r.keys|) / 2;
    BalancedSizes(o, d, |r.keys|, |l.keys|);
    JoinCutOk(o, l, keys[i], r, d, KidLo(keys, lo, i), KidHi(keys, hi, p), j);
    BalanceLeftIsCut(l, keys[i], r, d);
    JoinShaped(l, keys[i], r, d);
    CutSizes(Join(l, keys[i], r, d), d, j);
    RebalancePairOk(o, keys, kids, d, lo, hi, i, BalanceFromLeft(l, keys[i], r, d));
  }

  lemma RepairByMerge(o: Order, keys: seq<int>, kids: seq<Tree>, d: nat, lo: Option<int>, hi: Option<int>, p: nat, i: nat)
    requires OrderOk(o) && |kids| == |keys| + 1 && p < |kids| && KeysOk(keys, lo, hi) && AllShaped(kids, d)
    requires KidsLoose(o, keys, kids, d, lo, hi, p) && i < |keys| && (i == p || i + 1 == p)
    requires var mid := if d == 0 then o.LeafMiddle() else o.BranchMiddle();
             |kids[p].keys| < mid && |kids[if i == p then i + 1 else i].keys| <= mid
    ensures RepairOk(o, SetMerged(keys, kids, i, Join(kids[i], keys[i], kids[i + 1], d)), d, lo, hi, |keys|, AllEntries(kids, d))
  {
    NeighboursOk(o, keys, kids, d, lo, hi, p, i);
    JoinOk(o, kids[i], keys[i], kids[i + 1], d, KidLo(keys, lo, i), KidHi(keys, hi, i + 1));
    JoinShaped(kids[i], keys[i], kids[i + 1], d);
    MergedSizes(o, d, |kids[p].keys|, |kids[if i == p then i + 1 else i].keys|);
    MergePairOk(o, keys, kids, d, lo, hi, i, Join(kids[i], keys[i], kids[i + 1], d));
  }

  /** Whatever underflow handling does, the node ends up with good children that
      hold the same entries, and loses at most one key. */
  lemma RepairKeeps(o: Order, keys: seq<int>, kids: seq<Tree>, d: nat, lo: Option<int>, hi: Option<int>, p: nat)
    requires OrderOk(o) && |kids| == |keys| + 1 && 0 < |keys| && p < |kids| && KeysOk(keys, lo, hi)
    requires AllShaped(kids, d) && KidsLoose(o, keys, kids, d, lo, hi, p) && |kids[p].keys| > 0
    ensures RepairOk(o, Repair(o, keys, kids, p, d), d, lo, hi, |keys|, AllEntries(kids, d))
  {
    var mid := if d == 0 then o.LeafMiddle() else o.BranchMiddle();
    if |kids[p].keys| >= mid {
      GoodIsNode(o, kids[p], d, KidLo(keys, lo, p), KidHi(keys, hi, p));
    } else if p > 0 && |kids[p - 1].keys| > mid {
      RepairFromLeft(o, keys, kids, d, lo, hi, p);
    } else if p < |keys| && |kids[p + 1].keys| > mid {
      RepairFromRight(o, keys, kids, d, lo, hi, p);
    } else {
      RepairByMerge(o, keys, kids, d, lo, hi, p, if p > 0 then p - 1 else p);
    }
  }

  // ------------------------------------------------------------------ the erasure

  /** `eraseFromBranchNode` and `eraseFromLeafNode`. */
  function Erase(o: Order, t: Tree, d: nat, k: int): Tree
    requires Shaped(t, d)
    decreases d
  {
    match t
    case Leaf(keys, vals) => EraseLeaf(keys, vals, k)
    case Branch(keys, kids) =>
      var p := UpperBound(keys, k);
      AfterErase(o, keys, kids, p, d - 1, Erase(o, kids[p], d - 1, k))
  }

  /** What the parent makes of child p after the erasure in it. */
  function AfterErase(o: Order, keys: seq<int>, kids: seq<Tree>, p: nat, d: nat, c: Tree): Tree
    requires |kids| == |keys| + 1 && p < |kids| && AllShaped(kids, d)
  {
    var kids' := kids[p := c];
    if keys == [] || !Shaped(c, d) || |c.keys| == 0 then Branch(keys, kids') else Repair(o, keys, kids', p, d)
  }

  /** A root left without keys is replaced by its only child. */
  function Collapse(b: Tree, d: nat): (Tree, nat) {
    if b.Branch? && b.keys == [] && |b.kids| == 1 && d > 0 then (b.kids[0], d - 1) else (b, d)
  }

  /** `erase` */
  function EraseRoot(o: Order, t: Tree, d: nat, k: int): (Tree, nat)
    requires Shaped(t, d)
  {
    Collapse(Erase(o, t, d, k), d)
  }

  lemma PairsRemoved(keys: seq<int>, vals: seq<int>, p: nat)
    requires |keys| == |vals| && 0 < p < |keys|
    ensures Pairs(RemoveAt(keys, p), RemoveAt(vals, p)) ==
            [(keys[0], vals[0])] + Pairs(RemoveAt(keys[1..], p - 1), RemoveAt(vals[1..], p - 1))
  {
    assert RemoveAt(keys, p) == [keys[0]] + RemoveAt(keys[1..], p - 1);
    assert RemoveAt(vals, p) == [vals[0]] + RemoveAt(vals[1..], p - 1);
  }

  lemma {:induction false} DropPairs(keys: seq<int>, vals: seq<int>, k: int)
    requires |keys| == |vals| && Sorted(keys)
    ensures var t := EraseLeaf(keys, vals, k);
            Drop(Pairs(keys, vals), k) == Pairs(t.keys, t.vals)
  {
    if keys != [] {
      var es := Pairs(keys, vals);
      assert es[1..] == Pairs(keys[1..], vals[1..]);
      if k < keys[0] {
        DropAbsent(es, k);
      } else if k > keys[0] {
        DropPairs(keys[1..], vals[1..], k);
        var p := LowerBound(keys, k);
        if p < |keys| && keys[p] == k {
          PairsRemoved(keys, vals, p);
        }
      }
    }
  }

  lemma EraseLeafOk(o: Order, keys: seq<int>, vals: seq<int>, lo: Option<int>, hi: Option<int>, k: int)
    requires LeafOk(keys, vals, lo, hi) && |keys| <= o.m
    ensures var t := EraseLeaf(keys, vals, k);
            && LeafOk(t.keys, t.vals, lo, hi) && |keys| - 1 <= |t.keys| <= |keys|
            && Pairs(t.keys, t.vals) == Drop(Pairs(keys, vals), k)
  {
    DropPairs(keys, vals, k);
  }

  /** A loose subtree of height d inside [lo, hi) with exactly the entries es. */
  ghost predicate ErasedOk(o: Order, t: Tree, d: nat, lo: Option<int>, hi: Option<int>, es: seq<Entry>) {
    Loose(o, t, d, lo, hi) && Shaped(t, d) && Entries(t, d) == es
  }

  /** The step from child p to its parent. */
  lemma AfterEraseOk(o: Order, keys: seq<int>, kids: seq<Tree>, d: nat, lo: Option<int>, hi: Option<int>, k: int, p: nat, c: Tree)
    requires OrderOk(o) && |kids| == |keys| + 1 && 0 < |keys| && KeysOk(keys, lo, hi) && KidsGood(o, keys, kids, d, lo, hi)
    requires AtLeast(lo, k) && Below(k, hi) && p == UpperBound(keys, k)
    requires Shaped(kids[p], d) && ErasedOk(o, c, d, KidLo(keys, lo, p), KidHi(keys, hi, p), Drop(Entries(kids[p], d), k))
    ensures AllShaped(kids, d)
    ensures RepairOk(o, AfterErase(o, keys, kids, p, d, c), d, lo, hi, |keys|, Drop(AllEntries(kids, d), k))
  {
    Focus(o, keys, kids, d, lo, hi, k);
    DropAround(AllEntries(kids[..p], d), Entries(kids[p], d), AllEntries(kids[p + 1..], d), k);
    SetKidEntries(kids, d, p, c);
    var kids' := kids[p := c];
    assert KidsLoose(o, keys, kids', d, lo, hi, p);
    RepairKeeps(o, keys, kids', d, lo, hi, p);
  }

  /** Erasing from a good subtree leaves a subtree that lacks at most one key and
      holds its entries without k. */
  lemma {:induction false} EraseOk(o: Order, t: Tree, d: nat, lo: Option<int>, hi: Option<int>, k: int)
    requires OrderOk(o) && Good(o, t, d, lo, hi) && AtLeast(lo, k) && Below(k, hi)
    ensures Shaped(t, d) && ErasedOk(o, Erase(o, t, d, k), d, lo, hi, Drop(Entries(t, d), k))
    decreases d, 0
  {
    GoodShaped(o, t, d, lo, hi);
    match t
    case Leaf(keys, vals) => EraseLeafOk(o, keys, vals, lo, hi, k);
    case Branch(keys, kids) => EraseInnerOk(o, keys, kids, d - 1, lo, hi, k);
  }

  lemma {:induction false} EraseInnerOk(o: Order, keys: seq<int>, kids: seq<Tree>, d: nat, lo: Option<int>, hi: Option<int>, k: int)
    requires OrderOk(o) && |kids| == |keys| + 1 && KeysOk(keys, lo, hi) && KidsGood(o, keys, kids, d, lo, hi)
    requires AtLeast(lo, k) && Below(k, hi) && o.half - 1 <= |keys| <= o.n()
    ensures AllShaped(kids, d)
    ensures var p := UpperBound(keys, k);
            ErasedOk(o, AfterErase(o, keys, kids, p, d, Erase(o, kids[p], d, k)), d + 1, lo, hi, Drop(AllEntries(kids, d), k))
    decreases d, 2
  {
    var p := UpperBound(keys, k);
    EraseBranchOk(o, keys, kids, d, lo, hi, k);
    RepairIsErased(o, AfterErase(o, keys, kids, p, d, Erase(o, kids[p], d, k)), d, lo, hi, |keys|, Drop(AllEntries(kids, d), k));
  }

  lemma RepairIsErased(o: Order, b: Tree, d: nat, lo: Option<int>, hi: Option<int>, n: nat, es: seq<Entry>)
    requires RepairOk(o, b, d, lo, hi, n, es) && o.half - 1 <= n <= o.n()
    ensures ErasedOk(o, b, d + 1, lo, hi, es)
  {
  }

  lemma {:induction false} EraseBranchOk(o: Order, keys: seq<int>, kids: seq<Tree>, d: nat, lo: Option<int>, hi: Option<int>, k: int)
    requires OrderOk(o) && |kids| == |keys| + 1 && 0 < |keys| && KeysOk(keys, lo, hi) && KidsGood(o, keys, kids, d, lo, hi)
    requires AtLeast(lo, k) && Below(k, hi)
    ensures AllShaped(kids, d)
    ensures var p := UpperBound(keys, k);
            RepairOk(o, AfterErase(o, keys, kids, p, d, Erase(o, kids[p], d, k)), d, lo, hi, |keys|, Drop(AllEntries(kids, d), k))
    decreases d, 1
  {
    var p := UpperBound(keys, k);
    ChildGood(o, keys, kids, d, lo, hi, k);
    EraseOk(o, kids[p], d, KidLo(keys, lo, p), KidHi(keys, hi, p), k);
    AfterEraseOk(o, keys, kids, d, lo, hi, k, p, Erase(o, kids[p], d, k));
  }

  /** Erasing from the whole tree keeps it well formed and removes the key. */
  lemma EraseRootOk(o: Order, t: Tree, d: nat, k: int)
    requires OrderOk(o) && RootOk(o, t, d)
    ensures Shaped(t, d)
    ensures var (t', d') := EraseRoot(o, t, d, k);
            RootOk(o, t', d') && Shaped(t', d') && Entries(t', d') == Drop(Entries(t, d), k)
  {
    RootShaped(o, t, d);
    match t
    case Leaf(keys, vals) => EraseLeafOk(o, keys, vals, None, None, k);
    case Branch(keys, kids) => EraseRootBranchOk(o, keys, kids, d - 1, k);
  }

  lemma EraseRootBranchOk(o: Order, keys: seq<int>, kids: seq<Tree>, d: nat, k: int)
    requires OrderOk(o) && |kids| == |keys| + 1 && KeysOk(keys, None, None) && 1 <= |keys| <= o.n()
    requires KidsGood(o, keys, kids, d, None, None)
    ensures AllShaped(kids, d)
    ensures var p := UpperBound(keys, k);
            var (t', d') := Collapse(AfterErase(o, keys, kids, p, d, Erase(o, kids[p], d, k)), d + 1);
            RootOk(o, t', d') && Shaped(t', d') && Entries(t', d') == Drop(AllEntries(kids, d), k)
  {
    var p := UpperBound(keys, k);
    EraseBranchOk(o, keys, kids, d, None, None, k);
    CollapseOk(o, AfterErase(o, keys, kids, p, d, Erase(o, kids[p], d, k)), d, |keys|, Drop(AllEntries(kids, d), k));
  }

  /** A repaired root is well formed, or its only child is. */
  lemma CollapseOk(o: Order, b: Tree, d: nat, n: nat, es: seq<Entry>)
    requires OrderOk(o) && RepairOk(o, b, d, None, None, n, es) && 1 <= n <= o.n()
    ensures var (t', d') := Collapse(b, d + 1);
            RootOk(o, t', d') && Shaped(t', d') && Entries(t', d') == es
  {
    if b.keys == [] {
      assert Good(o, b.kids[0], d, None, None);
      GoodIsRoot(o, b.kids[0], d);
      OneEntry(b.kids[0], d);
      assert b.kids == [b.kids[0]];
    } else {
      RootBranchOk(o, b.keys, b.kids, d);
    }
  }
}
