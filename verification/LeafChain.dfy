/** The doubly linked list of leaves: `next` and `prev` hold the links that are not null. */
module LeafChain {

  ghost predicate Distinct(chain: seq<nat>) {
    forall i, j :: 0 <= i < j < |chain| ==> chain[i] != chain[j]
  }

  ghost predicate Misses(chain: seq<nat>, y: nat) {
    forall i :: 0 <= i < |chain| ==> chain[i] != y
  }

  ghost predicate Linked(next: map<nat, nat>, prev: map<nat, nat>, chain: seq<nat>) {
    && (forall i :: 0 <= i < |chain| - 1 ==> chain[i] in next && next[chain[i]] == chain[i + 1])
    && (forall i :: 1 <= i < |chain| ==> chain[i] in prev && prev[chain[i]] == chain[i - 1])
    && (|chain| > 0 ==> chain[|chain| - 1] !in next && chain[0] !in prev)
  }

  /** The links thread exactly the leaves of `chain`, in that order. Addresses from
      `top` on are unused. */
  ghost predicate Threaded(next: map<nat, nat>, prev: map<nat, nat>, top: nat, chain: seq<nat>) {
    && Distinct(chain) && Linked(next, prev, chain)
    && (forall i :: 0 <= i < |chain| ==> chain[i] < top)
    && (forall x :: x in next || x in prev ==> x < top)
  }

  /** Leaf i of the chain and its links. */
  ghost predicate Fits(next: map<nat, nat>, prev: map<nat, nat>, top: nat, chain: seq<nat>, i: nat)
    requires i < |chain|
  {
    && chain[i] < top && chain[i] !in chain[..i]
    && (if i + 1 < |chain| then chain[i] in next && next[chain[i]] == chain[i + 1] else chain[i] !in next)
    && (if i > 0 then chain[i] in prev && prev[chain[i]] == chain[i - 1] else chain[i] !in prev)
  }

  ghost predicate LinksUpTo(next: map<nat, nat>, prev: map<nat, nat>, top: nat, chain: seq<nat>, n: nat)
    requires n <= |chain|
  {
    if n == 0 then forall x :: x in next || x in prev ==> x < top
    else LinksUpTo(next, prev, top, chain, n - 1) && Fits(next, prev, top, chain, n - 1)
  }

  /** The same as `Threaded`, leaf by leaf. */
  ghost predicate Links(next: map<nat, nat>, prev: map<nat, nat>, top: nat, chain: seq<nat>) {
    LinksUpTo(next, prev, top, chain, |chain|)
  }

  lemma {:induction false} FitsAll(next: map<nat, nat>, prev: map<nat, nat>, top: nat, chain: seq<nat>, n: nat)
    requires n <= |chain|
    ensures LinksUpTo(next, prev, top, chain, n) <==>
            (forall x :: x in next || x in prev ==> x < top) && forall i :: 0 <= i < n ==> Fits(next, prev, top, chain, i)
  {
    if n > 0 {
      FitsAll(next, prev, top, chain, n - 1);
    }
  }

  lemma LinksThreaded(next: map<nat, nat>, prev: map<nat, nat>, top: nat, chain: seq<nat>)
    requires Links(next, prev, top, chain)
    ensures Threaded(next, prev, top, chain)
  {
    FitsAll(next, prev, top, chain, |chain|);
    forall i, j | 0 <= i < j < |chain| ensures chain[i] != chain[j] {
      assert Fits(next, prev, top, chain, j);
      assert chain[..j][i] == chain[i];
    }
    forall i | 0 <= i < |chain| ensures chain[i] < top {
      assert Fits(next, prev, top, chain, i);
    }
    forall i | 0 <= i < |chain| - 1 ensures chain[i] in next && next[chain[i]] == chain[i + 1] {
      assert Fits(next, prev, top, chain, i);
    }
    forall i | 1 <= i < |chain| ensures chain[i] in prev && prev[chain[i]] == chain[i - 1] {
      assert Fits(next, prev, top, chain, i);
    }
    if chain != [] {
      assert Fits(next, prev, top, chain, 0) && Fits(next, prev, top, chain, |chain| - 1);
    }
  }

  lemma ThreadedLinks(next: map<nat, nat>, prev: map<nat, nat>, top: nat, chain: seq<nat>)
    requires Threaded(next, prev, top, chain)
    ensures Links(next, prev, top, chain)
  {
    FitsAll(next, prev, top, chain, |chain|);
    forall i | 0 <= i < |chain| ensures Fits(next, prev, top, chain, i) {
    }
  }

  function Unlink(m: map<nat, nat>, x: nat): map<nat, nat> {
    map y | y in m && y != x :: m[y]
  }

  // ------------------------------------------------------------- splitting a leaf

  /** `next` after leaf x got the new right neighbour y. */
  function NextSplit(next: map<nat, nat>, x: nat, y: nat): map<nat, nat> {
    if x in next then next[y := next[x]][x := y] else next[x := y]
  }

  function PrevSplit(next: map<nat, nat>, prev: map<nat, nat>, x: nat, y: nat): map<nat, nat> {
    if x in next then prev[next[x] := y][y := x] else prev[y := x]
  }

  /** chain' is chain with y inserted after position p. */
  ghost predicate Inserted(chain: seq<nat>, chain': seq<nat>, p: nat, y: nat)
    requires p < |chain| && |chain'| == |chain| + 1
  {
    && (forall i :: 0 <= i <= p ==> chain'[i] == chain[i])
    && chain'[p + 1] == y
    && (forall i :: p + 1 < i < |chain'| ==> chain'[i] == chain[i - 1])
  }

  lemma SplitDistinct(chain: seq<nat>, chain': seq<nat>, p: nat, y: nat)
    requires p < |chain| && |chain'| == |chain| + 1 && Distinct(chain) && Misses(chain, y)
    requires Inserted(chain, chain', p, y)
    ensures Distinct(chain')
  {
  }

  lemma SplitLinked(next: map<nat, nat>, prev: map<nat, nat>, chain: seq<nat>, chain': seq<nat>, p: nat, y: nat)
    requires p < |chain| && |chain'| == |chain| + 1 && Distinct(chain) && Misses(chain, y)
    requires y !in next && y !in prev && Linked(next, prev, chain)
    requires Inserted(chain, chain', p, y)
    ensures Linked(NextSplit(next, chain[p], y), PrevSplit(next, prev, chain[p], y), chain')
  {
    var next', prev' := NextSplit(next, chain[p], y), PrevSplit(next, prev, chain[p], y);
    forall i | 0 <= i < |chain'| - 1 ensures chain'[i] in next' && next'[chain'[i]] == chain'[i + 1] {
      if i < p {
        assert chain[i] != chain[p];
      } else if i > p + 1 {
        assert chain[i - 1] != chain[p];
      }
    }
    forall i | 1 <= i < |chain'| ensures chain'[i] in prev' && prev'[chain'[i]] == chain'[i - 1] {
      if i <= p {
        assert chain[p] in next ==> next[chain[p]] == chain[p + 1] && chain[i] != chain[p + 1];
      } else if i > p + 2 {
        assert chain[i - 1] != chain[p + 1];
      }
    }
    assert chain[p] in next ==> next[chain[p]] == chain[p + 1] && chain[0] != chain[p + 1];
    assert chain'[|chain'| - 1] == if p + 1 == |chain| then y else chain[|chain| - 1];
  }

  lemma SplitKeepsThread(next: map<nat, nat>, prev: map<nat, nat>, top: nat, pre: seq<nat>, x: nat, post: seq<nat>)
    requires Threaded(next, prev, top, pre + [x] + post)
    ensures Threaded(NextSplit(next, x, top), PrevSplit(next, prev, x, top), top + 1, pre + [x, top] + post)
  {
    var chain, chain' := pre + [x] + post, pre + [x, top] + post;
    assert Inserted(chain, chain', |pre|, top);
    SplitDistinct(chain, chain', |pre|, top);
    SplitLinked(next, prev, chain, chain', |pre|, top);
    assert chain[|pre|] == x;
    assert x in next ==> |pre| + 1 < |chain| && next[x] == chain[|pre| + 1];
  }

  // -------------------------------------------------------------- merging leaves

  /** `next` after leaf x swallowed its right neighbour y, which is freed. */
  function NextMerge(next: map<nat, nat>, x: nat, y: nat): map<nat, nat> {
    Unlink(if y in next then next[x := next[y]] else Unlink(next, x), y)
  }

  function PrevMerge(next: map<nat, nat>, prev: map<nat, nat>, x: nat, y: nat): map<nat, nat> {
    Unlink(if y in next then prev[next[y] := x] else prev, y)
  }

  lemma MergeAt(pre: seq<nat>, x: nat, y: nat, post: seq<nat>, i: nat)
    requires i < |pre| + 1 + |post|
    ensures (pre + [x] + post)[i] == (pre + [x, y] + post)[if i <= |pre| then i else i + 1]
  {
  }

  lemma MergeLinked(next: map<nat, nat>, prev: map<nat, nat>, chain: seq<nat>, chain': seq<nat>, p: nat)
    requires p + 1 < |chain| && |chain'| == |chain| - 1 && Distinct(chain) && Linked(next, prev, chain)
    requires forall i :: 0 <= i < |chain'| ==> chain'[i] == chain[if i <= p then i else i + 1]
    ensures Linked(NextMerge(next, chain[p], chain[p + 1]), PrevMerge(next, prev, chain[p], chain[p + 1]), chain')
  {
    var x, y := chain[p], chain[p + 1];
    var next', prev' := NextMerge(next, x, y), PrevMerge(next, prev, x, y);
    forall i | 0 <= i < |chain'| - 1 ensures chain'[i] in next' && next'[chain'[i]] == chain'[i + 1] {
      if i < p {
        assert chain[i] != x && chain[i] != y;
      } else if i > p {
        assert chain[i + 1] != x && chain[i + 1] != y;
      }
    }
    forall i | 1 <= i < |chain'| ensures chain'[i] in prev' && prev'[chain'[i]] == chain'[i - 1] {
      if i <= p {
        assert chain[i] != y;
        assert y in next ==> next[y] == chain[p + 2] && chain[i] != chain[p + 2];
      } else if i > p + 1 {
        assert chain[i + 1] != chain[p + 2] && chain[i + 1] != y;
      }
    }
    assert chain[0] != y;
    assert y in next ==> next[y] == chain[p + 2] && chain[0] != chain[p + 2];
  }

  lemma MergeKeepsThread(next: map<nat, nat>, prev: map<nat, nat>, top: nat, pre: seq<nat>, x: nat, y: nat, post: seq<nat>)
    requires Threaded(next, prev, top, pre + [x, y] + post)
    ensures Threaded(NextMerge(next, x, y), PrevMerge(next, prev, x, y), top, pre + [x] + post)
  {
    var chain, chain' := pre + [x, y] + post, pre + [x] + post;
    forall i | 0 <= i < |chain'| ensures chain'[i] == chain[if i <= |pre| then i else i + 1] {
      MergeAt(pre, x, y, post, i);
    }
    assert chain[|pre|] == x && chain[|pre| + 1] == y;
    MergeLinked(next, prev, chain, chain', |pre|);
    assert y in next ==> |pre| + 2 < |chain| && next[y] == chain[|pre| + 2];
  }

  lemma SplitKeepsLinks(next: map<nat, nat>, prev: map<nat, nat>, top: nat, pre: seq<nat>, x: nat, post: seq<nat>)
    requires Links(next, prev, top, pre + [x] + post)
    ensures Links(NextSplit(next, x, top), PrevSplit(next, prev, x, top), top + 1, pre + [x, top] + post)
  {
    LinksThreaded(next, prev, top, pre + [x] + post);
    SplitKeepsThread(next, prev, top, pre, x, post);
    ThreadedLinks(NextSplit(next, x, top), PrevSplit(next, prev, x, top), top + 1, pre + [x, top] + post);
  }

  lemma MergeKeepsLinks(next: map<nat, nat>, prev: map<nat, nat>, top: nat, pre: seq<nat>, x: nat, y: nat, post: seq<nat>)
    requires Links(next, prev, top, pre + [x, y] + post)
    ensures Links(NextMerge(next, x, y), PrevMerge(next, prev, x, y), top, pre + [x] + post)
  {
    LinksThreaded(next, prev, top, pre + [x, y] + post);
    MergeKeepsThread(next, prev, top, pre, x, y, post);
    ThreadedLinks(NextMerge(next, x, y), PrevMerge(next, prev, x, y), top, pre + [x] + post);
  }

  /** The links between neighbours. */
  lemma Neighbours(next: map<nat, nat>, prev: map<nat, nat>, top: nat, pre: seq<nat>, x: nat, y: nat, post: seq<nat>)
    requires Links(next, prev, top, pre + [x, y] + post)
    ensures x in next && next[x] == y && y in prev && prev[y] == x
  {
    var chain := pre + [x, y] + post;
    LinksThreaded(next, prev, top, chain);
    assert chain[|pre|] == x && chain[|pre| + 1] == y;
  }

  lemma LinksUp(next: map<nat, nat>, prev: map<nat, nat>, top: nat, top': nat, chain: seq<nat>)
    requires Links(next, prev, top, chain) && top <= top'
    ensures Links(next, prev, top', chain)
  {
    LinksThreaded(next, prev, top, chain);
    ThreadedLinks(next, prev, top', chain);
  }
}
