/** Selection by rank with the median of medians, and the split of a full leaf. */
module FpSelect {

  // ------------------------------------------------------------------------------- ranks

  /** How many elements are below x, and how many are not above it. */
  function Less(s: seq<int>, x: int): nat {
    if s == [] then 0 else (if s[0] < x then 1 else 0) + Less(s[1..], x)
  }

  function AtMost(s: seq<int>, x: int): nat {
    if s == [] then 0 else (if s[0] <= x then 1 else 0) + AtMost(s[1..], x)
  }

  /** x is the k-th smallest element of s. */
  ghost predicate HasRank(s: seq<int>, k: nat, x: int) {
    x in s && Less(s, x) < k <= AtMost(s, x)
  }

  lemma {:induction false} RankConcat(a: seq<int>, b: seq<int>, x: int)
    ensures Less(a + b, x) == Less(a, x) + Less(b, x) && AtMost(a + b, x) == AtMost(a, x) + AtMost(b, x)
  {
    if a == [] {
      assert a + b == b;
    } else {
      RankConcat(a[1..], b, x);
      assert (a + b)[1..] == a[1..] + b;
    }
  }

  lemma {:induction false} AllAtMost(s: seq<int>, x: int)
    requires forall i :: 0 <= i < |s| ==> s[i] <= x
    ensures AtMost(s, x) == |s| && Less(s, x) <= |s|
  {
    if s != [] {
      AllAtMost(s[1..], x);
    }
  }

  lemma {:induction false} AllAbove(s: seq<int>, x: int)
    requires forall i :: 0 <= i < |s| ==> s[i] > x
    ensures AtMost(s, x) == 0 && Less(s, x) == 0
  {
    if s != [] {
      AllAbove(s[1..], x);
    }
  }

  lemma {:induction false} NoneLess(s: seq<int>, x: int)
    requires forall i :: 0 <= i < |s| ==> s[i] >= x
    ensures Less(s, x) == 0
  {
    if s != [] {
      NoneLess(s[1..], x);
    }
  }

  lemma {:induction false} AllLess(s: seq<int>, x: int)
    requires forall i :: 0 <= i < |s| ==> s[i] < x
    ensures Less(s, x) == |s| && AtMost(s, x) == |s|
  {
    if s != [] {
      AllLess(s[1..], x);
    }
  }

  /** Ranks do not depend on the order. */
  lemma {:induction false} RankPermuted(s: seq<int>, t: seq<int>, x: int)
    requires multiset(s) == multiset(t)
    ensures Less(s, x) == Less(t, x) && AtMost(s, x) == AtMost(t, x)
  {
    if s == [] {
      assert |multiset(t)| == 0;
    } else {
      assert s[0] in multiset(t);
      var j :| 0 <= j < |t| && t[j] == s[0];
      var a, b := t[..j], t[j + 1..];
      DropSame(s, t, j);
      RankPermuted(s[1..], a + b, x);
      RankConcat(a, b, x);
      RankConcat(a, [t[j]] + b, x);
      assert ([t[j]] + b)[1..] == b && t == a + ([t[j]] + b);
    }
  }

  lemma DropSame(s: seq<int>, t: seq<int>, j: nat)
    requires s != [] && j < |t| && t[j] == s[0] && multiset(s) == multiset(t)
    ensures multiset(s[1..]) == multiset(t[..j] + t[j + 1..])
  {
    assert s == [s[0]] + s[1..];
    assert t == t[..j] + [t[j]] + t[j + 1..];
    assert multiset(s) == multiset{s[0]} + multiset(s[1..]);
    assert multiset(t) == multiset(t[..j]) + multiset{t[j]} + multiset(t[j + 1..]);
    assert multiset(t[..j] + t[j + 1..]) == multiset(t[..j]) + multiset(t[j + 1..]);
    assert multiset(s[1..]) == multiset(s) - multiset{s[0]};
  }

  // -------------------------------------------------------------------- changes of a range

  datatype Clause = InsideClause | OutsideClause

  ghost predicate PermutedIn(c: Clause, s: seq<int>, t: seq<int>, lo: nat, hi: nat) {
    && lo <= hi <= |s| == |t|
    && match c
       case InsideClause => multiset(s[lo..hi]) == multiset(t[lo..hi])
       case OutsideClause => s[..lo] == t[..lo] && s[hi..] == t[hi..]
  }

  /** Between s and t only the range from lo to hi differs, and there by a permutation. */
  ghost predicate Permuted(s: seq<int>, t: seq<int>, lo: nat, hi: nat) {
    forall c :: PermutedIn(c, s, t, lo, hi)
  }

  lemma Clauses(s: seq<int>, t: seq<int>, lo: nat, hi: nat)
    requires Permuted(s, t, lo, hi)
    ensures lo <= hi <= |s| == |t| && multiset(s[lo..hi]) == multiset(t[lo..hi]) && s[..lo] == t[..lo] && s[hi..] == t[hi..]
  {
    assert PermutedIn(InsideClause, s, t, lo, hi) && PermutedIn(OutsideClause, s, t, lo, hi);
  }

  lemma PermutedWider(s: seq<int>, t: seq<int>, lo: nat, hi: nat, lo': nat, hi': nat)
    requires Permuted(s, t, lo, hi) && lo' <= lo && hi <= hi' <= |s|
    ensures Permuted(s, t, lo', hi')
  {
    Clauses(s, t, lo, hi);
    assert s[lo'..hi'] == s[..lo][lo'..] + s[lo..hi] + s[hi..][..hi' - hi];
    assert t[lo'..hi'] == t[..lo][lo'..] + t[lo..hi] + t[hi..][..hi' - hi];
    assert s[..lo'] == s[..lo][..lo'] && t[..lo'] == t[..lo][..lo'];
    assert s[hi'..] == s[hi..][hi' - hi..] && t[hi'..] == t[hi..][hi' - hi..];
  }

  lemma PermutedTwice(s: seq<int>, t: seq<int>, u: seq<int>, lo: nat, hi: nat)
    requires Permuted(s, t, lo, hi) && Permuted(t, u, lo, hi)
    ensures Permuted(s, u, lo, hi)
  {
    Clauses(s, t, lo, hi);
    Clauses(t, u, lo, hi);
  }

  lemma Unpermuted(s: seq<int>, lo: nat, hi: nat)
    requires lo <= hi <= |s|
    ensures Permuted(s, s, lo, hi)
  {
  }

  /** A swap within the range from lo to hi. */
  method Swap(a: array<int>, i: nat, j: nat, ghost lo: nat, ghost hi: nat)
    requires lo <= i < hi <= a.Length && lo <= j < hi
    modifies a
    ensures a[..] == old(a[..])[i := old(a[j])][j := old(a[i])] && Permuted(old(a[..]), a[..], lo, hi)
  {
    ghost var s := a[..];
    a[i], a[j] := a[j], a[i];
    SwapPermutes(s, a[..], i, j, lo, hi);
  }

  lemma SwapPermutes(s: seq<int>, t: seq<int>, i: nat, j: nat, lo: nat, hi: nat)
    requires lo <= i < hi <= |s| && lo <= j < hi && t == s[i := s[j]][j := s[i]]
    ensures Permuted(s, t, lo, hi)
  {
    var a, b := i - lo, j - lo;
    var r := s[lo..hi];
    assert t[lo..hi] == r[a := r[b]][b := r[a]];
  }

  // ---------------------------------------------------------------------------- partition

  /** All elements of the range from lo to hi are at most x, or above it. */
  ghost predicate UpTo(s: seq<int>, lo: nat, hi: nat, x: int) {
    hi <= |s| && forall i :: lo <= i < hi ==> s[i] <= x
  }

  ghost predicate Beyond(s: seq<int>, lo: nat, hi: nat, x: int) {
    hi <= |s| && forall i :: lo <= i < hi ==> s[i] > x
  }

  /** A range split at pos into elements up to s[pos] and elements above it. */
  ghost predicate SplitAt(s: seq<int>, start: nat, pos: nat, end: nat) {
    start <= pos <= end < |s| && UpTo(s, start, pos, s[pos]) && Beyond(s, pos + 1, end + 1, s[pos])
  }

  /** `partition` of the range from start to end around its element x. */
  method Partition(a: array<int>, start: nat, end: nat, x: int) returns (pos: nat)
    requires start <= end < a.Length && x in a[..][start..end + 1]
    modifies a
    ensures Permuted(old(a[..]), a[..], start, end + 1) && SplitAt(a[..], start, pos, end) && a[pos] == x
  {
    ghost var s := a[..];
    var i := FindElement(a, start, end, x);
    Swap(a, i, end, start, end + 1);
    ghost var t := a[..];
    i := MoveSmaller(a, start, end, x);
    ghost var u := a[..];
    PermutedTwice(s, t, u, start, end + 1);
    Swap(a, i, end, start, end + 1);
    PermutedTwice(s, u, a[..], start, end + 1);
    pos := i;
  }

  method FindElement(a: array<int>, start: nat, end: nat, x: int) returns (i: nat)
    requires start <= end < a.Length && x in a[..][start..end + 1]
    ensures start <= i <= end && a[i] == x
  {
    ghost var k :| 0 <= k < end + 1 - start && a[..][start..end + 1][k] == x;
    i := start;
    while i < end && a[i] != x
      invariant start <= i <= start + k
    {
      i := i + 1;
    }
  }

  lemma SwapKeepsSplit(t: seq<int>, u: seq<int>, start: nat, i: nat, j: nat, x: int)
    requires start <= i <= j < |t| && u == t[i := t[j]][j := t[i]] && UpTo(t, start, i, x) && Beyond(t, i, j, x) && t[j] <= x
    ensures UpTo(u, start, i + 1, x) && Beyond(u, i + 1, j + 1, x)
  {
  }

  /** The elements up to x before the others, except for the last one. */
  method MoveSmaller(a: array<int>, start: nat, end: nat, x: int) returns (i: nat)
    requires start <= end < a.Length
    modifies a
    ensures Permuted(old(a[..]), a[..], start, end + 1) && a[end] == old(a[end]) && start <= i <= end
    ensures UpTo(a[..], start, i, x) && Beyond(a[..], i, end, x)
  {
    ghost var s := a[..];
    Unpermuted(s, start, end + 1);
    i := start;
    var j := start;
    while j < end
      invariant Moving(s, a[..], start, i, j, end, x)
    {
      ghost var t := a[..];
      if a[j] <= x {
        Swap(a, i, j, start, end + 1);
        MoveOne(s, t, a[..], start, i, j, end, x);
        i := i + 1;
      } else {
        MoveNone(s, t, start, i, j, end, x);
      }
      j := j + 1;
    }
  }

  /** The elements before i are up to x, those from i to j above it. */
  ghost predicate Moving(s: seq<int>, t: seq<int>, start: nat, i: nat, j: nat, end: nat, x: int) {
    && start <= i <= j <= end < |s| == |t| && t[end] == s[end] && Permuted(s, t, start, end + 1)
    && UpTo(t, start, i, x) && Beyond(t, i, j, x)
  }

  lemma MoveOne(s: seq<int>, t: seq<int>, u: seq<int>, start: nat, i: nat, j: nat, end: nat, x: int)
    requires Moving(s, t, start, i, j, end, x) && j < end && t[j] <= x && u == t[i := t[j]][j := t[i]] && Permuted(t, u, start, end + 1)
    ensures Moving(s, u, start, i + 1, j + 1, end, x)
  {
    PermutedTwice(s, t, u, start, end + 1);
    SwapKeepsSplit(t, u, start, i, j, x);
  }

  lemma MoveNone(s: seq<int>, t: seq<int>, start: nat, i: nat, j: nat, end: nat, x: int)
    requires Moving(s, t, start, i, j, end, x) && j < end && t[j] > x
    ensures Moving(s, t, start, i, j + 1, end, x)
  {
  }

  // --------------------------------------------------------------------------------- sorting

  /** The range from lo to hi sorted in place. */
  method SortRange(a: array<int>, lo: nat, hi: nat)
    requires lo <= hi <= a.Length
    modifies a
    ensures Permuted(old(a[..]), a[..], lo, hi) && forall i, j :: lo <= i < j < hi ==> a[i] <= a[j]
  {
    ghost var s := a[..];
    Unpermuted(s, lo, hi);
    var n := lo;
    while n < hi
      invariant lo <= n <= hi && Permuted(s, a[..], lo, hi)
      invariant forall i, j :: lo <= i < j < hi && i < n ==> a[i] <= a[j]
    {
      var least := LeastIn(a, n, hi);
      ghost var t := a[..];
      Swap(a, n, least, lo, hi);
      PermutedTwice(s, t, a[..], lo, hi);
      n := n + 1;
    }
  }

  method LeastIn(a: array<int>, lo: nat, hi: nat) returns (k: nat)
    requires lo < hi <= a.Length
    ensures lo <= k < hi && forall i :: lo <= i < hi ==> a[k] <= a[i]
  {
    k := lo;
    var i := lo + 1;
    while i < hi
      invariant lo <= k < i <= hi && forall j :: lo <= j < i ==> a[k] <= a[j]
    {
      if a[i] < a[k] {
        k := i;
      }
      i := i + 1;
    }
  }

  /** `findMedian` of up to five elements, which it sorts. */
  method FindMedian(a: array<int>, lo: nat, length: nat) returns (m: int)
    requires length > 0 && lo + length <= a.Length
    modifies a
    ensures Permuted(old(a[..]), a[..], lo, lo + length) && m == a[lo + length / 2]
    ensures forall i, j :: lo <= i < j < lo + length ==> a[i] <= a[j]
  {
    SortRange(a, lo, lo + length);
    m := a[lo + length / 2];
  }

  // ------------------------------------------------------------------------------- selection

  ghost predicate Within(ms: seq<int>, r: seq<int>) {
    forall i :: 0 <= i < |ms| ==> ms[i] in r
  }

  /** The medians of the groups of five of a range: each is an element of the range. */
  method Medians(a: array<int>, start: nat, length: nat) returns (medians: seq<int>)
    requires length > 0 && start + length <= a.Length
    modifies a
    ensures |medians| == (length + 4) / 5 && Permuted(old(a[..]), a[..], start, start + length)
    ensures Within(medians, a[..][start..start + length])
  {
    ghost var s := a[..];
    Unpermuted(s, start, start + length);
    medians := [];
    while |medians| < (length + 4) / 5
      invariant |medians| <= (length + 4) / 5 && Permuted(s, a[..], start, start + length) && Within(medians, a[..][start..start + length])
    {
      ghost var t := a[..];
      var m := GroupMedian(a, start, length, |medians|);
      PermutedTwice(s, t, a[..], start, start + length);
      WithinPermuted(medians, t, a[..], start, start + length);
      medians := medians + [m];
    }
  }

  method GroupMedian(a: array<int>, start: nat, length: nat, i: nat) returns (m: int)
    requires i < (length + 4) / 5 && start + length <= a.Length
    modifies a
    ensures Permuted(old(a[..]), a[..], start, start + length) && m in a[..][start..start + length]
  {
    ghost var t := a[..];
    var lo, size := start + i * 5, if i < length / 5 then 5 else length % 5;
    m := FindMedian(a, lo, size);
    PermutedWider(t, a[..], lo, lo + size, start, start + length);
    assert a[..][start..start + length][lo + size / 2 - start] == m;
  }

  lemma WithinPermuted(ms: seq<int>, s: seq<int>, t: seq<int>, lo: nat, hi: nat)
    requires lo <= hi <= |s| == |t| && Permuted(s, t, lo, hi) && Within(ms, s[lo..hi])
    ensures Within(ms, t[lo..hi])
  {
    Clauses(s, t, lo, hi);
    forall i | 0 <= i < |ms| ensures ms[i] in t[lo..hi] {
      assert ms[i] in s[lo..hi];
      assert ms[i] in multiset(s[lo..hi]);
    }
  }

  lemma SameElements(s: seq<int>, t: seq<int>, lo: nat, hi: nat)
    requires Permuted(s, t, lo, hi)
    ensures lo <= hi <= |s| == |t| && forall x :: x in s[lo..hi] <==> x in t[lo..hi]
  {
    Clauses(s, t, lo, hi);
    assert forall x :: x in s[lo..hi] <==> x in multiset(s[lo..hi]);
    assert forall x :: x in t[lo..hi] <==> x in multiset(t[lo..hi]);
  }

  /** The pivot for a range: the median of the medians of its groups, or the only one. */
  method Pivot(a: array<int>, start: nat, length: nat) returns (x: int)
    requires length > 0 && start + length <= a.Length
    modifies a
    ensures Permuted(old(a[..]), a[..], start, start + length) && x in a[..][start..start + length]
    decreases length, 0
  {
    var medians := Medians(a, start, length);
    ghost var s := a[..];
    if |medians| == 1 {
      return medians[0];
    }
    var m := Copy(medians);
    x := ElementOfRank(m.Length / 2, m, 0, m.Length);
    assert a[..] == s && medians[0..|medians|] == medians;
    ghost var k :| 0 <= k < |medians| && medians[k] == x;
  }

  /** `elementOfRankK`: the k-th smallest element of a range, which it permutes. */
  method ElementOfRank(k: nat, a: array<int>, start: nat, length: nat) returns (x: int)
    requires 1 <= k <= length && start + length <= a.Length
    modifies a
    ensures Permuted(old(a[..]), a[..], start, start + length)
    ensures HasRank(old(a[..])[start..start + length], k, x)
    decreases length, 1
  {
    ghost var s := a[..];
    var pivot := Pivot(a, start, length);
    ghost var s1 := a[..];
    var end := start + length - 1;
    var pos := Partition(a, start, end, pivot);
    ghost var s2 := a[..];
    PermutedTwice(s, s1, s2, start, start + length);
    x := SelectAround(k, a, start, pos, end);
    PermutedTwice(s, s2, a[..], start, start + length);
    RankOfPermuted(s, s2, start, start + length, k, x);
  }

  /** The selection in a range that has been partitioned at pos. */
  method SelectAround(k: nat, a: array<int>, start: nat, pos: nat, end: nat) returns (x: int)
    requires SplitAt(a[..], start, pos, end) && 1 <= k <= end + 1 - start
    modifies a
    ensures Permuted(old(a[..]), a[..], start, end + 1)
    ensures HasRank(old(a[..])[start..end + 1], k, x)
    decreases end + 1 - start, 0
  {
    ghost var s := a[..];
    if pos - start == k - 1 {
      x := a[pos];
      Unpermuted(s, start, end + 1);
      PivotRank(s, start, pos, end);
    } else if pos - start > k - 1 {
      x := ElementOfRank(k, a, start, pos - start);
      PermutedWider(s, a[..], start, pos, start, end + 1);
      LeftRank(s, start, pos, end, k, x);
    } else {
      x := ElementOfRank(k - (pos - start) - 1, a, pos + 1, end - pos);
      PermutedWider(s, a[..], pos + 1, end + 1, start, end + 1);
      RightRank(s, start, pos, end, k, x);
    }
  }

  method Copy(s: seq<int>) returns (a: array<int>)
    ensures fresh(a) && a[..] == s && a[0..a.Length] == s
  {
    a := new int[|s|](i requires 0 <= i < |s| => s[i]);
    assert a[..] == s;
  }

  lemma RankOfPermuted(s: seq<int>, t: seq<int>, lo: nat, hi: nat, k: nat, x: int)
    requires lo <= hi <= |s| == |t| && Permuted(s, t, lo, hi) && HasRank(t[lo..hi], k, x)
    ensures HasRank(s[lo..hi], k, x)
  {
    Clauses(s, t, lo, hi);
    RankPermuted(s[lo..hi], t[lo..hi], x);
    SameElements(s, t, lo, hi);
  }

  lemma RangeParts(s: seq<int>, start: nat, pos: nat, end: nat, x: int)
    requires start <= pos <= end < |s|
    ensures s[start..end + 1] == s[start..pos] + ([s[pos]] + s[pos + 1..end + 1])
    ensures Less(s[start..end + 1], x) == Less(s[start..pos], x) + (if s[pos] < x then 1 else 0) + Less(s[pos + 1..end + 1], x)
    ensures AtMost(s[start..end + 1], x) == AtMost(s[start..pos], x) + (if s[pos] <= x then 1 else 0) + AtMost(s[pos + 1..end + 1], x)
  {
    var l, r := s[start..pos], s[pos + 1..end + 1];
    assert s[start..end + 1] == l + ([s[pos]] + r);
    RankConcat(l, [s[pos]] + r, x);
    assert ([s[pos]] + r)[1..] == r;
  }

  lemma PivotRank(s: seq<int>, start: nat, pos: nat, end: nat)
    requires SplitAt(s, start, pos, end)
    ensures HasRank(s[start..end + 1], pos - start + 1, s[pos])
  {
    RangeParts(s, start, pos, end, s[pos]);
    AllAtMost(s[start..pos], s[pos]);
    AllAbove(s[pos + 1..end + 1], s[pos]);
    assert s[start..end + 1][pos - start] == s[pos];
  }

  lemma LeftRank(s: seq<int>, start: nat, pos: nat, end: nat, k: nat, x: int)
    requires SplitAt(s, start, pos, end) && HasRank(s[start..pos], k, x)
    ensures HasRank(s[start..end + 1], k, x)
  {
    RangeParts(s, start, pos, end, x);
    assert x <= s[pos];
    NoneLess(s[pos + 1..end + 1], x);
  }

  lemma RightRank(s: seq<int>, start: nat, pos: nat, end: nat, k: nat, x: int)
    requires SplitAt(s, start, pos, end) && k > pos - start + 1 && HasRank(s[pos + 1..end + 1], k - (pos - start) - 1, x)
    ensures HasRank(s[start..end + 1], k, x)
  {
    RangeParts(s, start, pos, end, x);
    assert x > s[pos];
    AllLess(s[start..pos], x);
  }

  // --------------------------------------------------------------------------- the split key

  ghost predicate Distinct(s: seq<int>) {
    forall i, j :: 0 <= i < j < |s| ==> s[i] != s[j]
  }

  /** Among distinct keys, exactly k - 1 are below the k-th smallest. */
  lemma RankOfDistinct(s: seq<int>, k: nat, x: int)
    requires Distinct(s) && HasRank(s, k, x)
    ensures Less(s, x) == k - 1
  {
    DistinctRank(s, x);
  }

  lemma {:induction false} DistinctRank(s: seq<int>, x: int)
    requires Distinct(s)
    ensures AtMost(s, x) == Less(s, x) + if x in s then 1 else 0
  {
    if s != [] {
      DistinctRank(s[1..], x);
      assert s == [s[0]] + s[1..];
      assert x == s[0] ==> x !in s[1..];
    }
  }

  function CountSet(bits: seq<bool>): nat {
    if bits == [] then 0 else (if bits[0] then 1 else 0) + CountSet(bits[1..])
  }

  lemma {:induction false} BitsCount(bits: seq<bool>, s: seq<int>, x: int)
    requires |bits| == |s| && forall i :: 0 <= i < |s| ==> bits[i] == (s[i] < x)
    ensures CountSet(bits) == Less(s, x)
  {
    if s != [] {
      BitsCount(bits[1..], s[1..], x);
    }
  }

  /** `findSplitKey` for a full leaf: the bitmap marks exactly the (M + 1) / 2 smallest
      keys, and the split position holds the smallest of the others. */
  method FindSplitKey(keys: seq<int>) returns (bits: seq<bool>, splitPos: nat)
    requires |keys| >= 2 && Distinct(keys)
    ensures |bits| == |keys| && splitPos < |keys| && CountSet(bits) == (|keys| + 1) / 2
    ensures forall i :: 0 <= i < |keys| ==> bits[i] == (keys[i] < keys[splitPos])
  {
    var m := |keys|;
    var copy := Copy(keys);
    var splitKey := ElementOfRank((m + 1) / 2 + 1, copy, 0, m);
    assert keys[0..m] == keys;
    bits, splitPos := [], m;
    var i := 0;
    while i < m
      invariant i <= m && |bits| == i && (forall j :: 0 <= j < i ==> bits[j] == (keys[j] < splitKey))
      invariant if splitPos < m then splitPos < i && keys[splitPos] == splitKey else forall j :: 0 <= j < i ==> keys[j] != splitKey
    {
      bits := bits + [keys[i] < splitKey];
      if keys[i] == splitKey {
        splitPos := i;
      }
      i := i + 1;
    }
    RankOfDistinct(keys, (m + 1) / 2 + 1, splitKey);
    BitsCount(bits, keys, splitKey);
  }
}
