/** Compressed sparse rows: the array encoding of a list of adjacency rows. */
module Csr {

  /** The neighbours of a node with the weights of the connecting relationships. */
  datatype Row = Row(ids: seq<nat>, weights: seq<real>)

  const EMPTY_ROW := Row([], [])

  predicate RowOk(r: Row) {
    |r.ids| == |r.weights|
  }

  datatype Arrays = Arrays(offsets: seq<nat>, cols: seq<nat>, vals: seq<real>)

  ghost predicate WellFormed(a: Arrays) {
    && |a.offsets| > 0 && a.offsets[0] == 0
    && (forall i, j :: 0 <= i <= j < |a.offsets| ==> a.offsets[i] <= a.offsets[j])
    && a.offsets[|a.offsets| - 1] == |a.cols| == |a.vals|
  }

  function NumRows(a: Arrays): nat
    requires |a.offsets| > 0
  {
    |a.offsets| - 1
  }

  ghost function RowAt(a: Arrays, i: nat): Row
    requires WellFormed(a) && i < NumRows(a)
  {
    var lo, hi := a.offsets[i], a.offsets[i + 1];
    assert hi <= a.offsets[|a.offsets| - 1];
    Row(a.cols[lo..hi], a.vals[lo..hi])
  }

  ghost function Rows(a: Arrays): (rows: seq<Row>)
    requires WellFormed(a)
    ensures RowsOk(rows)
  {
    seq(NumRows(a), i requires 0 <= i < NumRows(a) => RowAt(a, i))
  }

  ghost predicate RowsOk(rows: seq<Row>) {
    forall i :: 0 <= i < |rows| ==> RowOk(rows[i])
  }

  // --------------------------------------------------------------- the encoding

  ghost function Cols(rows: seq<Row>): seq<nat> {
    if rows == [] then [] else Cols(rows[..|rows| - 1]) + rows[|rows| - 1].ids
  }

  ghost function Vals(rows: seq<Row>): seq<real> {
    if rows == [] then [] else Vals(rows[..|rows| - 1]) + rows[|rows| - 1].weights
  }

  ghost function Offsets(rows: seq<Row>): seq<nat> {
    seq(|rows| + 1, i requires 0 <= i <= |rows| => |Cols(rows[..i])|)
  }

  ghost function Encode(rows: seq<Row>): Arrays {
    Arrays(Offsets(rows), Cols(rows), Vals(rows))
  }

  lemma OffsetsStep(rows: seq<Row>, r: Row)
    ensures Offsets(rows + [r]) == Offsets(rows) + [|Cols(rows)| + |r.ids|]
    ensures Offsets(rows)[|rows|] == |Cols(rows)|
  {
    var rows' := rows + [r];
    assert rows[..|rows|] == rows && rows'[..|rows'|] == rows' && rows'[..|rows|] == rows;
    forall i | 0 <= i <= |rows| ensures rows'[..i] == rows[..i] {
    }
  }

  /** Appending a row to the encoding appends to each array. */
  lemma EncodeSnoc(rows: seq<Row>, r: Row)
    ensures Encode(rows + [r]) ==
            Arrays(Offsets(rows) + [Offsets(rows)[|rows|] + |r.ids|], Cols(rows) + r.ids, Vals(rows) + r.weights)
    ensures Offsets(rows)[|rows|] == |Cols(rows)|
  {
    OffsetsStep(rows, r);
    EntriesSnoc(rows, r);
  }

  lemma EntriesSnoc(rows: seq<Row>, r: Row)
    ensures Cols(rows + [r]) == Cols(rows) + r.ids && Vals(rows + [r]) == Vals(rows) + r.weights
  {
    var rows' := rows + [r];
    assert rows'[..|rows'| - 1] == rows;
  }

  lemma {:induction false} ColsConcat(x: seq<Row>, y: seq<Row>)
    ensures Cols(x + y) == Cols(x) + Cols(y)
  {
    if y == [] {
      assert x + y == x;
    } else {
      var front := y[..|y| - 1];
      ColsConcat(x, front);
      assert (x + y)[..|x + y| - 1] == x + front;
    }
  }

  lemma {:induction false} ValsConcat(x: seq<Row>, y: seq<Row>)
    ensures Vals(x + y) == Vals(x) + Vals(y)
  {
    if y == [] {
      assert x + y == x;
    } else {
      var front := y[..|y| - 1];
      ValsConcat(x, front);
      assert (x + y)[..|x + y| - 1] == x + front;
    }
  }

  /** The entries of the first k rows come before those of the others. */
  lemma EncodeSplit(rows: seq<Row>, k: nat)
    requires k <= |rows|
    ensures Offsets(rows)[k] == |Cols(rows[..k])|
    ensures Cols(rows) == Cols(rows[..k]) + Cols(rows[k..]) && Vals(rows) == Vals(rows[..k]) + Vals(rows[k..])
  {
    ColsConcat(rows[..k], rows[k..]);
    ValsConcat(rows[..k], rows[k..]);
    assert rows[..k] + rows[k..] == rows;
  }

  lemma {:induction false} EncodeLengths(rows: seq<Row>)
    requires RowsOk(rows)
    ensures |Cols(rows)| == |Vals(rows)|
  {
    if rows != [] {
      EncodeLengths(rows[..|rows| - 1]);
    }
  }

  lemma OffsetsIncrease(rows: seq<Row>, i: nat, j: nat)
    requires i <= j <= |rows|
    ensures Offsets(rows)[i] <= Offsets(rows)[j] <= |Cols(rows)|
  {
    EncodeSplit(rows, j);
    EncodeSplit(rows[..j], i);
    assert rows[..j][..i] == rows[..i];
  }

  /** Row i occupies the entries between offsets i and i + 1. */
  lemma RowSlice(rows: seq<Row>, i: nat)
    requires RowsOk(rows) && i < |rows|
    ensures var lo, hi := Offsets(rows)[i], Offsets(rows)[i + 1];
            && lo <= hi <= |Cols(rows)| == |Vals(rows)| && hi - lo == |rows[i].ids|
            && Cols(rows)[lo..hi] == rows[i].ids && Vals(rows)[lo..hi] == rows[i].weights
  {
    EncodeSplit(rows, i + 1);
    EncodeLengths(rows);
    EncodeLengths(rows[..i]);
    EncodeSnoc(rows[..i], rows[i]);
    assert rows[..i + 1] == rows[..i] + [rows[i]];
    EncodeSplit(rows, i);
  }

  /** Encoding yields well-formed arrays whose rows are the rows encoded. */
  lemma EncodeRows(rows: seq<Row>)
    requires RowsOk(rows)
    ensures WellFormed(Encode(rows)) && Rows(Encode(rows)) == rows
  {
    EncodeLengths(rows);
    EncodeSplit(rows, 0);
    EncodeSplit(rows, |rows|);
    assert rows[..|rows|] == rows && rows[..0] == [];
    forall i, j | 0 <= i <= j < |Offsets(rows)| ensures Offsets(rows)[i] <= Offsets(rows)[j] {
      OffsetsIncrease(rows, i, j);
    }
    forall i | 0 <= i < |rows| ensures Rows(Encode(rows))[i] == rows[i] {
      RowSlice(rows, i);
    }
  }

  lemma SplitSlice<T>(s: seq<T>, lo: nat, mid: nat, hi: nat)
    requires lo <= mid <= hi <= |s|
    ensures s[lo..hi] == s[lo..mid] + s[mid..hi]
  {
  }

  /** Up to row k, well-formed arrays hold the entries of their first k rows. */
  lemma {:induction false} DecodeEntries(a: Arrays, k: nat)
    requires WellFormed(a) && k <= NumRows(a)
    ensures a.offsets[k] <= |a.cols|
    ensures Cols(Rows(a)[..k]) == a.cols[..a.offsets[k]] && Vals(Rows(a)[..k]) == a.vals[..a.offsets[k]]
  {
    assert a.offsets[k] <= a.offsets[|a.offsets| - 1];
    if k > 0 {
      DecodeEntries(a, k - 1);
      EncodeSnoc(Rows(a)[..k - 1], RowAt(a, k - 1));
      assert Rows(a)[..k] == Rows(a)[..k - 1] + [RowAt(a, k - 1)];
      SplitSlice(a.cols, 0, a.offsets[k - 1], a.offsets[k]);
      SplitSlice(a.vals, 0, a.offsets[k - 1], a.offsets[k]);
    }
  }

  /** Well-formed arrays are the encoding of their rows. */
  lemma DecodeEncode(a: Arrays)
    requires WellFormed(a)
    ensures Encode(Rows(a)) == a
  {
    var n := NumRows(a);
    forall k | 0 <= k <= n ensures Offsets(Rows(a))[k] == a.offsets[k] {
      DecodeEntries(a, k);
    }
    DecodeEntries(a, n);
    assert Rows(a)[..n] == Rows(a);
  }

  // -------------------------------------------------------------- the delta patch

  ghost predicate DeltasOk(deltas: map<nat, Row>) {
    forall i :: i in deltas ==> RowOk(deltas[i])
  }

  /** keys lists the keys of the ordered delta map. */
  ghost predicate InOrder(keys: seq<nat>, deltas: map<nat, Row>) {
    && (forall i, j :: 0 <= i < j < |keys| ==> keys[i] < keys[j])
    && (forall i :: 0 <= i < |keys| ==> keys[i] in deltas)
    && (forall k :: k in deltas ==> k in keys)
  }

  /** The row of node i after the update: its delta, else its old row, else empty. */
  function Target(rows: seq<Row>, deltas: map<nat, Row>, i: nat): Row {
    if i in deltas then deltas[i] else if i < |rows| then rows[i] else EMPTY_ROW
  }

  ghost function Targets(rows: seq<Row>, deltas: map<nat, Row>, n: nat): seq<Row> {
    seq(n, i requires 0 <= i < n => Target(rows, deltas, i))
  }

  function NumTargets(prev: nat, keys: seq<nat>): nat {
    if keys == [] || keys[|keys| - 1] < prev then prev else keys[|keys| - 1] + 1
  }

  lemma TargetsSnoc(rows: seq<Row>, deltas: map<nat, Row>, n: nat)
    ensures Targets(rows, deltas, n + 1) == Targets(rows, deltas, n) + [Target(rows, deltas, n)]
  {
  }

  /** Append the next target row to the arrays. */
  method PushTarget(a: Arrays, ids: seq<nat>, weights: seq<real>, ghost rows: seq<Row>, ghost deltas: map<nat, Row>, ghost n: nat)
    returns (b: Arrays)
    requires a == Encode(Targets(rows, deltas, n)) && Row(ids, weights) == Target(rows, deltas, n)
    ensures b == Encode(Targets(rows, deltas, n + 1))
  {
    TargetsSnoc(rows, deltas, n);
    EncodeSnoc(Targets(rows, deltas, n), Row(ids, weights));
    b := Arrays(a.offsets + [a.offsets[|a.offsets| - 1] + |ids|], a.cols + ids, a.vals + weights);
  }

  /** The entries of one old row. */
  method CopyRow(prev: Arrays, i: nat, ghost rows: seq<Row>) returns (ids: seq<nat>, weights: seq<real>)
    requires RowsOk(rows) && prev == Encode(rows) && i < |rows|
    ensures Row(ids, weights) == rows[i]
  {
    RowSlice(rows, i);
    ids := prev.cols[prev.offsets[i]..prev.offsets[i + 1]];
    weights := prev.vals[prev.offsets[i]..prev.offsets[i + 1]];
  }

  /** Between two consecutive keys there is no delta. */
  lemma BetweenKeys(keys: seq<nat>, deltas: map<nat, Row>, j: nat, i: nat)
    requires InOrder(keys, deltas) && j <= |keys|
    requires (j > 0 ==> keys[j - 1] < i) && (j < |keys| ==> i < keys[j])
    ensures i !in deltas
  {
    assert i in keys ==> exists k :: 0 <= k < |keys| && keys[k] == i;
  }

  /** Old rows below the next key are copied. */
  method CopyGap(prev: Arrays, a0: Arrays, keys: seq<nat>, deltas: map<nat, Row>, j: nat, n0: nat, ghost rows: seq<Row>)
    returns (a: Arrays)
    requires RowsOk(rows) && prev == Encode(rows) && InOrder(keys, deltas)
    requires j < |keys| && n0 <= keys[j] <= |rows| && (j > 0 ==> keys[j - 1] < n0)
    requires a0 == Encode(Targets(rows, deltas, n0))
    ensures a == Encode(Targets(rows, deltas, keys[j]))
  {
    a := a0;
    var next := n0;
    while next < keys[j]
      invariant n0 <= next <= keys[j] && a == Encode(Targets(rows, deltas, next))
    {
      var ids, weights := CopyRow(prev, next, rows);
      BetweenKeys(keys, deltas, j, next);
      a := PushTarget(a, ids, weights, rows, deltas, next);
      next := next + 1;
    }
  }

  /** The rows of existing nodes, up to the last one with a delta. `lnid` is the
      last node id of the old arrays. */
  method PatchOldNodes(prev: Arrays, keys: seq<nat>, deltas: map<nat, Row>, lnid: nat, ghost rows: seq<Row>)
    returns (a: Arrays, next: nat, j: nat)
    requires RowsOk(rows) && prev == Encode(rows) && InOrder(keys, deltas) && lnid + 1 == |rows|
    ensures j <= |keys| && next <= |rows| && a == Encode(Targets(rows, deltas, next))
    ensures (j > 0 ==> keys[j - 1] < next) && (j < |keys| ==> lnid < keys[j])
  {
    a, next, j := Arrays([0], [], []), 0, 0;
    while j < |keys| && keys[j] <= lnid
      invariant j <= |keys| && next <= |rows| && a == Encode(Targets(rows, deltas, next))
      invariant next == if j == 0 then 0 else keys[j - 1] + 1
    {
      a := CopyGap(prev, a, keys, deltas, j, next, rows);
      next := keys[j];
      a := PushTarget(a, deltas[next].ids, deltas[next].weights, rows, deltas, next);
      next := next + 1;
      j := j + 1;
    }
  }

  /** The remaining old rows are copied in one go, first the entries and then the offsets. */
  method CopyTail(prev: Arrays, a: Arrays, next: nat, ghost done: seq<Row>, ghost rows: seq<Row>) returns (b: Arrays)
    requires RowsOk(rows) && prev == Encode(rows) && a == Encode(done) && next <= |rows|
    ensures b == Encode(done + rows[next..])
  {
    EncodeSplit(rows, next);
    ColsConcat(done, rows[next..]);
    ValsConcat(done, rows[next..]);
    EncodeLengths(rows[..next]);
    var cols := a.cols + prev.cols[prev.offsets[next]..];
    var vals := a.vals + prev.vals[prev.offsets[next]..];
    var offsets := CopyOffsets(prev, a.offsets, next, done, rows);
    b := Arrays(offsets, cols, vals);
  }

  method CopyOffsets(prev: Arrays, start: seq<nat>, next: nat, ghost done: seq<Row>, ghost rows: seq<Row>)
    returns (offsets: seq<nat>)
    requires RowsOk(rows) && prev == Encode(rows) && start == Offsets(done) && next <= |rows|
    ensures offsets == Offsets(done + rows[next..])
  {
    offsets := start;
    var k := next;
    assert done == done + rows[next..next];
    while k < |prev.offsets| - 1
      invariant next <= k <= |rows| && offsets == Offsets(done + rows[next..k])
    {
      OffsetsTail(done, rows, next, k);
      offsets := offsets + [offsets[|offsets| - 1] + (prev.offsets[k + 1] - prev.offsets[k])];
      k := k + 1;
    }
    assert rows[next..k] == rows[next..];
  }

  lemma OffsetsTail(done: seq<Row>, rows: seq<Row>, next: nat, k: nat)
    requires RowsOk(rows) && next <= k < |rows|
    ensures Offsets(rows)[k] <= Offsets(rows)[k + 1]
    ensures var o := Offsets(done + rows[next..k]);
            && |o| > 0
            && Offsets(done + rows[next..k + 1]) == o + [o[|o| - 1] + (Offsets(rows)[k + 1] - Offsets(rows)[k])]
  {
    RowSlice(rows, k);
    EncodeSnoc(done + rows[next..k], rows[k]);
    assert done + rows[next..k + 1] == done + rows[next..k] + [rows[k]];
  }

  /** Empty rows for unused slots below the next key. */
  method PushGap(a0: Arrays, keys: seq<nat>, deltas: map<nat, Row>, j: nat, n0: nat, ghost rows: seq<Row>)
    returns (a: Arrays)
    requires InOrder(keys, deltas) && j < |keys| && |rows| <= n0 <= keys[j] && (j > 0 ==> keys[j - 1] < n0)
    requires a0 == Encode(Targets(rows, deltas, n0))
    ensures a == Encode(Targets(rows, deltas, keys[j]))
  {
    a := a0;
    var next := n0;
    while next < keys[j]
      invariant n0 <= next <= keys[j] && a == Encode(Targets(rows, deltas, next))
    {
      BetweenKeys(keys, deltas, j, next);
      a := PushTarget(a, [], [], rows, deltas, next);
      next := next + 1;
    }
  }

  /** Nodes appended after the last node of the old arrays, with empty rows for gaps. */
  method PatchNewNodes(a0: Arrays, keys: seq<nat>, deltas: map<nat, Row>, j0: nat, ghost rows: seq<Row>)
    returns (a: Arrays)
    requires InOrder(keys, deltas) && j0 <= |keys|
    requires (j0 > 0 ==> keys[j0 - 1] < |rows|) && (j0 < |keys| ==> |rows| <= keys[j0])
    requires a0 == Encode(Targets(rows, deltas, |rows|))
    ensures a == Encode(Targets(rows, deltas, NumTargets(|rows|, keys)))
  {
    a := a0;
    var next, j := NumRows(a0), j0;
    while j < |keys|
      invariant j0 <= j <= |keys| && a == Encode(Targets(rows, deltas, next))
      invariant next == if j == j0 then |rows| else keys[j - 1] + 1
      invariant |rows| <= next && (j < |keys| ==> next <= keys[j])
    {
      a := PushGap(a, keys, deltas, j, next, rows);
      next := keys[j];
      a := PushTarget(a, deltas[next].ids, deltas[next].weights, rows, deltas, next);
      next := next + 1;
      j := j + 1;
    }
  }

  const WORD: nat := 0x1_0000_0000_0000_0000

  /** The last node id as the source computes it in 64 bits: for arrays without
      rows, the subtraction wraps around. */
  function LastNodeId(a: Arrays): nat {
    (|a.offsets| + WORD - 2) % WORD
  }

  /** The first pass over the deltas reads the old offset after every key up to
      the last node id. */
  predicate OffsetReadsInBounds(a: Arrays, keys: seq<nat>) {
    forall j :: 0 <= j < |keys| && keys[j] <= LastNodeId(a) ==> keys[j] + 1 < |a.offsets|
  }

  /** Those reads stay inside the old offsets exactly when the arrays have a row. */
  lemma PatchBounds(a: Arrays, keys: seq<nat>)
    requires 0 < |a.offsets| < WORD && keys != [] && forall j :: 0 <= j < |keys| ==> keys[j] < WORD
    ensures OffsetReadsInBounds(a, keys) <==> NumRows(a) > 0
  {
    if NumRows(a) == 0 {
      assert LastNodeId(a) == WORD - 1;
      assert keys[0] <= LastNodeId(a);
    } else {
      assert LastNodeId(a) == |a.offsets| - 2;
    }
  }

  /** The update of the arrays in `host_csr_update_with_delta`. */
  method Patch(prev: Arrays, keys: seq<nat>, deltas: map<nat, Row>) returns (a: Arrays)
    requires WellFormed(prev) && InOrder(keys, deltas) && DeltasOk(deltas) && keys != []
    requires 0 < NumRows(prev) < WORD - 1
    ensures WellFormed(a) && NumRows(a) == NumTargets(NumRows(prev), keys)
    ensures forall i :: 0 <= i < NumRows(a) ==> RowAt(a, i) == Target(Rows(prev), deltas, i)
  {
    ghost var rows := Rows(prev);
    DecodeEncode(prev);
    a := PatchRows(prev, keys, deltas, rows);
    ghost var targets := Targets(rows, deltas, NumTargets(|rows|, keys));
    EncodeRows(targets);
    forall i | 0 <= i < NumRows(a) ensures RowAt(a, i) == Target(rows, deltas, i) {
      assert Rows(a)[i] == RowAt(a, i);
    }
  }

  method PatchRows(prev: Arrays, keys: seq<nat>, deltas: map<nat, Row>, ghost rows: seq<Row>) returns (a: Arrays)
    requires RowsOk(rows) && prev == Encode(rows) && InOrder(keys, deltas) && 0 < |rows| < WORD - 1
    ensures a == Encode(Targets(rows, deltas, NumTargets(|rows|, keys)))
  {
    assert LastNodeId(prev) == |prev.offsets| - 2;
    var next, j;
    a, next, j := PatchOldNodes(prev, keys, deltas, LastNodeId(prev), rows);
    a := CopyTail(prev, a, next, Targets(rows, deltas, next), rows);
    TargetsTail(rows, keys, deltas, next, j);
    a := PatchNewNodes(a, keys, deltas, j, rows);
  }

  /** After the last delta of an old node, the targets are the old rows. */
  lemma TargetsTail(rows: seq<Row>, keys: seq<nat>, deltas: map<nat, Row>, next: nat, j: nat)
    requires InOrder(keys, deltas) && j <= |keys| && next <= |rows|
    requires (j > 0 ==> keys[j - 1] < next) && (j < |keys| ==> |rows| <= keys[j])
    ensures Targets(rows, deltas, next) + rows[next..] == Targets(rows, deltas, |rows|)
  {
    forall i | next <= i < |rows| ensures Target(rows, deltas, i) == rows[i] {
      BetweenKeys(keys, deltas, j, i);
    }
  }
}
