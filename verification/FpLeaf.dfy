/** Unsorted leaves with a bitmap and one-byte fingerprints. */
module FpLeaf {
  import opened Wrappers
  import opened PbTree
  import FpSelect

  /** The largest key value of an unsigned 64-bit key. */
  const MAX_KEY: int := 0xffff_ffff_ffff_ffff

  /** A leaf and its address in persistent memory. */
  datatype Slots = Slots(id: nat, keys: seq<int>, vals: seq<int>, fps: seq<int>, bits: seq<bool>) {
    predicate Uses(i: int) { 0 <= i < |bits| && bits[i] }
  }

  /** The fingerprint function. */
  type Hash = int -> int

  predicate Sized(leaf: Slots, m: nat) {
    |leaf.keys| == |leaf.vals| == |leaf.fps| == |leaf.bits| == m
  }

  /** Slots in use carry the fingerprints of their keys, and different keys. */
  ghost predicate LeafOk(h: Hash, leaf: Slots, m: nat) {
    && Sized(leaf, m)
    && (forall i :: leaf.Uses(i) ==> leaf.fps[i] == h(leaf.keys[i]) && 0 <= leaf.keys[i] < MAX_KEY)
    && (forall i, j :: leaf.Uses(i) && leaf.Uses(j) && i != j ==> leaf.keys[i] != leaf.keys[j])
  }

  /** The keys of a leaf lie in [lo, hi). */
  ghost predicate Inside(leaf: Slots, lo: Option<int>, hi: Option<int>)
    requires |leaf.keys| == |leaf.bits|
  {
    forall i :: leaf.Uses(i) ==> AtLeast(lo, leaf.keys[i]) && Below(leaf.keys[i], hi)
  }

  ghost predicate NonEmpty(leaf: Slots) {
    exists i :: leaf.Uses(i)
  }

  /** The value stored for a key: the meaning of a leaf. */
  ghost predicate Stored(leaf: Slots, k: int, i: int)
    requires |leaf.keys| == |leaf.bits|
  {
    leaf.Uses(i) && leaf.keys[i] == k
  }

  ghost function LeafGet(leaf: Slots, k: int): Option<int>
    requires |leaf.keys| == |leaf.vals| == |leaf.bits|
  {
    if exists i :: Stored(leaf, k, i) then
      var i :| Stored(leaf, k, i);
      Some(leaf.vals[i])
    else None
  }

  lemma GetStored(h: Hash, leaf: Slots, m: nat, k: int, i: int)
    requires LeafOk(h, leaf, m) && Stored(leaf, k, i)
    ensures LeafGet(leaf, k) == Some(leaf.vals[i])
  {
  }

  /** `lookupPositionInLeafNode`: only slots whose fingerprint matches are compared. */
  method Position(h: Hash, leaf: Slots, m: nat, k: int) returns (pos: nat)
    requires LeafOk(h, leaf, m)
    ensures pos <= m && (pos < m ==> Stored(leaf, k, pos))
    ensures LeafGet(leaf, k) == if pos < m then Some(leaf.vals[pos]) else None
  {
    pos := 0;
    while pos < m && !(leaf.fps[pos] == h(k) && leaf.bits[pos] && leaf.keys[pos] == k)
      invariant pos <= m && forall i :: 0 <= i < pos ==> !Stored(leaf, k, i)
    {
      pos := pos + 1;
    }
    if pos < m {
      GetStored(h, leaf, m, k, pos);
    }
  }

  /** `findMinKeyPos`: a slot with the smallest key, exactly when some key is below the
      largest possible one or slot 0 is in use. */
  method MinKeyPos(leaf: Slots, m: nat) returns (pos: nat)
    requires Sized(leaf, m) && m > 0
    ensures pos < m
    ensures (exists i :: leaf.Uses(i) && leaf.keys[i] < MAX_KEY) ==> leaf.Uses(pos) && forall i :: leaf.Uses(i) ==> leaf.keys[pos] <= leaf.keys[i]
    ensures (forall i :: leaf.Uses(i) ==> leaf.keys[i] <= MAX_KEY) ==>
              ((leaf.Uses(pos) && forall i :: leaf.Uses(i) ==> leaf.keys[pos] <= leaf.keys[i]) <==>
               ((exists i :: leaf.Uses(i) && leaf.keys[i] < MAX_KEY) || leaf.Uses(0)))
  {
    pos := 0;
    var least := MAX_KEY;
    var i := 0;
    while i < m
      invariant i <= m && pos < m && least <= MAX_KEY
      invariant forall j :: 0 <= j < i && leaf.Uses(j) ==> least <= leaf.keys[j] || leaf.keys[j] >= MAX_KEY
      invariant if least < MAX_KEY then pos < i && leaf.Uses(pos) && leaf.keys[pos] == least else pos == 0
    {
      if leaf.bits[i] && leaf.keys[i] < least {
        least, pos := leaf.keys[i], i;
      }
      i := i + 1;
    }
  }

  /** The smallest key of a leaf. */
  ghost predicate IsMin(leaf: Slots, k: int)
    requires |leaf.keys| == |leaf.bits|
  {
    (exists i :: Stored(leaf, k, i)) && forall i :: leaf.Uses(i) ==> k <= leaf.keys[i]
  }

  // ----------------------------------------------------------------------------- insertion

  function Put(leaf: Slots, h: Hash, pos: nat, k: int, v: int): Slots
    requires pos < |leaf.keys| == |leaf.vals| == |leaf.fps| == |leaf.bits|
  {
    Slots(leaf.id, leaf.keys[pos := k], leaf.vals[pos := v], leaf.fps[pos := h(k)], leaf.bits[pos := true])
  }

  /** One or two leaves that hold what `leaf` held and the pair as well. */
  ghost predicate Holds(leaf: Slots, leaves: seq<Slots>, k: int, v: int)
    requires |leaf.keys| == |leaf.vals| == |leaf.bits| && AllSized(leaves)
  {
    forall x :: ListGet(leaves, x) == if x == k then Some(v) else LeafGet(leaf, x)
  }

  ghost predicate AllSized(leaves: seq<Slots>) {
    forall i :: 0 <= i < |leaves| ==> |leaves[i].keys| == |leaves[i].vals| == |leaves[i].bits|
  }

  /** The value stored for a key in a list of leaves. */
  ghost function ListGet(leaves: seq<Slots>, k: int): Option<int>
    requires AllSized(leaves)
  {
    if leaves == [] then None
    else if LeafGet(leaves[0], k).Some? then LeafGet(leaves[0], k)
    else ListGet(leaves[1..], k)
  }

  lemma {:induction false} ListGetConcat(a: seq<Slots>, b: seq<Slots>, k: int)
    requires AllSized(a) && AllSized(b)
    ensures AllSized(a + b) && ListGet(a + b, k) == if ListGet(a, k).Some? then ListGet(a, k) else ListGet(b, k)
  {
    if a == [] {
      assert a + b == b;
    } else {
      ListGetConcat(a[1..], b, k);
      assert (a + b)[0] == a[0] && (a + b)[1..] == a[1..] + b;
    }
  }

  lemma PutOk(h: Hash, leaf: Slots, m: nat, pos: nat, k: int, v: int, lo: Option<int>, hi: Option<int>)
    requires LeafOk(h, leaf, m) && Inside(leaf, lo, hi) && pos < m && 0 <= k < MAX_KEY && AtLeast(lo, k) && Below(k, hi)
    requires forall i :: Stored(leaf, k, i) ==> i == pos
    requires leaf.bits[pos] ==> leaf.keys[pos] == k
    ensures var leaf' := Put(leaf, h, pos, k, v);
            && LeafOk(h, leaf', m) && Inside(leaf', lo, hi) && leaf'.Uses(pos)
            && forall x :: LeafGet(leaf', x) == if x == k then Some(v) else LeafGet(leaf, x)
  {
    var leaf' := Put(leaf, h, pos, k, v);
    forall i, j | leaf'.Uses(i) && leaf'.Uses(j) && i != j ensures leaf'.keys[i] != leaf'.keys[j] {
      assert i != pos ==> leaf.Uses(i) && (Stored(leaf, k, i) || leaf.keys[i] != k);
      assert j != pos ==> leaf.Uses(j) && (Stored(leaf, k, j) || leaf.keys[j] != k);
    }
    forall x ensures LeafGet(leaf', x) == if x == k then Some(v) else LeafGet(leaf, x) {
      if x == k {
        GetStored(h, leaf', m, k, pos);
      } else if i :| Stored(leaf, x, i) {
        assert Stored(leaf', x, i);
        GetStored(h, leaf, m, x, i);
        GetStored(h, leaf', m, x, i);
      } else if i :| Stored(leaf', x, i) {
        assert Stored(leaf, x, i);
      }
    }
  }

  /** A leaf whose slots in use are those in `bits`. */
  function Masked(leaf: Slots, bits: seq<bool>): Slots {
    leaf.(bits := bits)
  }

  function Flipped(bits: seq<bool>): (r: seq<bool>)
    ensures |r| == |bits| && forall i :: 0 <= i < |bits| ==> r[i] == !bits[i]
  {
    seq(|bits|, i requires 0 <= i < |bits| => !bits[i])
  }

  /** A part of the slots of a leaf, perhaps in a copy of it elsewhere. */
  ghost predicate PartOf(leaf: Slots, part: Slots) {
    part == leaf.(id := part.id, bits := part.bits) && |part.bits| == |leaf.bits| && forall i :: part.Uses(i) ==> leaf.Uses(i)
  }

  lemma PartOk(h: Hash, leaf: Slots, m: nat, part: Slots)
    requires LeafOk(h, leaf, m) && PartOf(leaf, part)
    ensures LeafOk(h, part, m)
  {
  }

  lemma PartGet(h: Hash, leaf: Slots, m: nat, part: Slots, k: int)
    requires LeafOk(h, leaf, m) && LeafOk(h, part, m) && PartOf(leaf, part)
    ensures (forall i :: Stored(leaf, k, i) ==> part.Uses(i)) ==> LeafGet(part, k) == LeafGet(leaf, k)
    ensures (forall i :: Stored(leaf, k, i) ==> !part.Uses(i)) ==> LeafGet(part, k) == None
  {
    if i :| Stored(leaf, k, i) {
      GetStored(h, leaf, m, k, i);
      if part.Uses(i) {
        assert Stored(part, k, i);
        GetStored(h, part, m, k, i);
      }
      assert forall j :: Stored(part, k, j) ==> Stored(leaf, k, j);
    } else {
      assert forall j :: Stored(part, k, j) ==> Stored(leaf, k, j);
    }
  }

  /** l holds the slots of a full leaf with keys below x, r the others. */
  ghost predicate Halves(leaf: Slots, l: Slots, r: Slots, x: int)
    requires |leaf.keys| == |leaf.bits|
  {
    && PartOf(leaf, l) && PartOf(leaf, r)
    && forall i :: leaf.Uses(i) ==> (l.Uses(i) <==> leaf.keys[i] < x) && (r.Uses(i) <==> leaf.keys[i] >= x)
  }

  lemma HalvesOk(h: Hash, leaf: Slots, m: nat, l: Slots, r: Slots, x: int, lo: Option<int>, hi: Option<int>)
    requires LeafOk(h, leaf, m) && Inside(leaf, lo, hi) && Halves(leaf, l, r, x)
    ensures LeafOk(h, l, m) && LeafOk(h, r, m) && Inside(l, lo, Some(x)) && Inside(r, Some(x), hi)
    ensures forall k :: LeafGet(l, k) == (if k < x then LeafGet(leaf, k) else None) && LeafGet(r, k) == if k < x then None else LeafGet(leaf, k)
  {
    PartOk(h, leaf, m, l);
    PartOk(h, leaf, m, r);
    forall k ensures LeafGet(l, k) == (if k < x then LeafGet(leaf, k) else None) && LeafGet(r, k) == if k < x then None else LeafGet(leaf, k) {
      PartGet(h, leaf, m, l, k);
      PartGet(h, leaf, m, r, k);
    }
  }

  /** The first free slot. */
  method FreeSlot(leaf: Slots, m: nat) returns (pos: nat)
    requires Sized(leaf, m)
    ensures pos <= m && (pos < m ==> !leaf.bits[pos]) && (pos == m ==> forall i :: 0 <= i < m ==> leaf.bits[i])
  {
    pos := 0;
    while pos < m && leaf.bits[pos]
      invariant pos <= m && forall i :: 0 <= i < pos ==> leaf.bits[i]
    {
      pos := pos + 1;
    }
  }

  /** `findMaxKeyPos` */
  method MaxKeyPos(leaf: Slots, m: nat) returns (pos: nat)
    requires Sized(leaf, m) && m > 0
    ensures pos < m
    ensures (exists i :: leaf.Uses(i) && leaf.keys[i] > 0) ==> leaf.Uses(pos) && forall i :: leaf.Uses(i) ==> leaf.keys[pos] >= leaf.keys[i]
  {
    pos := 0;
    var most := 0;
    var i := 0;
    while i < m
      invariant i <= m && pos < m && most >= 0
      invariant forall j :: 0 <= j < i && leaf.Uses(j) ==> most >= leaf.keys[j]
      invariant most > 0 ==> pos < i && leaf.Uses(pos) && leaf.keys[pos] == most
    {
      if leaf.bits[i] && leaf.keys[i] > most {
        most, pos := leaf.keys[i], i;
      }
      i := i + 1;
    }
  }

  // -------------------------------------------------------------------------- inserting

  /** What an insertion makes of a leaf: one leaf, or two and their separator. */
  datatype Parts = Whole(l: Slots) | Split(l: Slots, sep: int, r: Slots) {
    function List(): seq<Slots> { if Whole? then [l] else [l, r] }
  }

  ghost predicate GoodLeaf(h: Hash, leaf: Slots, m: nat, lo: Option<int>, hi: Option<int>) {
    LeafOk(h, leaf, m) && Inside(leaf, lo, hi) && NonEmpty(leaf)
  }

  /** Good leaves between the bounds that hold what `leaf` held, and the pair. */
  ghost predicate PartsOk(h: Hash, leaf: Slots, m: nat, parts: Parts, lo: Option<int>, hi: Option<int>, k: int, v: int) {
    && Sized(leaf, m)
    && (match parts
        case Whole(l) => GoodLeaf(h, l, m, lo, hi)
        case Split(l, sep, r) => Above(lo, sep) && Below(sep, hi) && GoodLeaf(h, l, m, lo, Some(sep)) && GoodLeaf(h, r, m, Some(sep), hi))
    && forall x :: PartsGet(parts, x) == if x == k then Some(v) else LeafGet(leaf, x)
  }

  ghost function PartsGet(parts: Parts, x: int): Option<int> {
    if !AllSized(parts.List()) then None else ListGet(parts.List(), x)
  }

  lemma GetWhole(l: Slots, x: int)
    requires |l.keys| == |l.vals| == |l.bits|
    ensures PartsGet(Whole(l), x) == LeafGet(l, x)
  {
    assert Whole(l).List() == [l] && [l][1..] == [];
    assert AllSized([l]) && ListGet([], x) == None;
  }

  lemma GetSplit(l: Slots, sep: int, r: Slots, x: int)
    requires |l.keys| == |l.vals| == |l.bits| && |r.keys| == |r.vals| == |r.bits|
    ensures PartsGet(Split(l, sep, r), x) == if LeafGet(l, x).Some? then LeafGet(l, x) else LeafGet(r, x)
  {
    var list := Split(l, sep, r).List();
    assert list == [l, r] && list[1..] == [r] && [r][1..] == [];
    assert AllSized(list) && AllSized([r]) && ListGet([], x) == None;
    assert ListGet([r], x) == LeafGet(r, x) && list[0] == l;
  }

  /** The pair goes to slot pos of the leaf. */
  lemma PutWhole(h: Hash, leaf: Slots, m: nat, pos: nat, k: int, v: int, lo: Option<int>, hi: Option<int>)
    requires LeafOk(h, leaf, m) && Inside(leaf, lo, hi) && pos < m && 0 <= k < MAX_KEY && AtLeast(lo, k) && Below(k, hi)
    requires forall i :: Stored(leaf, k, i) ==> i == pos
    requires leaf.bits[pos] ==> leaf.keys[pos] == k
    ensures PartsOk(h, leaf, m, Whole(Put(leaf, h, pos, k, v)), lo, hi, k, v)
  {
    PutOk(h, leaf, m, pos, k, v, lo, hi);
    var leaf' := Put(leaf, h, pos, k, v);
    forall x ensures PartsGet(Whole(leaf'), x) == if x == k then Some(v) else LeafGet(leaf, x) {
      GetWhole(leaf', x);
    }
  }

  lemma AbsentInPart(leaf: Slots, part: Slots, k: int)
    requires |leaf.keys| == |leaf.bits| && PartOf(leaf, part) && forall i :: !Stored(leaf, k, i)
    ensures forall i :: !Stored(part, k, i)
  {
    forall i ensures !Stored(part, k, i) {
      assert !Stored(leaf, k, i);
    }
  }

  /** A full leaf, cut at x, with the pair put to slot pos of the left half. */
  lemma PutLeft(h: Hash, leaf: Slots, m: nat, l: Slots, r: Slots, x: int, pos: nat, k: int, v: int, lo: Option<int>, hi: Option<int>)
    requires LeafOk(h, leaf, m) && Inside(leaf, lo, hi) && Halves(leaf, l, r, x) && NonEmpty(r)
    requires 0 <= k < MAX_KEY && AtLeast(lo, k) && Below(k, hi) && (forall i :: !Stored(leaf, k, i)) && pos < m && Above(lo, x) && Below(x, hi)
    requires !l.bits[pos] && k < x
    ensures PartsOk(h, leaf, m, Split(Put(l, h, pos, k, v), x, r), lo, hi, k, v)
  {
    HalvesOk(h, leaf, m, l, r, x, lo, hi);
    AbsentInPart(leaf, l, k);
    PutOk(h, l, m, pos, k, v, lo, Some(x));
    var l' := Put(l, h, pos, k, v);
    forall y ensures PartsGet(Split(l', x, r), y) == if y == k then Some(v) else LeafGet(leaf, y) {
      GetSplit(l', x, r, y);
    }
  }

  /** Or of the right half; the separator is the smallest key on the right. */
  lemma PutRight(h: Hash, leaf: Slots, m: nat, l: Slots, r: Slots, x: int, pos: nat, sep: int, k: int, v: int, lo: Option<int>, hi: Option<int>)
    requires LeafOk(h, leaf, m) && Inside(leaf, lo, hi) && Halves(leaf, l, r, x) && NonEmpty(l)
    requires 0 <= k < MAX_KEY && AtLeast(lo, k) && Below(k, hi) && (forall i :: !Stored(leaf, k, i)) && pos < m && Below(x, hi)
    requires !r.bits[pos] && sep == (if k < x then k else x) && Above(lo, sep) && forall i :: l.Uses(i) ==> l.keys[i] < k
    ensures PartsOk(h, leaf, m, Split(l, sep, Put(r, h, pos, k, v)), lo, hi, k, v)
  {
    HalvesOk(h, leaf, m, l, r, x, lo, hi);
    AbsentInPart(leaf, l, k);
    AbsentInPart(leaf, r, k);
    PutOk(h, r, m, pos, k, v, Some(sep), hi);
    var r' := Put(r, h, pos, k, v);
    forall y ensures PartsGet(Split(l, sep, r'), y) == if y == k then Some(v) else LeafGet(leaf, y) {
      GetSplit(l, sep, r', y);
    }
  }

  /** `splitLeafNode` of a full leaf: the right half is a copy of it at address y. */
  method SplitLeaf(h: Hash, leaf: Slots, m: nat, y: nat) returns (l: Slots, r: Slots, x: int)
    requires m >= 2 && LeafOk(h, leaf, m) && forall i :: 0 <= i < m ==> leaf.bits[i]
    ensures Halves(leaf, l, r, x) && NonEmpty(l) && NonEmpty(r) && exists i :: Stored(leaf, x, i)
    ensures l.id == leaf.id && r.id == y
  {
    assert FpSelect.Distinct(leaf.keys) by {
      forall i, j | 0 <= i < j < m ensures leaf.keys[i] != leaf.keys[j] {
        assert leaf.Uses(i) && leaf.Uses(j);
      }
    }
    var bits, splitPos := FpSelect.FindSplitKey(leaf.keys);
    x := leaf.keys[splitPos];
    l, r := Masked(leaf, bits), Masked(leaf, Flipped(bits)).(id := y);
    ghost var i := SomeSet(bits);
    assert l.Uses(i) && r.Uses(splitPos) && Stored(leaf, x, splitPos);
  }

  lemma {:induction false} SomeSet(bits: seq<bool>) returns (i: nat)
    requires FpSelect.CountSet(bits) > 0
    ensures i < |bits| && bits[i]
  {
    if bits[0] {
      i := 0;
    } else {
      i := SomeSet(bits[1..]);
      i := i + 1;
    }
  }

  /** The leaf is written in place; a right half goes to address y. */
  predicate Placed(leaf: Slots, parts: Parts, y: nat) {
    parts.l.id == leaf.id && (parts.Split? ==> parts.r.id == y)
  }

  /** `insertInLeafNode` */
  method InsertLeaf(h: Hash, leaf: Slots, m: nat, k: int, v: int, y: nat, ghost lo: Option<int>, ghost hi: Option<int>) returns (parts: Parts)
    requires m >= 2 && LeafOk(h, leaf, m) && Inside(leaf, lo, hi) && 0 <= k < MAX_KEY && AtLeast(lo, k) && Below(k, hi)
    ensures PartsOk(h, leaf, m, parts, lo, hi, k, v) && Placed(leaf, parts, y)
  {
    var pos := Position(h, leaf, m, k);
    if pos < m {
      PutWhole(h, leaf, m, pos, k, v, lo, hi);
      return Whole(Put(leaf, h, pos, k, v));
    }
    pos := FreeSlot(leaf, m);
    if pos < m {
      PutWhole(h, leaf, m, pos, k, v, lo, hi);
      return Whole(Put(leaf, h, pos, k, v));
    }
    parts := InsertFull(h, leaf, m, k, v, y, lo, hi);
  }

  /** The pair goes to the half of a full leaf that covers it; a key between the halves
      becomes the separator. */
  method InsertFull(h: Hash, leaf: Slots, m: nat, k: int, v: int, y: nat, ghost lo: Option<int>, ghost hi: Option<int>) returns (parts: Parts)
    requires m >= 2 && LeafOk(h, leaf, m) && Inside(leaf, lo, hi) && 0 <= k < MAX_KEY && AtLeast(lo, k) && Below(k, hi)
    requires (forall i :: 0 <= i < m ==> leaf.bits[i]) && forall i :: !Stored(leaf, k, i)
    ensures PartsOk(h, leaf, m, parts, lo, hi, k, v) && Placed(leaf, parts, y)
  {
    var l, r, x := SplitLeaf(h, leaf, m, y);
    SplitBounds(h, leaf, m, l, r, x, lo, hi);
    var max := MaxKeyPos(l, m);
    if k > x || k > l.keys[max] {
      var pos := FreeSlot(r, m);
      MaxBelow(h, leaf, m, l, r, x, max, k);
      PutRight(h, leaf, m, l, r, x, pos, if k < x then k else x, k, v, lo, hi);
      parts := Split(l, if k < x then k else x, Put(r, h, pos, k, v));
    } else {
      var pos := FreeSlot(l, m);
      PutLeft(h, leaf, m, l, r, x, pos, k, v, lo, hi);
      parts := Split(Put(l, h, pos, k, v), x, r);
    }
  }

  /** Neither half is full, and the split key lies strictly between the bounds. */
  lemma SplitBounds(h: Hash, leaf: Slots, m: nat, l: Slots, r: Slots, x: int, lo: Option<int>, hi: Option<int>)
    requires LeafOk(h, leaf, m) && Inside(leaf, lo, hi) && Halves(leaf, l, r, x) && NonEmpty(l) && NonEmpty(r)
    requires exists i :: Stored(leaf, x, i)
    ensures Above(lo, x) && Below(x, hi) && (exists i :: 0 <= i < m && !l.bits[i]) && exists i :: 0 <= i < m && !r.bits[i]
  {
    var i :| l.Uses(i);
    var j :| r.Uses(j);
    assert leaf.Uses(i) && leaf.Uses(j) && !l.Uses(j) && !r.Uses(i);
    var s :| Stored(leaf, x, s);
  }

  /** A key above the split key or above what was found as the largest key of the left
      half is above all of that half. */
  lemma MaxBelow(h: Hash, leaf: Slots, m: nat, l: Slots, r: Slots, x: int, max: nat, k: int)
    requires LeafOk(h, leaf, m) && Halves(leaf, l, r, x) && NonEmpty(l) && max < m && k >= 0 && (k > x || k > l.keys[max])
    requires (exists i :: l.Uses(i) && l.keys[i] > 0) ==> l.Uses(max) && forall i :: l.Uses(i) ==> l.keys[max] >= l.keys[i]
    requires (forall i :: 0 <= i < m ==> leaf.bits[i])
    ensures forall i :: l.Uses(i) ==> l.keys[i] < k
    ensures forall lo :: Inside(leaf, lo, None) ==> Above(lo, k)
  {
    forall i | l.Uses(i) ensures l.keys[i] < k {
      assert leaf.Uses(i) && leaf.Uses(max);
    }
    var i :| l.Uses(i);
    assert leaf.Uses(i);
  }
}
