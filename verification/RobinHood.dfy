/** The Robin Hood hash table as a value: info bytes, slots, and what probing,
    shifting up and shifting down do to them. */
module RobinHood {

  datatype Item = Item(key: int, val: int)

  /** Where a key belongs: its home slot, and the hash bits kept in the info byte. */
  type Placement = int -> (nat, nat)

  /** The info byte of a key with the given hash bits, d slots behind its home. */
  function InfoAt(inc: nat, d: nat, bits: nat): (x: nat)
    ensures x >= inc + bits
    ensures d > 0 ==> x >= 2 * inc
    ensures inc >= 2 ==> x >= d + 2
  {
    if d == 0 then inc + bits else InfoAt(inc, d - 1, bits) + inc
  }

  /** A used slot carries the distance and hash bits of its key. */
  ghost predicate SlotOk(w: Placement, inc: nat, info: seq<nat>, items: seq<Item>, i: nat)
    requires i < |items| < |info|
  {
    info[i] != 0 ==>
      && w(items[i].key).0 <= i && w(items[i].key).1 < inc
      && info[i] == InfoAt(inc, i - w(items[i].key).0, w(items[i].key).1)
  }

  /** Within a cluster slots are sorted by home, and by hash bits, descending, within
      one home; a cluster starts at the home of its first key. */
  predicate StepOk(inc: nat, info: seq<nat>, i: nat)
    requires 0 < i < |info|
  {
    info[i] != 0 ==> if info[i - 1] == 0 then info[i] < 2 * inc else info[i] <= info[i - 1] + inc
  }

  /** The bytes behind the last slot: a sentinel and padding. */
  predicate TailOk(info: seq<nat>, size: nat) {
    |info| == size + 8 && info[size] <= 1 && forall i :: size < i < size + 8 ==> info[i] == 0
  }

  ghost predicate Layout(w: Placement, inc: nat, info: seq<nat>, items: seq<Item>) {
    && inc >= 2 && TailOk(info, |items|)
    && (forall i :: 0 <= i < |items| ==> SlotOk(w, inc, info, items, i))
    && (forall i :: 0 < i < |items| ==> StepOk(inc, info, i))
  }

  /** Slot i holds the item. */
  predicate HasItem(info: seq<nat>, items: seq<Item>, i: nat, item: Item) {
    i < |items| && i < |info| && info[i] != 0 && items[i] == item
  }

  /** Every item in a slot is in the map. */
  ghost predicate Sound(info: seq<nat>, items: seq<Item>, content: map<int, int>) {
    forall i: nat, item: Item :: HasItem(info, items, i, item) ==> item.key in content && content[item.key] == item.val
  }

  /** No key is in two slots. */
  ghost predicate Unique(info: seq<nat>, items: seq<Item>) {
    forall i: nat, j: nat, a: Item, b: Item :: HasItem(info, items, i, a) && HasItem(info, items, j, b) && a.key == b.key ==> i == j
  }

  /** Every pair of the map is in a slot. */
  ghost predicate Complete(info: seq<nat>, items: seq<Item>, content: map<int, int>) {
    forall k :: k in content ==> exists i: nat :: HasItem(info, items, i, Item(k, content[k]))
  }

  /** The slots hold exactly the pairs of the map, each once. */
  ghost predicate Holds(info: seq<nat>, items: seq<Item>, content: map<int, int>) {
    Sound(info, items, content) && Unique(info, items) && Complete(info, items, content)
  }

  function CountUsed(info: seq<nat>, n: nat): (c: nat)
    requires n <= |info|
    ensures c <= n
  {
    if n == 0 then 0 else CountUsed(info, n - 1) + if info[n - 1] != 0 then 1 else 0
  }

  ghost predicate Bounded(info: seq<nat>, n: nat, limit: int) {
    n <= |info| && forall i :: 0 <= i < n ==> info[i] <= limit
  }

  /** Slots a to b - 1 are used. */
  predicate Run(info: seq<nat>, a: nat, b: nat) {
    b <= |info| && forall i :: a <= i < b ==> info[i] != 0
  }

  /** The bytes of slots p to e can be raised once more. */
  predicate Raisable(info: seq<nat>, inc: nat, p: nat, e: nat) {
    e < |info| && forall i :: p <= i <= e ==> info[i] + inc <= 255
  }

  // -------------------------------------------------------------------------- probing

  /** Every slot between the home of a stored key and its slot has an info byte at
      least as large as the one the search has reached there. */
  lemma {:induction false} ProbeReaches(w: Placement, inc: nat, info: seq<nat>, items: seq<Item>, i: nat, j: nat)
    requires Layout(w, inc, info, items) && i < |items| && info[i] != 0 && w(items[i].key).0 <= j <= i
    ensures info[j] >= InfoAt(inc, j - w(items[i].key).0, w(items[i].key).1)
    decreases i - j
  {
    assert SlotOk(w, inc, info, items, i);
    if j < i {
      ProbeReaches(w, inc, info, items, i, j + 1);
      assert StepOk(inc, info, j + 1);
    }
  }

  /** Once the search has passed the info byte of slot j, the key is in no slot from j on. */
  lemma AbsentFrom(w: Placement, inc: nat, info: seq<nat>, items: seq<Item>, k: int, j: nat)
    requires Layout(w, inc, info, items) && w(k).0 <= j <= |items|
    requires info[j] < InfoAt(inc, j - w(k).0, w(k).1)
    ensures forall i :: j <= i < |items| && info[i] != 0 ==> items[i].key != k
  {
    forall i | j <= i < |items| && info[i] != 0 ensures items[i].key != k {
      if items[i].key == k {
        ProbeReaches(w, inc, info, items, i, j);
      }
    }
  }

  /** A key is nowhere before its home. */
  lemma AbsentBefore(w: Placement, inc: nat, info: seq<nat>, items: seq<Item>, k: int)
    requires Layout(w, inc, info, items)
    ensures forall i :: 0 <= i < |items| && i < w(k).0 && info[i] != 0 ==> items[i].key != k
  {
    forall i | 0 <= i < |items| && i < w(k).0 && info[i] != 0 ensures items[i].key != k {
      assert SlotOk(w, inc, info, items, i);
    }
  }

  // ---------------------------------------------------------------- room in the buffer

  /** A run of used slots is no longer than the number of used slots. */
  lemma {:induction false} RunLength(info: seq<nat>, a: nat, b: nat, n: nat)
    requires a <= b <= n <= |info| && Run(info, a, b)
    ensures b - a <= CountUsed(info, n)
    decreases n
  {
    if n > b {
      RunLength(info, a, b, n - 1);
    } else if b > a {
      RunLength(info, a, b - 1, n - 1);
    }
  }

  /** A used slot is less than 254 slots behind a home: its info byte would overflow. */
  lemma UsedNearHome(w: Placement, inc: nat, info: seq<nat>, items: seq<Item>, n: nat, i: nat)
    requires Layout(w, inc, info, items) && i < |items| && 0 < info[i] <= 255 && forall k :: w(k).0 < n
    ensures i < n + 253
  {
    assert SlotOk(w, inc, info, items, i);
    assert w(items[i].key).0 < n;
  }

  /** The run of used slots from the home of a key on ends before the last slot. */
  lemma RunEnds(w: Placement, inc: nat, info: seq<nat>, items: seq<Item>, n: nat, room: nat, a: nat, b: nat)
    requires Layout(w, inc, info, items) && a < n && a <= b <= |items| && forall k :: w(k).0 < n
    requires |items| == n + (if room < 255 then room else 255) && CountUsed(info, |items|) < room
    requires Run(info, a, b) && Bounded(info, |items|, 255)
    ensures b < |items|
  {
    RunLength(info, a, b, |items|);
    if room >= 255 && b > a {
      UsedNearHome(w, inc, info, items, n, b - 1);
    }
  }

  // ------------------------------------------------------------------------ shifting up

  /** Slots p to e, the last of them free, moved up by one and a new one put at p. */
  ghost predicate ShiftedUp(inc: nat, info: seq<nat>, items: seq<Item>, info': seq<nat>, items': seq<Item>, p: nat, e: nat, x: nat, item: Item)
    requires |items| < |info|
  {
    && p <= e < |items| == |items'| && |info'| == |info|
    && (forall i {:trigger items'[i]} :: 0 <= i < p || e < i < |items| ==> items'[i] == items[i])
    && (forall i {:trigger info'[i]} :: 0 <= i < p || e < i < |info| ==> info'[i] == info[i])
    && (forall i {:trigger items'[i]} :: p < i <= e ==> items'[i] == items[i - 1])
    && (forall i {:trigger info'[i]} :: p < i <= e ==> info'[i] == info[i - 1] + inc)
    && items'[p] == item && info'[p] == x
  }

  /** The place where the search for an absent key ends. */
  ghost predicate Landed(w: Placement, inc: nat, info: seq<nat>, items: seq<Item>, k: int, p: nat)
    requires |items| < |info|
  {
    && w(k).0 <= p < |items| && w(k).1 < inc && info[p] < InfoAt(inc, p - w(k).0, w(k).1)
    && (p > w(k).0 ==> info[p - 1] >= InfoAt(inc, p - 1 - w(k).0, w(k).1))
  }

  lemma ShiftUpKeepsSteps(w: Placement, inc: nat, info: seq<nat>, items: seq<Item>, info': seq<nat>, items': seq<Item>, p: nat, e: nat, item: Item)
    requires Layout(w, inc, info, items) && Landed(w, inc, info, items, item.key, p)
    requires ShiftedUp(inc, info, items, info', items', p, e, InfoAt(inc, p - w(item.key).0, w(item.key).1), item)
    requires info[e] == 0 && Run(info, p, e)
    ensures forall i :: 0 < i < |items| ==> StepOk(inc, info', i)
  {
    forall i | 0 < i < |items| ensures StepOk(inc, info', i) {
      assert StepOk(inc, info, i);
      if i == p {
        assert info[p - 1] != 0 ==> info[p - 1] >= inc by {
          assert SlotOk(w, inc, info, items, p - 1);
        }
      } else if p + 1 < i <= e {
        assert StepOk(inc, info, i - 1);
      }
    }
  }

  lemma ShiftUpKeepsSlots(w: Placement, inc: nat, info: seq<nat>, items: seq<Item>, info': seq<nat>, items': seq<Item>, p: nat, e: nat, item: Item)
    requires Layout(w, inc, info, items) && Landed(w, inc, info, items, item.key, p)
    requires ShiftedUp(inc, info, items, info', items', p, e, InfoAt(inc, p - w(item.key).0, w(item.key).1), item)
    requires info[e] == 0 && Run(info, p, e)
    ensures TailOk(info', |items'|) && forall i :: 0 <= i < |items'| ==> SlotOk(w, inc, info', items', i)
  {
    forall i | 0 <= i < |items'| ensures SlotOk(w, inc, info', items', i) {
      assert SlotOk(w, inc, info, items, i);
      if p < i <= e {
        assert SlotOk(w, inc, info, items, i - 1);
      }
    }
  }

  /** Where slot i comes from, unless it is the new one, and where it goes to. */
  function UpFrom(p: nat, e: nat, i: nat): nat {
    if p < i <= e then i - 1 else i
  }

  function UpTo(p: nat, e: nat, i: nat): nat {
    if p <= i < e then i + 1 else i
  }

  ghost predicate MovesUp(inc: nat, info: seq<nat>, items: seq<Item>, info': seq<nat>, items': seq<Item>, p: nat, e: nat, x: nat, item: Item) {
    && |items| < |info| && inc > 0 && x > 0 && ShiftedUp(inc, info, items, info', items', p, e, x, item)
    && info[e] == 0 && Run(info, p, e)
  }

  lemma UpMoves(inc: nat, info: seq<nat>, items: seq<Item>, info': seq<nat>, items': seq<Item>, p: nat, e: nat, x: nat, item: Item, i: nat, a: Item)
    requires MovesUp(inc, info, items, info', items', p, e, x, item)
    ensures HasItem(info', items', i, a) ==> if i == p then a == item else HasItem(info, items, UpFrom(p, e, i), a)
    ensures HasItem(info, items, i, a) ==> HasItem(info', items', UpTo(p, e, i), a)
    ensures HasItem(info', items', p, item)
  {
  }

  lemma ShiftUpHolds(inc: nat, info: seq<nat>, items: seq<Item>, info': seq<nat>, items': seq<Item>, p: nat, e: nat, x: nat, item: Item, content: map<int, int>)
    requires MovesUp(inc, info, items, info', items', p, e, x, item) && Holds(info, items, content) && item.key !in content
    ensures Holds(info', items', content[item.key := item.val])
  {
    var content' := content[item.key := item.val];
    forall i: nat, a: Item | HasItem(info', items', i, a) ensures a.key in content' && content'[a.key] == a.val {
      UpMoves(inc, info, items, info', items', p, e, x, item, i, a);
    }
    forall i: nat, j: nat, a: Item, b: Item | HasItem(info', items', i, a) && HasItem(info', items', j, b) && a.key == b.key ensures i == j {
      UpMoves(inc, info, items, info', items', p, e, x, item, i, a);
      UpMoves(inc, info, items, info', items', p, e, x, item, j, b);
    }
    forall k | k in content' ensures exists i: nat :: HasItem(info', items', i, Item(k, content'[k])) {
      if k == item.key {
        UpMoves(inc, info, items, info', items', p, e, x, item, p, item);
      } else {
        var i: nat :| HasItem(info, items, i, Item(k, content[k]));
        UpMoves(inc, info, items, info', items', p, e, x, item, i, Item(k, content[k]));
      }
    }
  }

  lemma {:induction false} CountGrows(info: seq<nat>, info': seq<nat>, e: nat, n: nat)
    requires |info| == |info'| && n <= |info| && forall i :: 0 <= i < |info| ==> ((info'[i] != 0) <==> (info[i] != 0 || i == e))
    requires e < |info| && info[e] == 0
    ensures CountUsed(info', n) == CountUsed(info, n) + if e < n then 1 else 0
    decreases n
  {
    if n > 0 {
      CountGrows(info, info', e, n - 1);
    }
  }

  // ---------------------------------------------------------------------- shifting down

  /** Slots p + 1 to e - 1 moved down by one over slot p. */
  ghost predicate ShiftedDown(inc: nat, info: seq<nat>, items: seq<Item>, info': seq<nat>, items': seq<Item>, p: nat, e: nat)
    requires |items| < |info|
  {
    && p < e <= |items| == |items'| && |info'| == |info|
    && (forall i {:trigger items'[i]} :: 0 <= i < p || e <= i < |items| ==> items'[i] == items[i])
    && (forall i {:trigger info'[i]} :: 0 <= i < p || e <= i < |info| ==> info'[i] == info[i])
    && (forall i {:trigger items'[i]} :: p <= i < e - 1 ==> items'[i] == items[i + 1])
    && (forall i {:trigger info'[i]} :: p <= i < e - 1 ==> info'[i] == info[i + 1] - inc)
    && info'[e - 1] == 0
  }

  lemma ShiftDownKeepsSteps(w: Placement, inc: nat, info: seq<nat>, items: seq<Item>, info': seq<nat>, items': seq<Item>, p: nat, e: nat)
    requires Layout(w, inc, info, items) && p < |items| && info[p] != 0
    requires ShiftedDown(inc, info, items, info', items', p, e)
    requires (forall i :: p < i < e ==> info[i] >= 2 * inc) && info[e] < 2 * inc
    ensures forall i :: 0 < i < |items| ==> StepOk(inc, info', i)
  {
    forall i | 0 < i < |items| ensures StepOk(inc, info', i) {
      assert StepOk(inc, info, i);
      if p <= i < e - 1 {
        assert StepOk(inc, info, i + 1);
      }
    }
  }

  lemma ShiftDownKeepsSlots(w: Placement, inc: nat, info: seq<nat>, items: seq<Item>, info': seq<nat>, items': seq<Item>, p: nat, e: nat)
    requires Layout(w, inc, info, items) && p < |items|
    requires ShiftedDown(inc, info, items, info', items', p, e)
    requires forall i :: p < i < e ==> info[i] >= 2 * inc
    ensures TailOk(info', |items'|) && forall i :: 0 <= i < |items'| ==> SlotOk(w, inc, info', items', i)
  {
    forall i | 0 <= i < |items'| ensures SlotOk(w, inc, info', items', i) {
      assert SlotOk(w, inc, info, items, i);
      if p <= i < e - 1 {
        assert SlotOk(w, inc, info, items, i + 1);
      }
    }
  }

  function DownFrom(p: nat, e: nat, i: nat): nat {
    if p <= i < e - 1 then i + 1 else i
  }

  function DownTo(p: nat, e: nat, i: nat): nat {
    if p < i < e then i - 1 else i
  }

  ghost predicate MovesDown(inc: nat, info: seq<nat>, items: seq<Item>, info': seq<nat>, items': seq<Item>, p: nat, e: nat) {
    && |items| < |info| && inc > 0 && p < |items| && info[p] != 0 && ShiftedDown(inc, info, items, info', items', p, e)
    && forall i :: p < i < e ==> info[i] >= 2 * inc
  }

  lemma DownMoves(inc: nat, info: seq<nat>, items: seq<Item>, info': seq<nat>, items': seq<Item>, p: nat, e: nat, i: nat, a: Item)
    requires MovesDown(inc, info, items, info', items', p, e)
    ensures HasItem(info', items', i, a) ==> DownFrom(p, e, i) != p && i != e - 1 && HasItem(info, items, DownFrom(p, e, i), a)
    ensures i != p && HasItem(info, items, i, a) ==> HasItem(info', items', DownTo(p, e, i), a)
  {
  }

  lemma ShiftDownHolds(inc: nat, info: seq<nat>, items: seq<Item>, info': seq<nat>, items': seq<Item>, p: nat, e: nat, content: map<int, int>)
    requires MovesDown(inc, info, items, info', items', p, e) && Holds(info, items, content)
    ensures Holds(info', items', content - {items[p].key})
  {
    var content' := content - {items[p].key};
    assert HasItem(info, items, p, items[p]);
    forall i: nat, a: Item | HasItem(info', items', i, a) ensures a.key in content' && content'[a.key] == a.val {
      DownMoves(inc, info, items, info', items', p, e, i, a);
    }
    forall i: nat, j: nat, a: Item, b: Item | HasItem(info', items', i, a) && HasItem(info', items', j, b) && a.key == b.key ensures i == j {
      DownMoves(inc, info, items, info', items', p, e, i, a);
      DownMoves(inc, info, items, info', items', p, e, j, b);
    }
    forall k | k in content' ensures exists i: nat :: HasItem(info', items', i, Item(k, content'[k])) {
      var i: nat :| HasItem(info, items, i, Item(k, content[k]));
      DownMoves(inc, info, items, info', items', p, e, i, Item(k, content[k]));
    }
  }

  lemma {:induction false} CountShrinks(info: seq<nat>, info': seq<nat>, e: nat, n: nat)
    requires |info| == |info'| && n <= |info| && forall i :: 0 <= i < |info| ==> ((info'[i] != 0) <==> (info[i] != 0 && i != e))
    requires e < |info| && info[e] != 0
    ensures CountUsed(info', n) + (if e < n then 1 else 0) == CountUsed(info, n)
    decreases n
  {
    if n > 0 {
      CountShrinks(info, info', e, n - 1);
    }
  }

  // ------------------------------------------------------------------- the whole table

  function Min(a: nat, b: nat): nat {
    if a < b then a else b
  }

  /** A table of n home slots for up to `room` keys. As long as `allowed` is not 0, no
      info byte is too close to overflow for one more shift. */
  ghost predicate TableOk(w: Placement, inc: nat, n: nat, room: nat, info: seq<nat>, items: seq<Item>, content: map<int, int>,
                          count: nat, allowed: nat)
  {
    && inc <= 32 && Layout(w, inc, info, items) && Holds(info, items, content)
    && count == CountUsed(info, |items|) && count <= room && Bounded(info, |items|, 255)
    && (allowed == 0 || (allowed == room && Bounded(info, |items|, 255 - inc)))
    && (if |items| == 0 then room == 0 else |items| == n + Min(room, 255))
    && forall k :: w(k).0 < n && w(k).1 < inc
  }

  /** Inserting an absent key where its search landed. */
  lemma InsertKeeps(w: Placement, inc: nat, n: nat, room: nat, info: seq<nat>, items: seq<Item>, content: map<int, int>, count: nat, allowed: nat,
                    info': seq<nat>, items': seq<Item>, p: nat, e: nat, item: Item, allowed': nat)
    requires TableOk(w, inc, n, room, info, items, content, count, allowed) && item.key !in content && count < room && allowed != 0
    requires Landed(w, inc, info, items, item.key, p)
    requires ShiftedUp(inc, info, items, info', items', p, e, InfoAt(inc, p - w(item.key).0, w(item.key).1), item)
    requires info[e] == 0 && Run(info, p, e)
    requires allowed' == 0 || (allowed' == allowed && Raisable(info', inc, p, e))
    ensures TableOk(w, inc, n, room, info', items', content[item.key := item.val], count + 1, allowed')
  {
    ShiftUpKeepsSteps(w, inc, info, items, info', items', p, e, item);
    ShiftUpKeepsSlots(w, inc, info, items, info', items', p, e, item);
    ShiftUpHolds(inc, info, items, info', items', p, e, InfoAt(inc, p - w(item.key).0, w(item.key).1), item, content);
    CountGrows(info, info', e, |items|);
    NewByteFits(w, inc, info, items, item.key, p);
  }

  /** The byte of a new key is at most one step above its left neighbour. */
  lemma NewByteFits(w: Placement, inc: nat, info: seq<nat>, items: seq<Item>, k: int, p: nat)
    requires |items| < |info| && inc <= 32 && Landed(w, inc, info, items, k, p) && Bounded(info, |items|, 255 - inc)
    ensures InfoAt(inc, p - w(k).0, w(k).1) <= 255
  {
    if p > w(k).0 {
      assert info[p - 1] <= 255 - inc;
    }
  }

  /** Erasing the key in slot p. */
  lemma EraseKeeps(w: Placement, inc: nat, n: nat, room: nat, info: seq<nat>, items: seq<Item>, content: map<int, int>, count: nat, allowed: nat,
                   info': seq<nat>, items': seq<Item>, p: nat, e: nat)
    requires TableOk(w, inc, n, room, info, items, content, count, allowed) && p < |items| && info[p] != 0
    requires ShiftedDown(inc, info, items, info', items', p, e)
    requires (forall i :: p < i < e ==> info[i] >= 2 * inc) && info[e] < 2 * inc
    ensures count > 0 && TableOk(w, inc, n, room, info', items', content - {items[p].key}, count - 1, allowed)
  {
    ShiftDownKeepsSteps(w, inc, info, items, info', items', p, e);
    ShiftDownKeepsSlots(w, inc, info, items, info', items', p, e);
    ShiftDownHolds(inc, info, items, info', items', p, e, content);
    CountShrinks(info, info', e - 1, |items|);
    DownBounded(w, inc, info, items, info', items', p, e, 255);
    if allowed != 0 {
      DownBounded(w, inc, info, items, info', items', p, e, 255 - inc);
    }
  }

  lemma DownBounded(w: Placement, inc: nat, info: seq<nat>, items: seq<Item>, info': seq<nat>, items': seq<Item>, p: nat, e: nat, limit: int)
    requires |items| < |info| && ShiftedDown(inc, info, items, info', items', p, e) && Bounded(info, |items|, limit) && limit >= 0
    ensures Bounded(info', |items'|, limit)
  {
  }

  // ----------------------------------------------------------------------- halving bytes

  lemma {:induction false} InfoHalves(half: nat, d: nat, bits: nat)
    ensures InfoAt(2 * half, d, bits) / 2 == InfoAt(half, d, bits / 2)
  {
    if d > 0 {
      InfoHalves(half, d - 1, bits);
    }
  }

  /** The placement with one hash bit fewer. */
  ghost predicate Coarser(w: Placement, w': Placement) {
    forall k :: w'(k) == (w(k).0, w(k).1 / 2)
  }

  /** Halving every byte keeps the distance of every slot and the order of the slots. */
  lemma HalvingKeeps(w: Placement, w': Placement, half: nat, n: nat, room: nat, info: seq<nat>, items: seq<Item>, content: map<int, int>, count: nat, allowed: nat,
                     info': seq<nat>)
    requires TableOk(w, 2 * half, n, room, info, items, content, count, allowed) && half >= 2 && Coarser(w, w')
    requires TailOk(info', |items|) && forall i :: 0 <= i < |items| ==> info'[i] == info[i] / 2
    ensures TableOk(w', half, n, room, info', items, content, count, room)
  {
    forall i | 0 <= i < |items|
      ensures SlotOk(w', half, info', items, i)
      ensures (info'[i] != 0) <==> (info[i] != 0)
    {
      assert SlotOk(w, 2 * half, info, items, i);
      if info[i] != 0 {
        InfoHalves(half, i - w(items[i].key).0, w(items[i].key).1);
      }
    }
    forall i | 0 < i < |items| ensures StepOk(half, info', i) {
      assert StepOk(2 * half, info, i);
    }
    SameUse(info, info', items, content);
    CountSame(info, info', |items|);
  }

  lemma SameUse(info: seq<nat>, info': seq<nat>, items: seq<Item>, content: map<int, int>)
    requires |info| == |info'| >= |items| && forall i :: 0 <= i < |items| ==> ((info'[i] != 0) <==> (info[i] != 0))
    requires Holds(info, items, content)
    ensures Holds(info', items, content)
  {
    assert forall i: nat, a: Item :: HasItem(info', items, i, a) <==> HasItem(info, items, i, a);
  }

  lemma {:induction false} CountSame(info: seq<nat>, info': seq<nat>, n: nat)
    requires n <= |info| && n <= |info'| && forall i :: 0 <= i < n ==> ((info'[i] != 0) <==> (info[i] != 0))
    ensures CountUsed(info', n) == CountUsed(info, n)
  {
    if n > 0 {
      CountSame(info, info', n - 1);
    }
  }

  /** Bytes read as one number, least significant byte first. */
  function Word(bytes: seq<nat>): nat {
    if bytes == [] then 0 else bytes[0] + 256 * Word(bytes[1..])
  }

  /** A number of k bytes with the top bit of every byte cleared. */
  function Masked(word: nat, k: nat): nat {
    if k == 0 then 0 else word % 256 % 128 + 256 * Masked(word / 256, k - 1)
  }

  function Bytes(word: nat, k: nat): (bytes: seq<nat>)
    ensures |bytes| == k
  {
    if k == 0 then [] else [word % 256] + Bytes(word / 256, k - 1)
  }

  /** Shifting a word right by one bit and clearing the bits that crossed into the
      byte below halves every byte. */
  lemma {:induction false} WordHalves(bytes: seq<nat>)
    requires forall i :: 0 <= i < |bytes| ==> bytes[i] < 256
    ensures Bytes(Masked(Word(bytes) / 2, |bytes|), |bytes|) == seq(|bytes|, i requires 0 <= i < |bytes| => bytes[i] / 2)
  {
    if bytes != [] {
      var b, rest, k := bytes[0], Word(bytes[1..]), |bytes| - 1;
      WordHalves(bytes[1..]);
      LowByteHalves(b / 2, b % 2, rest / 2, rest % 2);
      assert Word(bytes) == b + 256 * rest;
      assert Masked(Word(bytes) / 2, |bytes|) == b / 2 + 256 * Masked(rest / 2, k);
      LowByte(b / 2, Masked(rest / 2, k));
      assert Bytes(Masked(Word(bytes) / 2, |bytes|), |bytes|) == [b / 2] + Bytes(Masked(rest / 2, k), k);
    }
  }

  lemma LowByte(b: nat, rest: nat)
    requires b < 256
    ensures (b + 256 * rest) % 256 == b && (b + 256 * rest) / 256 == rest
  {
  }

  /** The word 2 * h + r, q and s above it, shifted right by one bit. */
  lemma LowByteHalves(h: nat, r: nat, q: nat, s: nat)
    requires h < 128 && r < 2 && s < 2
    ensures var half := (2 * h + r + 256 * (2 * q + s)) / 2;
            half % 256 % 128 == h && half / 256 == q
  {
    var half := h + 128 * s + 256 * q;
    assert (2 * h + r + 256 * (2 * q + s)) / 2 == half;
    LowByte(h + 128 * s, q);
  }

  // ------------------------------------------------------------------- ends of searches

  /** No slot before idx holds k. */
  ghost predicate Passed(info: seq<nat>, items: seq<Item>, k: int, idx: nat)
    requires |items| <= |info|
  {
    forall i :: 0 <= i < idx && i < |items| && info[i] != 0 ==> items[i].key != k
  }

  /** A slot whose byte or key does not match does not hold k. */
  lemma PassOne(w: Placement, inc: nat, info: seq<nat>, items: seq<Item>, k: int, idx: nat)
    requires Layout(w, inc, info, items) && Passed(info, items, k, idx) && w(k).0 <= idx
    requires idx < |items| ==> info[idx] != InfoAt(inc, idx - w(k).0, w(k).1) || items[idx].key != k
    ensures Passed(info, items, k, idx + 1)
  {
    if idx < |items| {
      assert SlotOk(w, inc, info, items, idx);
    }
  }

  /** Behind the slots no byte is as large as that of a key. */
  lemma TailSmall(w: Placement, inc: nat, info: seq<nat>, items: seq<Item>, idx: nat, x: nat)
    requires Layout(w, inc, info, items) && idx < |info| && x >= inc && x <= info[idx]
    ensures idx < |items|
  {
  }

  lemma SearchFails(w: Placement, inc: nat, info: seq<nat>, items: seq<Item>, content: map<int, int>, k: int, idx: nat)
    requires Layout(w, inc, info, items) && Holds(info, items, content) && Passed(info, items, k, idx) && w(k).0 <= idx < |info|
    requires info[idx] < InfoAt(inc, idx - w(k).0, w(k).1)
    ensures k !in content
  {
    if idx <= |items| {
      AbsentFrom(w, inc, info, items, k, idx);
    }
  }

  /** A search for k that has come to slot idx without meeting it. */
  ghost predicate Seeking(w: Placement, inc: nat, info: seq<nat>, items: seq<Item>, k: int, idx: nat)
    requires |items| < |info|
  {
    && w(k).0 <= idx <= |items| && Passed(info, items, k, idx) && Run(info, w(k).0, idx)
    && (idx > w(k).0 ==> info[idx - 1] >= InfoAt(inc, idx - 1 - w(k).0, w(k).1))
  }

  lemma SeekOne(w: Placement, inc: nat, info: seq<nat>, items: seq<Item>, k: int, idx: nat)
    requires Layout(w, inc, info, items) && Seeking(w, inc, info, items, k, idx) && idx < |items|
    requires info[idx] >= InfoAt(inc, idx - w(k).0, w(k).1)
    requires info[idx] != InfoAt(inc, idx - w(k).0, w(k).1) || items[idx].key != k
    ensures Seeking(w, inc, info, items, k, idx + 1)
  {
    PassOne(w, inc, info, items, k, idx);
  }

  /** From one slot to the next the byte rises by at most one step. */
  lemma StepBound(w: Placement, inc: nat, info: seq<nat>, items: seq<Item>, i: nat)
    requires Layout(w, inc, info, items) && i < |items| && info[i] != 0
    ensures info[i + 1] <= info[i] + inc
  {
    if i + 1 < |items| {
      assert StepOk(inc, info, i + 1);
    }
  }

  // ---------------------------------------------------------------------------- rehashing

  lemma {:induction false} NoneUsed(info: seq<nat>, n: nat)
    requires n <= |info| && forall i :: 0 <= i < n ==> info[i] == 0
    ensures CountUsed(info, n) == 0
  {
    if n > 0 {
      NoneUsed(info, n - 1);
    }
  }

  /** A slot in use is counted. */
  lemma {:induction false} CountBelow(info: seq<nat>, i: nat, n: nat)
    requires i < n <= |info| && info[i] != 0
    ensures CountUsed(info, i) < CountUsed(info, n)
  {
    if n > i + 1 {
      CountBelow(info, i, n - 1);
    }
  }

  datatype MoveClause = StartClause | BackClause | ForthClause

  ghost predicate MoveMeets(c: MoveClause, info: seq<nat>, items: seq<Item>, content: map<int, int>, now: map<int, int>, n: nat) {
    match c
    case StartClause => Holds(info, items, content)
    case BackClause =>
      forall k :: k in now ==> k in content && now[k] == content[k] && exists i: nat :: i < n && HasItem(info, items, i, Item(k, now[k]))
    case ForthClause => forall i: nat, a: Item :: i < n && HasItem(info, items, i, a) ==> a.key in now
  }

  /** `now` holds the items of the first n slots. */
  ghost predicate Moved(info: seq<nat>, items: seq<Item>, content: map<int, int>, now: map<int, int>, n: nat) {
    forall c :: MoveMeets(c, info, items, content, now, n)
  }

  lemma MovedClauses(info: seq<nat>, items: seq<Item>, content: map<int, int>, now: map<int, int>, n: nat)
    ensures Moved(info, items, content, now, n) <==>
              && MoveMeets(StartClause, info, items, content, now, n)
              && MoveMeets(BackClause, info, items, content, now, n)
              && MoveMeets(ForthClause, info, items, content, now, n)
  {
    if && MoveMeets(StartClause, info, items, content, now, n)
       && MoveMeets(BackClause, info, items, content, now, n)
       && MoveMeets(ForthClause, info, items, content, now, n)
    {
      forall c ensures MoveMeets(c, info, items, content, now, n) {
        match c
        case StartClause => case BackClause => case ForthClause =>
      }
    }
  }

  lemma NothingMoved(info: seq<nat>, items: seq<Item>, content: map<int, int>)
    requires Holds(info, items, content)
    ensures Moved(info, items, content, map[], 0)
  {
    MovedClauses(info, items, content, map[], 0);
  }

  lemma MovedIsSubMap(info: seq<nat>, items: seq<Item>, content: map<int, int>, now: map<int, int>, n: nat)
    requires Moved(info, items, content, now, n)
    ensures forall k :: k in now ==> k in content && content[k] == now[k]
  {
    MovedClauses(info, items, content, now, n);
  }

  lemma NotMoved(info: seq<nat>, items: seq<Item>, content: map<int, int>, now: map<int, int>, n: nat)
    requires n < |items| <= |info| && info[n] != 0 && Moved(info, items, content, now, n)
    ensures items[n].key !in now && Moved(info, items, content, now[items[n].key := items[n].val], n + 1)
  {
    MovedClauses(info, items, content, now, n);
    var item := items[n];
    assert HasItem(info, items, n, item);
    var now' := now[item.key := item.val];
    forall k | k in now' ensures k in content && now'[k] == content[k] && exists i: nat :: i < n + 1 && HasItem(info, items, i, Item(k, now'[k])) {
      if k != item.key {
        var i: nat :| i < n && HasItem(info, items, i, Item(k, now[k]));
      } else {
        assert item == Item(k, now'[k]);
      }
    }
    MovedClauses(info, items, content, now', n + 1);
  }

  lemma SkipMoved(info: seq<nat>, items: seq<Item>, content: map<int, int>, now: map<int, int>, n: nat)
    requires n < |items| <= |info| && info[n] == 0 && Moved(info, items, content, now, n)
    ensures Moved(info, items, content, now, n + 1)
  {
    MovedClauses(info, items, content, now, n);
    forall k | k in now ensures k in content && now[k] == content[k] && exists i: nat :: i < n + 1 && HasItem(info, items, i, Item(k, now[k])) {
      var i: nat :| i < n && HasItem(info, items, i, Item(k, now[k]));
    }
    MovedClauses(info, items, content, now, n + 1);
  }

  lemma AllMoved(info: seq<nat>, items: seq<Item>, content: map<int, int>, now: map<int, int>)
    requires Moved(info, items, content, now, |items|)
    ensures now == content
  {
    MovedClauses(info, items, content, now, |items|);
    forall k | k in content.Keys ensures k in now.Keys {
      var i: nat :| HasItem(info, items, i, Item(k, content[k]));
      assert i < |items|;
    }
    forall k | k in now.Keys ensures k in content.Keys && now[k] == content[k] {
      assert k in now;
    }
  }

  /** A table without items. */
  lemma EmptyTable(w: Placement, inc: nat, n: nat, room: nat, info: seq<nat>, items: seq<Item>)
    requires 2 <= inc <= 32 && |items| == n + Min(room, 255) > 0 && |info| == |items| + 8 && (forall k :: w(k).0 < n && w(k).1 < inc)
    requires forall i :: 0 <= i < |info| ==> info[i] == if i == |items| then 1 else 0
    ensures TableOk(w, inc, n, room, info, items, map[], 0, room)
  {
    NoneUsed(info, |items|);
  }

  lemma NoContent(info: seq<nat>, items: seq<Item>, content: map<int, int>)
    requires items == [] && Holds(info, items, content)
    ensures content == map[]
  {
    assert forall i: nat, a: Item :: !HasItem(info, items, i, a);
    assert forall k :: k !in content.Keys;
  }

  /** A new value in slot p. */
  lemma AssignKeeps(w: Placement, inc: nat, info: seq<nat>, items: seq<Item>, content: map<int, int>, items': seq<Item>, p: nat, v: int)
    requires Layout(w, inc, info, items) && Holds(info, items, content) && p < |items| && info[p] != 0
    requires items' == items[p := Item(items[p].key, v)]
    ensures Layout(w, inc, info, items') && Holds(info, items', content[items[p].key := v])
  {
    var key, content' := items[p].key, content[items[p].key := v];
    assert HasItem(info, items, p, items[p]) && HasItem(info, items', p, Item(key, v));
    forall i | 0 <= i < |items'| ensures SlotOk(w, inc, info, items', i) {
      assert SlotOk(w, inc, info, items, i);
    }
    forall i: nat, a: Item | HasItem(info, items', i, a) ensures a.key in content' && content'[a.key] == a.val && HasItem(info, items, i, items[i]) {
      assert HasItem(info, items, i, items[i]);
    }
    forall i: nat, j: nat, a: Item, b: Item | HasItem(info, items', i, a) && HasItem(info, items', j, b) && a.key == b.key ensures i == j {
      assert HasItem(info, items, i, items[i]) && HasItem(info, items, j, items[j]);
    }
    forall k | k in content' ensures exists i: nat :: HasItem(info, items', i, Item(k, content'[k])) {
      if k != key {
        var i: nat :| HasItem(info, items, i, Item(k, content[k]));
        assert HasItem(info, items', i, Item(k, content'[k]));
      }
    }
  }
}
