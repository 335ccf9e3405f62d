/** How many keys a table must hold before an info byte overflows. */
module RobinHoodLimits {
  import opened RobinHood

  lemma {:induction false} InfoGrows(inc: nat, d: nat, bits: nat)
    requires inc >= 2
    ensures InfoAt(inc, d, bits) >= 2 * d + 2 + bits && (inc == 2 ==> InfoAt(inc, d, bits) == 2 * d + 2 + bits)
  {
    if d > 0 {
      InfoGrows(inc, d - 1, bits);
    }
  }

  /** A byte among the first `size` that cannot be raised once more. */
  ghost predicate Crowded(info: seq<nat>, inc: nat, size: nat) {
    exists i: nat :: i < size && i < |info| && info[i] + inc > 255
  }

  /** At the smallest increment a byte is full only at the end of a run of 127 keys. */
  lemma CrowdedIsLong(w: Placement, info: seq<nat>, items: seq<Item>)
    requires Layout(w, 2, info, items) && Crowded(info, 2, |items|)
    ensures CountUsed(info, |items|) >= 127
  {
    var i: nat :| i < |items| && info[i] + 2 > 255;
    assert SlotOk(w, 2, info, items, i);
    var home := w(items[i].key).0;
    InfoGrows(2, i - home, w(items[i].key).1);
    forall j | home <= j < i + 1 ensures info[j] != 0 {
      ProbeReaches(w, 2, info, items, i, j);
    }
    RunLength(info, home, i + 1, |items|);
  }

  /** Every key has the same home and the same hash bits. */
  ghost predicate AllTogether(w: Placement, home: nat, bits: nat) {
    forall k :: w(k) == (home, bits)
  }

  lemma {:induction false} CountWindow(info: seq<nat>, a: nat, b: nat, n: nat)
    requires n <= |info| && a <= b && forall i :: 0 <= i < n && info[i] != 0 ==> a <= i < b
    ensures CountUsed(info, n) <= (if n <= a then 0 else Min(n, b) - a)
  {
    if n > 0 {
      CountWindow(info, a, b, n - 1);
    }
  }

  /** One home has room for 127 keys, whatever the size of the table. */
  lemma OneHomeLimit(w: Placement, inc: nat, info: seq<nat>, items: seq<Item>, home: nat, bits: nat)
    requires Layout(w, inc, info, items) && Bounded(info, |items|, 255) && AllTogether(w, home, bits)
    ensures CountUsed(info, |items|) <= 127
  {
    forall i | 0 <= i < |items| && info[i] != 0 ensures home <= i < home + 127 {
      assert SlotOk(w, inc, info, items, i);
      InfoGrows(inc, i - home, bits);
    }
    CountWindow(info, home, home + 127, |items|);
  }

  // ---------------------------------------------------------------- the number of keys

  /** The keys in the first n slots. */
  function Keys(info: seq<nat>, items: seq<Item>, n: nat): (keys: set<int>)
    requires n <= |items| <= |info|
    ensures forall k :: k in keys <==> exists i: nat :: i < n && info[i] != 0 && items[i].key == k
  {
    if n == 0 then {}
    else Keys(info, items, n - 1) + if info[n - 1] != 0 then {items[n - 1].key} else {}
  }

  lemma NextKeyIsNew(info: seq<nat>, items: seq<Item>, n: nat)
    requires n < |items| <= |info| && Unique(info, items) && info[n] != 0
    ensures items[n].key !in Keys(info, items, n)
  {
    if items[n].key in Keys(info, items, n) {
      var i: nat :| i < n && info[i] != 0 && items[i].key == items[n].key;
      assert HasItem(info, items, i, items[i]) && HasItem(info, items, n, items[n]);
    }
  }

  lemma {:induction false} KeysCounted(info: seq<nat>, items: seq<Item>, n: nat)
    requires n <= |items| <= |info| && Unique(info, items)
    ensures |Keys(info, items, n)| == CountUsed(info, n)
  {
    if n > 0 {
      KeysCounted(info, items, n - 1);
      if info[n - 1] != 0 {
        NextKeyIsNew(info, items, n - 1);
      }
    }
  }

  /** The used slots are as many as the keys of the map. */
  lemma CountIsSize(info: seq<nat>, items: seq<Item>, content: map<int, int>)
    requires |items| <= |info| && Holds(info, items, content)
    ensures |content| == CountUsed(info, |items|)
  {
    KeysCounted(info, items, |items|);
    forall k | k in content ensures k in Keys(info, items, |items|) {
      var i: nat :| HasItem(info, items, i, Item(k, content[k]));
      assert items[i].key == k;
    }
    forall k | k in Keys(info, items, |items|) ensures k in content.Keys {
      var i: nat :| i < |items| && info[i] != 0 && items[i].key == k;
      assert HasItem(info, items, i, items[i]);
    }
    assert Keys(info, items, |items|) == content.Keys;
  }

  // -------------------------------------------------------------- the number of attempts

  /** A bound on the calls of `increase_size` until a table with at most 126 keys can
      take one more. */
  function Attempts(size: nat, count: nat, allowed: nat, room: nat, inc: nat): nat {
    if size == 0 then 4 else if count >= room then 3 else if count < allowed then 0 else if inc > 2 then 1 else 2
  }

  /** A table in which `allowed` was cleared by a full byte can halve its bytes. */
  lemma CrowdedHasBits(w: Placement, inc: nat, n: nat, room: nat, info: seq<nat>, items: seq<Item>, content: map<int, int>, count: nat, allowed: nat)
    requires TableOk(w, inc, n, room, info, items, content, count, allowed) && count < room && count <= 126
    requires allowed == 0 ==> Crowded(info, inc, |items|)
    ensures count < allowed || inc > 2
  {
    if allowed == 0 && inc == 2 {
      CrowdedIsLong(w, info, items);
    }
  }
}
