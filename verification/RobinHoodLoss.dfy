/** An insertion that loses keys: a table of 128 keys whose info bytes are full at one
    home is rehashed with a multiplier under which all keys share a home. */
module RobinHoodLoss {
  import opened RobinHood
  import opened RobinHoodLimits
  import opened RobinHoodTable

  /** The home slot of the key -1 under the first multiplier. */
  const FAR: nat := 300

  /** Under the first multiplier only the key -1 is placed away from the others, under
      the next ones none is. */
  function TwoHomes(k: int, mult: nat): nat {
    if k < 0 && mult == FIRST_MULTIPLIER then 32 * FAR else 0
  }

  ghost predicate ByTwoHomes(w: Placement) {
    forall k :: w(k) == (if k < 0 then FAR else 0, 0)
  }

  /** The keys -1 to k - 1. */
  ghost predicate KeysFromFar(m: map<int, int>, k: nat) {
    |m| == k + 1 && forall i :: i in m <==> -1 <= i < k
  }

  lemma {:induction false} InfoGrowsFast(inc: nat, d: nat, bits: nat)
    requires inc >= 4
    ensures InfoAt(inc, d, bits) >= 4 * d + 4
  {
    if d > 0 {
      InfoGrowsFast(inc, d - 1, bits);
    }
  }

  /** Where the used slots are: those of the keys at home 0 are among the first 127. */
  lemma SlotsOfTwoHomes(w: Placement, inc: nat, info: seq<nat>, items: seq<Item>, i: nat)
    requires Layout(w, inc, info, items) && Bounded(info, |items|, 255) && ByTwoHomes(w) && i < |items| && info[i] != 0
    ensures if items[i].key < 0 then i >= FAR else i < 127
    ensures items[i].key >= 0 && i == 126 ==> inc <= 3 && info[i] >= 254
  {
    assert SlotOk(w, inc, info, items, i);
    var home := w(items[i].key).0;
    InfoGrows(inc, i - home, 0);
    if inc >= 4 {
      InfoGrowsFast(inc, i - home, 0);
    }
  }

  /** The slot of the key -1. */
  lemma FarSlot(w: Placement, inc: nat, info: seq<nat>, items: seq<Item>, m: map<int, int>) returns (p: nat)
    requires Layout(w, inc, info, items) && Bounded(info, |items|, 255) && ByTwoHomes(w) && Holds(info, items, m) && -1 in m
    ensures FAR <= p < |items| && info[p] != 0 && items[p].key == -1
  {
    p :| HasItem(info, items, p, Item(-1, m[-1]));
    SlotsOfTwoHomes(w, inc, info, items, p);
  }

  /** With 126 keys at home 0 no byte is full. */
  lemma NotYetCrowded(w: Placement, m: map<int, int>, k: nat)
    requires ByTwoHomes(w) && KeysFromFar(m, k) && k <= 126
    ensures !CanCrowd(w, m)
  {
    forall info, items ensures !CrowdedAt(w, info, items, m) {
      if Layout(w, 2, info, items) && Holds(info, items, m) && Bounded(info, |items|, 255) {
        forall i: nat | i < |items| ensures info[i] + 2 <= 255 {
          if info[i] != 0 {
            FullIsFar(w, info, items, m, k, i);
          }
        }
      }
    }
  }

  lemma FullIsFar(w: Placement, info: seq<nat>, items: seq<Item>, m: map<int, int>, k: nat, i: nat)
    requires Layout(w, 2, info, items) && Holds(info, items, m) && Bounded(info, |items|, 255) && ByTwoHomes(w)
    requires KeysFromFar(m, k) && k <= 126 && i < |items| && info[i] != 0
    ensures info[i] <= 253
  {
    assert SlotOk(w, 2, info, items, i);
    SlotsOfTwoHomes(w, 2, info, items, i);
    var home := w(items[i].key).0;
    InfoGrows(2, i - home, 0);
    if items[i].key < 0 {
      FarIsAlone(w, info, items, m, k, i);
    } else if i >= 126 {
      forall j | 0 <= j < i ensures info[j] != 0 {
        ProbeReaches(w, 2, info, items, i, j);
      }
      var p := FarSlot(w, 2, info, items, m);
      RunLength(info, 0, i + 1, p);
      CountBelow(info, p, |items|);
      CountIsSize(info, items, m);
      assert false;
    }
  }

  /** The key -1 is in its own home: no key of home 0 reaches the slot before it. */
  lemma FarIsAlone(w: Placement, info: seq<nat>, items: seq<Item>, m: map<int, int>, k: nat, i: nat)
    requires Layout(w, 2, info, items) && Holds(info, items, m) && Bounded(info, |items|, 255) && ByTwoHomes(w)
    requires KeysFromFar(m, k) && i < |items| && info[i] != 0 && items[i].key < 0
    ensures i == FAR
  {
    SlotsOfTwoHomes(w, 2, info, items, i);
    if i > FAR {
      ProbeReaches(w, 2, info, items, i, i - 1);
      SlotsOfTwoHomes(w, 2, info, items, i - 1);
      assert HasItem(info, items, i, items[i]) && HasItem(info, items, i - 1, items[i - 1]);
    }
  }

  /** With 127 keys at home 0 the last of them has a full byte at the smallest increment. */
  lemma AllBitsGone(w: Placement, inc: nat, scale: nat, info: seq<nat>, items: seq<Item>, m: map<int, int>)
    requires Layout(w, inc, info, items) && Holds(info, items, m) && Bounded(info, |items|, 255) && ByTwoHomes(w)
    requires KeysFromFar(m, 127) && IncOk(inc, scale)
    ensures inc == 2 && !Bounded(info, |items|, 255 - inc)
  {
    CountIsSize(info, items, m);
    var p := FarSlot(w, inc, info, items, m);
    if !(|items| > 126 && info[126] != 0) {
      forall i | 0 <= i < |items| && info[i] != 0 ensures i < 126 || i == p {
        SlotsOfTwoHomes(w, inc, info, items, i);
        if i >= FAR {
          assert HasItem(info, items, i, items[i]) && HasItem(info, items, p, items[p]);
        }
      }
      CountAround(info, 126, p, |items|);
      assert false;
    }
    SlotsOfTwoHomes(w, inc, info, items, 126);
  }

  lemma {:induction false} CountAround(info: seq<nat>, b: nat, p: nat, n: nat)
    requires n <= |info| && forall i :: 0 <= i < n && info[i] != 0 ==> i < b || i == p
    ensures CountUsed(info, n) <= Min(n, b) + if p < n then 1 else 0
  {
    if n > 0 {
      CountAround(info, b, p, n - 1);
    }
  }

  /** 128 keys at one home have no layout. */
  lemma OneHomeIsTooSmall(n: nat, m: map<int, int>, mult: nat)
    requires n > 0 && mult != FIRST_MULTIPLIER && |m| >= 128
    ensures !Fits(TwoHomes, mult, n, m)
  {
    forall inc, scale, info, items ensures !FitsAt(TwoHomes, mult, n, inc, scale, info, items, m) {
      if IncOk(inc, scale) && Layout(Placing(TwoHomes, mult, n, scale), inc, info, items) && Bounded(info, |items|, 255) {
        NoBits(n, scale);
        OneHomeLimit(Placing(TwoHomes, mult, n, scale), inc, info, items, 0, 0);
        if Holds(info, items, m) {
          CountIsSize(info, items, m);
          assert false;
        }
      }
    }
  }

  lemma PlacedByTwoHomes(n: nat, scale: nat)
    requires n > FAR && scale > 0
    ensures ByTwoHomes(Placing(TwoHomes, FIRST_MULTIPLIER, n, scale))
  {
    NoBits(n, scale);
    var w := Placing(TwoHomes, FIRST_MULTIPLIER, n, scale);
    forall k ensures w(k) == (if k < 0 then FAR else 0, 0) {
      var h := TwoHomes(k, FIRST_MULTIPLIER);
      assert h / 32 == (if k < 0 then FAR else 0) && h % 32 == 0;
      assert h / 32 % n == h / 32;
    }
  }

  lemma NoBits(n: nat, scale: nat)
    requires n > 0 && scale > 0
    ensures 0 % n == 0 && 0 / scale == 0
  {
  }

  /** What filling keeps: the first multiplier, and room for many more keys. */
  ghost predicate Ready(t: Table)
    reads t, t.info, t.items
  {
    && t.Valid() && t.hash == TwoHomes && t.mult == FIRST_MULTIPLIER && t.n > FAR && Room(t.load, t.n) >= 400
    && t.items.Length > 0 && t.Tight()
  }

  ghost predicate Filled(t: Table, k: nat)
    reads t, t.info, t.items
  {
    Ready(t) && KeysFromFar(t.content, k)
  }

  lemma NextFromFar(m: map<int, int>, k: nat)
    requires KeysFromFar(m, k)
    ensures k !in m && KeysFromFar(m[k := 0], k + 1)
  {
    assert m[k := 0].Keys == m.Keys + {k};
  }

  lemma FilledIsCalm(t: Table, k: nat)
    requires Filled(t, k) && k <= 126
    ensures t.Calm()
  {
    t.CountsKeys();
    PlacedByTwoHomes(t.n, 16);
    NotYetCrowded(Placing(TwoHomes, FIRST_MULTIPLIER, t.n, 16), t.content, k);
  }

  lemma FilledIsStuck(t: Table)
    requires Filled(t, 127)
    ensures t.Stuck()
  {
    t.CountsKeys();
    PlacedByTwoHomes(t.n, t.scale);
    AllBitsGone(t.Where(), t.inc, t.scale, t.info[..], t.items[..], t.content);
  }

  lemma RoomForHomes(load: nat, n: nat)
    requires load < 100 && Room(load, n) >= 400
    ensures n > FAR
  {
    assert n <= FAR ==> Room(load, n) <= Room(load, FAR) by {
      if n <= FAR {
        RoomMonotone(load, n, FAR);
      }
    }
  }

  /** The key -1 in a table with room for 400 keys. */
  method StartFar(load: nat) returns (t: Table)
    requires 10 < load < 100
    ensures fresh(t) && fresh(t.info) && fresh(t.items) && Filled(t, 0)
  {
    t := EmptyWithRoom(load);
    EmptyIsCalm(t);
    var r := t.Insert(-1, 0, false);
    assert t.content.Keys == {-1};
  }

  method EmptyWithRoom(load: nat) returns (t: Table)
    requires 10 < load < 100
    ensures fresh(t) && fresh(t.info) && fresh(t.items) && Ready(t) && t.content == map[]
  {
    t := new Table(TwoHomes, load);
    var ok := t.Reserve(400, false);
    RoomForHomes(load, t.n);
  }

  lemma EmptyIsCalm(t: Table)
    requires t.Valid() && t.content == map[] && t.items.Length > 0 && t.Tight() && Room(t.load, t.n) > 0
    ensures t.Calm()
  {
    t.CountsKeys();
    forall info, items ensures !CrowdedAt(Placing(t.hash, t.mult, t.n, 16), info, items, map[]) {
      if Layout(Placing(t.hash, t.mult, t.n, 16), 2, info, items) && Holds(info, items, map[]) {
        forall i: nat | i < |items| ensures info[i] == 0 {
          assert info[i] != 0 ==> HasItem(info, items, i, items[i]);
        }
      }
    }
  }

  /** Insertions that all succeed bring the table to 128 keys, and the next one loses some. */
  method InsertLoses(load: nat) returns (t: Table, ghost full: map<int, int>, r: Outcome)
    requires 10 < load < 100
    ensures t.Valid() && KeysFromFar(full, 127) && r == Lost && PartOf(t.content, full)
  {
    t := StartFar(load);
    for k := 0 to 127
      invariant fresh(t) && fresh(t.info) && fresh(t.items) && Filled(t, k)
    {
      FilledIsCalm(t, k);
      NextFromFar(t.content, k);
      var added := t.Insert(k, 0, false);
    }
    full := t.content;
    FilledIsStuck(t);
    OneHomeIsTooSmall(t.n, full, NextMultiplier(t.mult));
    NextFromFar(full, 127);
    r := t.Insert(127, 0, false);
  }
}
