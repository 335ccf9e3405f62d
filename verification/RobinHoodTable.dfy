/** The hash table on arrays that are probed and shifted in place. */
module RobinHoodTable {
  import opened Wrappers
  import opened Runs
  import opened RobinHood
  import opened RobinHoodLimits

  /** The mixed 64-bit hash of a key under a multiplier. */
  type Hash = (int, nat) -> nat

  /** `keyToIdx`: the five lowest bits go to the info byte, as far as there is room
      for them, and the bits above select the home slot. */
  function Placing(hash: Hash, mult: nat, n: nat, scale: nat): Placement
    requires n > 0 && scale > 0
  {
    k => (hash(k, mult) / 32 % n, hash(k, mult) % 32 / scale)
  }

  /** The increment of an info byte per slot, and the divisor that removes hash bits. */
  predicate IncOk(inc: nat, scale: nat) {
    (inc == 32 && scale == 1) || (inc == 16 && scale == 2) || (inc == 8 && scale == 4) || (inc == 4 && scale == 8) || (inc == 2 && scale == 16)
  }

  lemma BitsFit(hash: Hash, mult: nat, n: nat, inc: nat, scale: nat)
    requires n > 0 && IncOk(inc, scale)
    ensures forall k :: Placing(hash, mult, n, scale)(k).0 < n && Placing(hash, mult, n, scale)(k).1 < inc
  {
  }

  /** `calcMaxNumElementsAllowed` */
  function Room(load: nat, n: nat): nat {
    n * load / 100
  }

  lemma RoomGrows(load: nat, n: nat)
    requires load > 10 && n >= 8
    ensures Room(load, n) < Room(load, 2 * n)
  {
    var x := n * load;
    assert x >= 8 * 11 && 2 * n * load == 2 * x;
    assert x / 100 < 2 * x / 100;
  }

  lemma RoomMonotone(load: nat, m: nat, n: nat)
    requires m <= n
    ensures Room(load, m) <= Room(load, n)
  {
    assert m * load <= n * load;
  }

  lemma RoomAtLeast(load: nat, n: nat)
    requires load > 10
    ensures 10 * Room(load, n) + 10 > n
  {
    assert n * load >= n * 10;
  }

  /** The initial `mHashMultiplier`, and `nextHashMultiplier`. */
  const FIRST_MULTIPLIER: nat := 0xc4ceb9fe1a85ec53

  function NextMultiplier(mult: nat): nat {
    (mult + 0xc4ceb9fe1a85ec54) % 0x1_0000_0000_0000_0000
  }

  /** What became of an insertion. `Overflow` leaves the table as it was; after `Lost`
      the rehash gave up in its middle and only part of the keys are left. */
  datatype Outcome = KeyFound | Added | Overflow | Lost

  ghost predicate SubMap(a: map<int, int>, b: map<int, int>) {
    forall k :: k in a ==> k in b && b[k] == a[k]
  }

  /** Some of the keys, but not all. */
  ghost predicate PartOf(a: map<int, int>, b: map<int, int>) {
    SubMap(a, b) && a.Keys != b.Keys
  }

  /** At the smallest increment the keys have a layout with a full byte. */
  ghost predicate CanCrowd(w: Placement, content: map<int, int>) {
    exists info, items :: CrowdedAt(w, info, items, content)
  }

  ghost predicate CrowdedAt(w: Placement, info: seq<nat>, items: seq<Item>, content: map<int, int>) {
    Layout(w, 2, info, items) && Holds(info, items, content) && Bounded(info, |items|, 255) && Crowded(info, 2, |items|)
  }

  /** The keys have a layout with n home slots under a multiplier. */
  ghost predicate Fits(hash: Hash, mult: nat, n: nat, content: map<int, int>)
    requires n > 0
  {
    exists inc, scale, info, items :: FitsAt(hash, mult, n, inc, scale, info, items, content)
  }

  ghost predicate FitsAt(hash: Hash, mult: nat, n: nat, inc: nat, scale: nat, info: seq<nat>, items: seq<Item>, content: map<int, int>)
    requires n > 0
  {
    && IncOk(inc, scale) && Layout(Placing(hash, mult, n, scale), inc, info, items) && Bounded(info, |items|, 255)
    && Holds(info, items, content)
  }

  /** What an insertion with outcome r does to the content m. */
  ghost predicate Inserted(r: Outcome, k: int, v: int, assign: bool, m: map<int, int>, m': map<int, int>) {
    match r
    case KeyFound => k in m && m' == if assign then m[k := v] else m
    case Added => k !in m && m' == m[k := v]
    case Overflow => k !in m && m' == m
    case Lost => k !in m && PartOf(m', m) && |m| >= 128
  }

  class Table {
    const hash: Hash
    const load: nat
    var info: array<nat>
    var items: array<Item>
    var n: nat
    var inc: nat
    var scale: nat
    var mult: nat
    var count: nat
    var allowed: nat
    ghost var content: map<int, int>

    ghost predicate Fields()
      reads this`n, this`inc, this`scale
    {
      10 < load < 100 && n > 0 && IncOk(inc, scale)
    }

    ghost function Where(): Placement
      requires Fields()
      reads this`n, this`inc, this`scale, this`mult
    {
      Placing(hash, mult, n, scale)
    }

    ghost predicate Valid()
      reads this, info, items
    {
      && Fields() && (items.Length > 0 ==> n >= 8) && (items.Length == 0 ==> n == 1)
      && TableOk(Where(), inc, n, Room(load, n), info[..], items[..], content, count, allowed)
    }

    /** `allowed` is 0 only where a byte is full or there is no room at all. */
    ghost predicate Tight()
      reads this`inc, this`items, this`info, this`allowed, this`n, info
    {
      allowed == 0 && Room(load, n) > 0 ==> Crowded(info[..], inc, items.Length)
    }

    /** Room for a key is left, or one halving of the bytes makes it. */
    ghost predicate Calm()
      requires Fields()
      reads this, info
    {
      items.Length > 0 && count < Room(load, n) && Tight() && !CanCrowd(Placing(hash, mult, n, 16), content)
    }

    /** No hash bits are left, and the table is not half full: only another multiplier helps. */
    ghost predicate Stuck()
      reads this
    {
      items.Length > 0 && allowed == 0 && inc == 2 && 2 * count < Room(load, n)
    }

    ghost function Left(): nat
      reads this
    {
      Attempts(items.Length, count, allowed, Room(load, n), inc)
    }

    /** Nothing is allocated before the first insertion. */
    constructor (hash: Hash, load: nat)
      requires 10 < load < 100
      ensures Valid() && fresh(info) && fresh(items) && content == map[] && this.hash == hash && this.load == load
      ensures items.Length == 0 && mult == FIRST_MULTIPLIER
    {
      this.hash := hash;
      this.load := load;
      info, items := new nat[8](_ => 0), new Item[0];
      n, inc, scale, mult, count, allowed := 1, 32, 1, FIRST_MULTIPLIER, 0, 0;
      content := map[];
      new;
      BitsFit(hash, mult, n, inc, scale);
    }

    /** `findIdx`: a slot with the key, or none if there is none. */
    method Find(k: int) returns (r: int)
      requires Valid()
      ensures r < 0 <==> k !in content
      ensures r >= 0 ==> r < items.Length && items[r] == Item(k, content[k])
    {
      ghost var w, bytes, slots := Where(), info[..], items[..];
      AbsentBefore(w, inc, bytes, slots, k);
      var idx, found := FindIdx(info, items, inc, k, hash(k, mult) / 32 % n, inc + hash(k, mult) % 32 / scale, w);
      if found {
        assert HasItem(bytes, slots, idx, items[idx]);
        r := idx;
      } else {
        SearchFails(w, inc, bytes, slots, content, k, idx);
        r := -1;
      }
    }

    /** The search of `erase`. */
    method Locate(k: int) returns (r: int)
      requires Valid()
      ensures r < 0 <==> k !in content
      ensures r >= 0 ==> r < items.Length && info[r] != 0 && items[r].key == k
    {
      ghost var w, bytes, slots := Where(), info[..], items[..];
      AbsentBefore(w, inc, bytes, slots, k);
      var idx, found := FindSlot(info, items, inc, k, hash(k, mult) / 32 % n, inc + hash(k, mult) % 32 / scale, w);
      if found {
        assert HasItem(bytes, slots, idx, items[idx]);
        r := idx;
      } else {
        SearchFails(w, inc, bytes, slots, content, k, idx);
        r := -1;
      }
    }

    /** `erase` */
    method Erase(k: int) returns (erased: bool)
      requires Valid()
      modifies this`count, this`content, info, items
      ensures Valid() && erased == (k in old(content)) && content == old(content) - {k}
    {
      var idx := Locate(k);
      erased := idx >= 0;
      if erased {
        RemoveAt(idx);
      }
    }

    method RemoveAt(p: nat)
      requires Valid() && p < items.Length && info[p] != 0
      modifies this`count, this`content, info, items
      ensures Valid() && content == old(content) - {old(items[p].key)}
    {
      ghost var info0, items0, key := info[..], items[..], items[p].key;
      ghost var e := ShiftDown(info, items, inc, p);
      EraseKeeps(Where(), inc, n, Room(load, n), info0, items0, content, count, allowed, info[..], items[..], p, e);
      count := count - 1;
      content := content - {key};
    }

    /** The insertion of an absent key at the slot where its search landed. */
    method PutAt(p: nat, x: nat, item: Item)
      requires Valid() && item.key !in content && allowed != 0 && count < Room(load, n)
      requires Landed(Where(), inc, info[..], items[..], item.key, p) && x == InfoAt(inc, p - Where()(item.key).0, Where()(item.key).1)
      requires Run(info[..], Where()(item.key).0, p)
      modifies this`allowed, this`count, this`content, info, items
      ensures Valid() && content == old(content)[item.key := item.val] && count == old(count) + 1 && Tight()
    {
      ghost var w, info0, items0, allowed0 := Where(), info[..], items[..], allowed;
      var e := FreeSlot(p, item.key);
      var full := ShiftUp(info, items, inc, p, e, x, item);
      if full {
        allowed := 0;
      }
      InsertKeeps(w, inc, n, Room(load, n), info0, items0, content, count, allowed0, info[..], items[..], p, e, item, allowed);
      count := count + 1;
      content := content[item.key := item.val];
    }

    /** The search of an insertion: the slot with the key, or the slot where it lands. */
    method Seek(k: int) returns (idx: nat, x: nat, found: bool)
      requires Valid()
      ensures found ==> idx < items.Length && info[idx] != 0 && items[idx].key == k && k in content
      ensures !found ==> k !in content && Where()(k).0 <= idx && x == InfoAt(inc, idx - Where()(k).0, Where()(k).1)
      ensures !found && count < Room(load, n) ==> Landed(Where(), inc, info[..], items[..], k, idx) && Run(info[..], Where()(k).0, idx)
    {
      ghost var w, bytes, slots := Where(), info[..], items[..];
      AbsentBefore(w, inc, bytes, slots, k);
      idx, x := NextWhileLess(info, items, inc, k, hash(k, mult) / 32 % n, inc + hash(k, mult) % 32 / scale, w);
      idx, x, found := EqualRun(info, items, inc, k, idx, x, w);
      if found {
        assert HasItem(bytes, slots, idx, items[idx]);
      } else {
        SearchFails(w, inc, bytes, slots, content, k, idx);
        if count < Room(load, n) {
          RunEnds(w, inc, bytes, slots, n, Room(load, n), w(k).0, idx);
        }
      }
    }

    lemma CountsKeys()
      requires Valid()
      ensures count == |content|
    {
      CountIsSize(info[..], items[..], content);
    }

    /** One attempt of an insertion; without a result the table was enlarged for the next. */
    method Attempt(k: int, v: int, assign: bool) returns (r: Option<Outcome>)
      requires Valid()
      modifies this, info, items
      ensures Valid()
      ensures (info == old(info) || fresh(info)) && (items == old(items) || fresh(items))
      ensures if r.Some? then r != Some(Overflow) && Inserted(r.value, k, v, assign, old(content), content)
              else k !in content && content == old(content) && count == old(count) && (count <= 126 ==> Left() < old(Left()))
      ensures r == Some(Added) ==> items.Length > 0 && Tight()
      ensures old(items.Length > 0 && count < allowed) ==> r == Some(KeyFound) || r == Some(Added)
      ensures old(Calm()) ==> r != Some(Lost) && n == old(n) && mult == old(mult) && (r == None ==> items.Length > 0 && count < allowed)
      ensures old(items.Length > 0 && count < allowed) ==> n == old(n) && mult == old(mult)
      ensures old(Stuck()) && r != Some(KeyFound) && r != Some(Lost) ==> r == None && Fits(hash, NextMultiplier(old(mult)), old(n), content)
    {
      CountsKeys();
      var idx, x, found := Seek(k);
      if found {
        AssignIf(assign, idx, v);
        return Some(KeyFound);
      }
      if count < allowed {
        PutAt(idx, x, Item(k, v));
        return Some(Added);
      }
      var ok := IncreaseSize();
      if !ok {
        return Some(Lost);
      }
      r := None;
    }

    /** `insert_or_assign` and, without `assign`, `try_emplace`: up to 256 attempts, each
        of which may enlarge the table first. */
    method Insert(k: int, v: int, assign: bool) returns (r: Outcome)
      requires Valid()
      modifies this, info, items
      ensures Valid()
      ensures (info == old(info) || fresh(info)) && (items == old(items) || fresh(items))
      ensures Inserted(r, k, v, assign, old(content), content)
      ensures |old(content)| <= 126 ==> r.KeyFound? || r.Added?
      ensures r.Added? ==> items.Length > 0 && Tight()
      ensures old(Calm()) ==> (r.KeyFound? || r.Added?) && n == old(n) && mult == old(mult)
      ensures old(Stuck()) && (r.Added? || r.Overflow?) ==> Fits(hash, NextMultiplier(old(mult)), old(n), old(content))
    {
      CountsKeys();
      ghost var keys, calm, stuck := count, Calm(), Stuck();
      var i := 0;
      while i < 256
        invariant Valid() && content == old(content) && count == keys == |old(content)|
        invariant keys <= 126 ==> i + Left() <= 4
        invariant i > 0 ==> k !in content
        invariant (info == old(info) || fresh(info)) && (items == old(items) || fresh(items))
        invariant calm ==> n == old(n) && mult == old(mult) && if i == 0 then Calm() else i == 1 && items.Length > 0 && count < allowed
        invariant stuck ==> if i == 0 then Stuck() && n == old(n) && mult == old(mult) else Fits(hash, NextMultiplier(old(mult)), old(n), content)
      {
        var result := Attempt(k, v, assign);
        if result.Some? {
          return result.value;
        }
        i := i + 1;
      }
      r := Overflow;
    }

    method AssignIf(assign: bool, p: nat, v: int)
      requires Valid() && p < items.Length && info[p] != 0
      modifies this`content, items
      ensures Valid() && content == if assign then old(content)[old(items[p].key) := v] else old(content)
    {
      if assign {
        Assign(p, v);
      }
    }

    method Assign(p: nat, v: int)
      requires Valid() && p < items.Length && info[p] != 0
      modifies this`content, items
      ensures Valid() && content == old(content)[old(items[p].key) := v]
    {
      ghost var slots, key := items[..], items[p].key;
      items[p] := Item(items[p].key, v);
      AssignKeeps(Where(), inc, info[..], slots, content, items[..], p, v);
      content := content[key := v];
    }

    /** The first free slot from p on: it exists, since the run of used slots from the
        home of the key on ends within the buffer. */
    method FreeSlot(p: nat, ghost key: int) returns (e: nat)
      requires Valid() && count < Room(load, n) && Where()(key).0 <= p < items.Length
      requires Run(info[..], Where()(key).0, p)
      ensures p <= e < items.Length && info[e] == 0 && Run(info[..], p, e)
    {
      e := p;
      while info[e] != 0
        invariant p <= e < items.Length && Run(info[..], p, e)
        decreases items.Length - e
      {
        RunEnds(Where(), inc, info[..], items[..], n, Room(load, n), Where()(key).0, e + 1);
        e := e + 1;
      }
    }

    /** `try_increase_info`: one hash bit fewer in every info byte. */
    method TryIncreaseInfo() returns (ok: bool)
      requires Valid() && items.Length > 0
      modifies this`inc, this`scale, this`allowed, info
      ensures Valid() && ok == (old(inc) > 2) && (ok ==> allowed == Room(load, n)) && (!ok ==> allowed == old(allowed))
    {
      if inc <= 2 {
        return false;
      }
      ghost var w, bytes, inc0, allowed0 := Where(), info[..], inc, allowed;
      inc, scale := inc / 2, scale * 2;
      HalveBytes(info, items.Length);
      info[items.Length] := 1;
      allowed := Room(load, n);
      OneBitLess(hash, mult, n, inc0, scale / 2);
      HalvingKeeps(w, Where(), inc, n, Room(load, n), bytes, items[..], content, count, allowed0, info[..]);
      ok := true;
    }

    /** `initData` */
    method InitData(size: nat)
      requires Fields() && size >= 8
      modifies this
      ensures Valid() && fresh(info) && fresh(items) && content == map[] && n == size && mult == old(mult) && items.Length > 0 && count == 0
      ensures allowed == Room(load, n)
    {
      n, count, allowed, inc, scale, content := size, 0, Room(load, size), 32, 1, map[];
      info, items := NewArrays(size + Min(Room(load, size), 255));
      BitsFit(hash, mult, n, inc, scale);
      EmptyTable(Where(), inc, n, Room(load, n), info[..], items[..]);
    }

    /** `insert_move`: a key that is known to be absent; fails if the info bytes are
        full and cannot be halved. */
    method InsertMove(item: Item) returns (ok: bool)
      requires Valid() && items.Length > 0 && item.key !in content && count < Room(load, n)
      modifies this, info, items
      ensures Valid() && info == old(info) && items == old(items) && n == old(n) && mult == old(mult)
      ensures if ok then content == old(content)[item.key := item.val] && count == old(count) + 1 else content == old(content)
      ensures ok ==> Tight()
      ensures !ok && old(Tight()) ==> old(count) >= 127
    {
      if allowed == 0 {
        if inc == 2 && Tight() {
          CrowdedIsLong(Where(), info[..], items[..]);
        }
        ok := TryIncreaseInfo();
        if !ok {
          return;
        }
      }
      var idx, x := SeekEnd(item.key);
      PutAt(idx, x, item);
      ok := true;
    }

    /** The search of `insert_move`, which does not look for the key. */
    method SeekEnd(k: int) returns (idx: nat, x: nat)
      requires Valid() && k !in content && count < Room(load, n)
      ensures Where()(k).0 <= idx && x == InfoAt(inc, idx - Where()(k).0, Where()(k).1)
      ensures Landed(Where(), inc, info[..], items[..], k, idx) && Run(info[..], Where()(k).0, idx)
    {
      ghost var w, bytes, slots := Where(), info[..], items[..];
      idx, x := NextWhileNotAbove(info, items, inc, k, hash(k, mult) / 32 % n, inc + hash(k, mult) % 32 / scale, w);
      RunEnds(w, inc, bytes, slots, n, Room(load, n), w(k).0, idx);
    }

    /** `rehashPowerOfTwo`: all items move to a new table of the given size, hashed with
        the given multiplier. */
    method Rehash(size: nat, factor: nat) returns (ok: bool)
      requires Valid() && size >= 8 && count <= Room(load, size)
      modifies this
      ensures Valid() && fresh(info) && fresh(items) && items.Length > 0 && n == size && mult == factor
      ensures if ok then content == old(content) && count == old(count) && Tight() else PartOf(content, old(content)) && old(count) >= 128
    {
      ghost var content0, total := content, count;
      var oldInfo, oldItems := info, items;
      ghost var bytes, slots := info[..], items[..];
      mult := factor;
      InitData(size);
      NothingMoved(bytes, slots, content0);
      var i := 0;
      ok := true;
      while ok && i < oldItems.Length
        invariant Valid() && fresh(info) && fresh(items) && items.Length > 0 && n == size && i <= oldItems.Length && mult == factor
        invariant oldInfo[..] == bytes && oldItems[..] == slots
        invariant Moved(bytes, slots, content0, content, i) && (ok ==> count == CountUsed(bytes, i) && Tight()) && (!ok ==> total >= 128 && i < oldItems.Length && bytes[i] != 0)
        decreases oldItems.Length - i, ok
      {
        ok := MoveSlot(oldInfo[i], oldItems[i], i, bytes, slots, content0, total);
        if ok {
          i := i + 1;
        }
      }
      if ok {
        AllMoved(bytes, slots, content0, content);
      } else {
        MovedIsPart(bytes, slots, content0, content, i);
      }
    }

    /** One step of a rehash: slot i of the old table. */
    method MoveSlot(byte: nat, item: Item, ghost i: nat, ghost bytes: seq<nat>, ghost slots: seq<Item>, ghost content0: map<int, int>,
                    ghost total: nat)
      returns (ok: bool)
      requires Valid() && items.Length > 0 && i < |slots| <= |bytes| && bytes[i] == byte && slots[i] == item
      requires Moved(bytes, slots, content0, content, i) && count == CountUsed(bytes, i)
      requires total == CountUsed(bytes, |slots|) <= Room(load, n) && Tight()
      modifies this, info, items
      ensures Valid() && info == old(info) && items == old(items) && n == old(n) && mult == old(mult)
      ensures if ok then Tight() else total >= 128 && byte != 0
      ensures if ok then Moved(bytes, slots, content0, content, i + 1) && count == CountUsed(bytes, i + 1) else content == old(content)
    {
      if byte == 0 {
        SkipMoved(bytes, slots, content0, content, i);
        ok := true;
      } else {
        CountBelow(bytes, i, |slots|);
        NotMoved(bytes, slots, content0, content, i);
        ok := InsertMove(item);
      }
    }

    /** `reserve` and, with `force`, `rehash`: room for at least c keys. */
    method Reserve(c: nat, force: bool) returns (ok: bool)
      requires Valid()
      modifies this
      ensures Valid() && (info == old(info) || fresh(info)) && (items == old(items) || fresh(items))
      ensures if ok then content == old(content) && Room(load, n) >= c else PartOf(content, old(content)) && |old(content)| >= 128
      ensures mult == old(mult) && (ok && old(items.Length) == 0 ==> items.Length > 0 && Tight())
    {
      CountIsSize(info[..], items[..], content);
      var least := if c > count then c else count;
      var size := SizeFor(load, least);
      if force || size > n {
        ok := Rehash(size, mult);
      } else {
        RoomMonotone(load, size, n);
        ok := true;
      }
    }

    /** A tight table with at most 126 keys takes one more after at most one halving. */
    lemma OneMoreFits()
      requires Valid() && Tight() && items.Length > 0 && count <= 126 && count < Room(load, n)
      ensures Left() <= 1
    {
      CrowdedHasBits(Where(), inc, n, Room(load, n), info[..], items[..], content, count, allowed);
    }

    /** A tight table that is full at the smallest increment shows how its keys crowd. */
    lemma TightCrowds()
      requires Valid()
      ensures items.Length > 0 && Tight() && allowed <= count < Room(load, n) && inc == 2 ==>
                CanCrowd(Placing(hash, mult, n, 16), content)
    {
      if items.Length > 0 && Tight() && allowed <= count < Room(load, n) && inc == 2 {
        assert CrowdedAt(Placing(hash, mult, n, 16), info[..], items[..], content);
      }
    }

    lemma NowFits()
      requires Valid()
      ensures Fits(hash, mult, n, content)
    {
      assert FitsAt(hash, mult, n, inc, scale, info[..], items[..], content);
    }

    /** `increase_size`: fails only when a rehash does. */
    method IncreaseSize() returns (ok: bool)
      requires Valid()
      modifies this, info
      ensures Valid() && (info == old(info) || fresh(info)) && (items == old(items) || fresh(items)) && items.Length > 0
      ensures if ok then content == old(content) && count == old(count) else PartOf(content, old(content)) && old(count) >= 128
      ensures ok && old(count >= allowed) && count <= 126 ==> Left() < old(Left())
      ensures old(Calm() && count >= allowed) ==> ok && n == old(n) && mult == old(mult) && count < allowed
      ensures old(Stuck()) && ok ==> Fits(hash, NextMultiplier(old(mult)), old(n), content)
    {
      if items.Length == 0 {
        NoContent(info[..], items[..], content);
        InitData(8);
        return true;
      }
      TightCrowds();
      if count < Room(load, n) {
        ok := TryIncreaseInfo();
        if ok {
          return;
        }
      }
      ok := Reorganize();
    }

    /** The rest of `increase_size`: another multiplier, or twice the size. */
    method Reorganize() returns (ok: bool)
      requires Valid() && items.Length > 0
      modifies this
      ensures Valid() && fresh(info) && fresh(items) && items.Length > 0
      ensures if ok then content == old(content) && count == old(count) else PartOf(content, old(content)) && old(count) >= 128
      ensures ok && count <= 126 ==> Left() <= 1
      ensures old(2 * count < Room(load, n)) && ok ==> Fits(hash, NextMultiplier(old(mult)), old(n), content)
    {
      RoomGrows(load, n);
      if count * 2 < Room(load, n) {
        ok := Rehash(n, NextMultiplier(mult));
        NowFits();
      } else {
        ok := Rehash(2 * n, mult);
      }
      if ok && count <= 126 {
        OneMoreFits();
      }
    }
  }

  /** A move that stops at slot i has lost its key. */
  lemma MovedIsPart(info: seq<nat>, items: seq<Item>, content: map<int, int>, now: map<int, int>, i: nat)
    requires i < |items| <= |info| && info[i] != 0 && Moved(info, items, content, now, i) && Holds(info, items, content)
    ensures PartOf(now, content)
  {
    MovedIsSubMap(info, items, content, now, i);
    NotMoved(info, items, content, now, i);
    assert HasItem(info, items, i, items[i]);
    assert items[i].key in content.Keys;
  }

  // ------------------------------------------------------------------- sequences of calls

  datatype Op = Put(key: int, val: int, assign: bool) | Remove(key: int) | Lookup(key: int) | Resize(least: nat, force: bool)

  /** Whether the call had an effect or found something, and the value found; or the
      exception that reports an overflow. */
  datatype Answer = Done(ok: bool, value: Option<int>) | Failed

  /** What a call does to a map, and its answer there. */
  function MapAfter(m: map<int, int>, op: Op): map<int, int> {
    match op
    case Put(k, v, assign) => if k in m && !assign then m else m[k := v]
    case Remove(k) => m - {k}
    case _ => m
  }

  function MapAnswer(m: map<int, int>, op: Op): Answer {
    match op
    case Put(k, _, _) => Done(k !in m, None)
    case Remove(k) => Done(k in m, None)
    case Lookup(k) => if k in m then Done(true, Some(m[k])) else Done(false, None)
    case Resize(_, _) => Done(true, None)
  }

  /** A call that takes the content m to m'. Only the insertion of a new key or a resize
      fails, and only with more than 126 keys: then no key is added or changed, and
      below 128 keys none is lost. */
  ghost predicate Behaves(m: map<int, int>, op: Op, answer: Answer, m': map<int, int>) {
    match answer
    case Done(_, _) => answer == MapAnswer(m, op) && m' == MapAfter(m, op)
    case Failed =>
      && (op.Resize? || (op.Put? && op.key !in m))
      && |m| >= 127 && SubMap(m', m) && (|m| == 127 ==> m' == m)
  }

  method Perform(t: Table, op: Op) returns (answer: Answer)
    requires t.Valid()
    modifies t, t.info, t.items
    ensures t.Valid() && (t.info == old(t.info) || fresh(t.info)) && (t.items == old(t.items) || fresh(t.items))
    ensures Behaves(old(t.content), op, answer, t.content)
  {
    match op
    case Put(k, v, assign) =>
      var r := t.Insert(k, v, assign);
      answer := if r.KeyFound? || r.Added? then Done(r.Added?, None) else Failed;
    case Remove(k) =>
      var erased := t.Erase(k);
      answer := Done(erased, None);
    case Lookup(k) =>
      var at := t.Find(k);
      answer := if at >= 0 then Done(true, Some(t.items[at].val)) else Done(false, None);
    case Resize(least, force) =>
      var ok := t.Reserve(least, force);
      answer := if ok then Done(true, None) else Failed;
  }

  /** The contents before, between and after the calls. */
  ghost predicate Recorded(history: seq<map<int, int>>, ops: seq<Op>, answers: seq<Answer>) {
    && |history| == |ops| + 1 && |answers| == |ops|
    && forall i :: 0 <= i < |ops| ==> Behaves(history[i], ops[i], answers[i], history[i + 1])
  }

  /** Any sequence of calls on a table of any size, also past a call that fails. */
  method PerformAll(t: Table, ops: seq<Op>) returns (answers: seq<Answer>, ghost history: seq<map<int, int>>)
    requires t.Valid()
    modifies t, t.info, t.items
    ensures t.Valid() && Recorded(history, ops, answers)
    ensures history[0] == old(t.content) && history[|ops|] == t.content
  {
    answers, history := [], [t.content];
    for i := 0 to |ops|
      invariant t.Valid() && |history| == i + 1 && history[0] == old(t.content) && history[i] == t.content
      invariant (t.info == old(t.info) || fresh(t.info)) && (t.items == old(t.items) || fresh(t.items))
      invariant |answers| == i && forall j :: 0 <= j < i ==> Behaves(history[j], ops[j], answers[j], history[j + 1])
    {
      var answer := Perform(t, ops[i]);
      answers, history := answers + [answer], history + [t.content];
    }
  }

  /** Up to the first failure the table behaves as a map, whatever the hash function. */
  lemma MapUntilFailure(history: seq<map<int, int>>, ops: seq<Op>, answers: seq<Answer>, n: nat)
    requires Recorded(history, ops, answers) && n <= |ops| && forall i :: 0 <= i < n ==> answers[i].Done?
    ensures history[n] == StateAfter(MapAfter, history[0], ops[..n])
    ensures answers[..n] == Replies(MapAfter, MapAnswer, history[0], ops[..n])
  {
    forall i | 0 <= i < n ensures Followed(MapAfter, MapAnswer, history, ops, answers, i) {
      assert Behaves(history[i], ops[i], answers[i], history[i + 1]);
    }
    HistoryIsRun(MapAfter, MapAnswer, history, ops, answers, n);
  }

  /** There is no failure as long as the map never meets a call with more than 126 keys. */
  lemma {:induction false} SmallNeverFails(history: seq<map<int, int>>, ops: seq<Op>, answers: seq<Answer>, n: nat)
    requires Recorded(history, ops, answers) && n <= |ops|
    requires forall i :: 0 <= i < n ==> |StateAfter(MapAfter, history[0], ops[..i])| <= 126
    ensures forall i :: 0 <= i < n ==> answers[i].Done?
  {
    if n > 0 {
      SmallNeverFails(history, ops, answers, n - 1);
      MapUntilFailure(history, ops, answers, n - 1);
      assert Behaves(history[n - 1], ops[n - 1], answers[n - 1], history[n]);
    }
  }

  /** If all keys have the same hash, a table never holds more than 127 of them, whatever
      its size and its multiplier. */
  lemma ConstantHashLimit(t: Table, c: nat -> nat)
    requires t.Valid() && forall k: int, m: nat :: t.hash(k, m) == c(m)
    ensures |t.content| <= 127
  {
    CountIsSize(t.info[..], t.items[..], t.content);
    OneHomeLimit(t.Where(), t.inc, t.info[..], t.items[..], c(t.mult) / 32 % t.n, c(t.mult) % 32 / t.scale);
  }

  /** The keys 0 to k - 1. */
  ghost predicate FirstKeys(m: map<int, int>, k: nat) {
    |m| == k && forall i :: i in m <==> 0 <= i < k
  }

  lemma NextKey(m: map<int, int>, k: nat)
    requires FirstKeys(m, k)
    ensures k !in m && FirstKeys(m[k := 0], k + 1)
  {
    assert m[k := 0].Keys == m.Keys + {k};
  }

  /** A table filled with the keys 0 to n - 1. */
  method Fill(hash: Hash, load: nat, n: nat) returns (t: Table)
    requires 10 < load < 100 && n <= 127
    ensures fresh(t) && fresh(t.info) && fresh(t.items) && t.Valid() && FirstKeys(t.content, n) && t.hash == hash
  {
    t := new Table(hash, load);
    for k := 0 to n
      invariant fresh(t) && fresh(t.info) && fresh(t.items) && t.Valid() && FirstKeys(t.content, k) && t.hash == hash
    {
      NextKey(t.content, k);
      var r := t.Insert(k, 0, false);
    }
  }

  /** The bound of 126 keys is sharp: if all keys have the same hash, 127 of them go in
      and the next one overflows, at every load factor. */
  method ConstantHashOverflows(load: nat, c: nat -> nat) returns (t: Table, r: Outcome)
    requires 10 < load < 100
    ensures t.Valid() && r == Overflow && FirstKeys(t.content, 127)
  {
    t := Fill((k, m) => c(m), load, 127);
    NextKey(t.content, 127);
    r := t.Insert(127, 0, false);
    ConstantHashLimit(t, c);
  }

  /** A rehash of 128 keys or more to a multiplier that sends them all to one home gives
      up in its middle, and keys are lost. */
  method RehashLoses(t: Table, factor: nat, c: nat) returns (ok: bool)
    requires t.Valid() && |t.content| >= 128 && forall k: int :: t.hash(k, factor) == c
    modifies t
    ensures !ok && t.Valid() && PartOf(t.content, old(t.content))
  {
    CountIsSize(t.info[..], t.items[..], t.content);
    ok := t.Rehash(t.n, factor);
    CountIsSize(t.info[..], t.items[..], t.content);
    OneHomeLimit(t.Where(), t.inc, t.info[..], t.items[..], c / 32 % t.n, c % 32 / t.scale);
  }

  /** The smallest number of home slots, doubling from 8, with room for `least` keys. */
  method SizeFor(load: nat, least: nat) returns (size: nat)
    requires load > 10
    ensures size >= 8 && Room(load, size) >= least
  {
    size := 8;
    while Room(load, size) < least
      invariant size >= 8
      decreases 10 * least + 10 - size
    {
      RoomAtLeast(load, size);
      size := 2 * size;
    }
  }

  /** Zeroed info bytes with the sentinel behind the last slot. */
  method NewArrays(total: nat) returns (info: array<nat>, items: array<Item>)
    ensures fresh(info) && fresh(items) && items.Length == total && info.Length == total + 8
    ensures forall i :: 0 <= i < info.Length ==> info[i] == if i == total then 1 else 0
  {
    items := new Item[total](_ => Item(0, 0));
    info := new nat[total + 8](_ => 0);
    info[total] := 1;
  }

  /** `findIdx`, unrolled twice. */
  method FindIdx(info: array<nat>, items: array<Item>, inc: nat, k: int, home: nat, first: nat, ghost w: Placement)
    returns (idx: nat, found: bool)
    requires Layout(w, inc, info[..], items[..]) && Passed(info[..], items[..], k, home) && home == w(k).0 <= items.Length
    requires first == InfoAt(inc, 0, w(k).1)
    ensures found ==> idx < items.Length && info[idx] != 0 && items[idx].key == k
    ensures !found ==> w(k).0 <= idx < info.Length && Passed(info[..], items[..], k, idx) && info[idx] < InfoAt(inc, idx - w(k).0, w(k).1)
  {
    ghost var bytes, slots := info[..], items[..];
    var x := first;
    idx := home;
    while true
      invariant w(k).0 <= idx <= items.Length && x == InfoAt(inc, idx - w(k).0, w(k).1) && Passed(bytes, slots, k, idx)
      decreases items.Length - idx
    {
      if x == info[idx] && items[idx].key == k {
        return idx, true;
      }
      PassOne(w, inc, bytes, slots, k, idx);
      idx, x := idx + 1, x + inc;
      if x == info[idx] && items[idx].key == k {
        return idx, true;
      }
      PassOne(w, inc, bytes, slots, k, idx);
      idx, x := idx + 1, x + inc;
      if x > info[idx] {
        return idx, false;
      }
      TailSmall(w, inc, bytes, slots, idx, x);
    }
  }

  /** The same search slot by slot. */
  method FindSlot(info: array<nat>, items: array<Item>, inc: nat, k: int, home: nat, first: nat, ghost w: Placement)
    returns (idx: nat, found: bool)
    requires Layout(w, inc, info[..], items[..]) && Passed(info[..], items[..], k, home) && home == w(k).0 <= items.Length
    requires first == InfoAt(inc, 0, w(k).1)
    ensures found ==> idx < items.Length && info[idx] != 0 && items[idx].key == k
    ensures !found ==> w(k).0 <= idx < info.Length && Passed(info[..], items[..], k, idx) && info[idx] < InfoAt(inc, idx - w(k).0, w(k).1)
  {
    ghost var bytes, slots := info[..], items[..];
    var x := first;
    idx := home;
    while true
      invariant w(k).0 <= idx <= items.Length && x == InfoAt(inc, idx - w(k).0, w(k).1) && Passed(bytes, slots, k, idx)
      decreases items.Length - idx
    {
      if x == info[idx] && items[idx].key == k {
        return idx, true;
      }
      PassOne(w, inc, bytes, slots, k, idx);
      idx, x := idx + 1, x + inc;
      if x > info[idx] {
        return idx, false;
      }
      TailSmall(w, inc, bytes, slots, idx, x);
    }
  }

  /** The slots whose byte is at least that of the key: its search ends behind them. */
  method NextWhileNotAbove(info: array<nat>, items: array<Item>, inc: nat, k: int, home: nat, first: nat, ghost w: Placement)
    returns (idx: nat, x: nat)
    requires Layout(w, inc, info[..], items[..]) && home == w(k).0 <= items.Length && first == InfoAt(inc, 0, w(k).1)
    ensures w(k).0 <= idx <= items.Length && Run(info[..], w(k).0, idx) && x == InfoAt(inc, idx - w(k).0, w(k).1) && x > info[idx]
    ensures idx > w(k).0 ==> info[idx - 1] >= InfoAt(inc, idx - 1 - w(k).0, w(k).1)
  {
    ghost var bytes, slots := info[..], items[..];
    idx, x := home, first;
    while x <= info[idx]
      invariant w(k).0 <= idx <= items.Length && Run(bytes, w(k).0, idx) && x == InfoAt(inc, idx - w(k).0, w(k).1)
      invariant idx > w(k).0 ==> bytes[idx - 1] >= InfoAt(inc, idx - 1 - w(k).0, w(k).1)
      decreases items.Length - idx
    {
      TailSmall(w, inc, bytes, slots, idx, x);
      idx, x := idx + 1, x + inc;
    }
  }

  /** `nextWhileLess` */
  method NextWhileLess(info: array<nat>, items: array<Item>, inc: nat, k: int, home: nat, first: nat, ghost w: Placement)
    returns (idx: nat, x: nat)
    requires Layout(w, inc, info[..], items[..]) && Seeking(w, inc, info[..], items[..], k, home) && home == w(k).0
    requires first == InfoAt(inc, 0, w(k).1)
    ensures Seeking(w, inc, info[..], items[..], k, idx) && x == InfoAt(inc, idx - w(k).0, w(k).1) && x >= info[idx]
  {
    ghost var bytes, slots := info[..], items[..];
    idx, x := home, first;
    while x < info[idx]
      invariant Seeking(w, inc, bytes, slots, k, idx) && x == InfoAt(inc, idx - w(k).0, w(k).1)
      decreases items.Length - idx
    {
      TailSmall(w, inc, bytes, slots, idx, x);
      SeekOne(w, inc, bytes, slots, k, idx);
      idx, x := idx + 1, x + inc;
    }
  }

  /** The slots whose byte equals that of the key: the only ones whose keys are compared. */
  method EqualRun(info: array<nat>, items: array<Item>, inc: nat, k: int, start: nat, first: nat, ghost w: Placement)
    returns (idx: nat, x: nat, found: bool)
    requires Layout(w, inc, info[..], items[..]) && Seeking(w, inc, info[..], items[..], k, start)
    requires first == InfoAt(inc, start - w(k).0, w(k).1) && first >= info[start]
    ensures found ==> idx < items.Length && info[idx] != 0 && items[idx].key == k
    ensures !found ==> Seeking(w, inc, info[..], items[..], k, idx) && x == InfoAt(inc, idx - w(k).0, w(k).1) && x > info[idx]
  {
    ghost var bytes, slots := info[..], items[..];
    idx, x, found := start, first, false;
    while x == info[idx]
      invariant Seeking(w, inc, bytes, slots, k, idx) && x == InfoAt(inc, idx - w(k).0, w(k).1) && x >= info[idx]
      decreases items.Length - idx
    {
      TailSmall(w, inc, bytes, slots, idx, x);
      if items[idx].key == k {
        found := true;
        return;
      }
      StepBound(w, inc, bytes, slots, idx);
      SeekOne(w, inc, bytes, slots, k, idx);
      idx, x := idx + 1, x + inc;
    }
  }

  /** `shiftDown` */
  method ShiftDown(info: array<nat>, items: array<Item>, inc: nat, p: nat) returns (ghost e: nat)
    requires p < items.Length < info.Length && inc > 0 && info[items.Length] <= 1
    modifies info, items
    ensures ShiftedDown(inc, old(info[..]), old(items[..]), info[..], items[..], p, e)
    ensures (forall i :: p < i < e ==> old(info[i]) >= 2 * inc) && old(info[e]) < 2 * inc
  {
    ghost var bytes, slots := info[..], items[..];
    var idx := p;
    while info[idx + 1] >= 2 * inc
      invariant p <= idx < items.Length
      invariant forall i {:trigger items[i]} :: 0 <= i < p || idx <= i < items.Length ==> items[i] == slots[i]
      invariant forall i {:trigger info[i]} :: 0 <= i < p || idx <= i < info.Length ==> info[i] == bytes[i]
      invariant forall i {:trigger items[i]} :: p <= i < idx ==> items[i] == slots[i + 1]
      invariant forall i {:trigger info[i]} :: p <= i < idx ==> info[i] == bytes[i + 1] - inc
      invariant forall i {:trigger bytes[i]} :: p < i <= idx ==> bytes[i] >= 2 * inc
      decreases items.Length - idx
    {
      info[idx] := info[idx + 1] - inc;
      items[idx] := items[idx + 1];
      idx := idx + 1;
    }
    info[idx] := 0;
    e := idx + 1;
  }

  /** `shiftUp`, and the new item at slot p; `full` if a byte cannot be raised again. */
  method ShiftUp(info: array<nat>, items: array<Item>, inc: nat, p: nat, e: nat, x: nat, item: Item) returns (full: bool)
    requires p <= e < items.Length < info.Length
    modifies info, items
    ensures ShiftedUp(inc, old(info[..]), old(items[..]), info[..], items[..], p, e, x, item)
    ensures !full ==> Raisable(info[..], inc, p, e)
    ensures full ==> Crowded(info[..], inc, items.Length)
  {
    ShiftItemsUp(items, p, e);
    full := ShiftInfoUp(info, inc, p, e);
    info[p], items[p] := x, item;
    if x + inc > 0xFF {
      full := true;
    }
  }

  /** `shiftUp`, first part: the slots p to e - 1 move up by one. */
  method ShiftItemsUp(items: array<Item>, p: nat, e: nat)
    requires p <= e < items.Length
    modifies items
    ensures forall i {:trigger items[i]} :: 0 <= i <= p || e < i < items.Length ==> items[i] == old(items[i])
    ensures forall i {:trigger items[i]} :: p < i <= e ==> items[i] == old(items[i - 1])
  {
    var idx := e;
    while idx != p
      invariant p <= idx <= e
      invariant forall i {:trigger items[i]} :: 0 <= i <= idx || e < i < items.Length ==> items[i] == old(items[i])
      invariant forall i {:trigger items[i]} :: idx < i <= e ==> items[i] == old(items[i - 1])
    {
      items[idx] := items[idx - 1];
      idx := idx - 1;
    }
  }

  /** Second part: so do the info bytes, each one step further from home; `full` if
      one of them cannot be raised again. */
  method ShiftInfoUp(info: array<nat>, inc: nat, p: nat, e: nat) returns (full: bool)
    requires p <= e < info.Length
    modifies info
    ensures forall i {:trigger info[i]} :: 0 <= i <= p || e < i < info.Length ==> info[i] == old(info[i])
    ensures forall i {:trigger info[i]} :: p < i <= e ==> info[i] == old(info[i - 1]) + inc
    ensures !full ==> forall i :: p < i <= e ==> info[i] + inc <= 255
    ensures full ==> exists i :: p < i <= e && info[i] + inc > 255
  {
    full := false;
    ghost var big := p;
    var idx := e;
    while idx != p
      invariant p <= idx <= e
      invariant forall i {:trigger info[i]} :: 0 <= i <= idx || e < i < info.Length ==> info[i] == old(info[i])
      invariant forall i {:trigger info[i]} :: idx < i <= e ==> info[i] == old(info[i - 1]) + inc
      invariant !full ==> forall i :: idx < i <= e ==> info[i] + inc <= 255
      invariant full ==> idx < big <= e && info[big] + inc > 255
    {
      info[idx] := info[idx - 1] + inc;
      if info[idx] + inc > 0xFF {
        full, big := true, idx;
      }
      idx := idx - 1;
    }
  }

  /** The loop of `try_increase_info`: eight bytes at a time. */
  method HalveBytes(info: array<nat>, size: nat)
    requires info.Length == size + 8 && Bounded(info[..], info.Length, 255)
    modifies info
    ensures forall i :: 0 <= i < info.Length ==> info[i] == old(info[i]) / 2 || (i >= size && info[i] == old(info[i]))
    ensures forall i :: 0 <= i < size ==> info[i] == old(info[i]) / 2
  {
    var i := 0;
    while i < size
      invariant i <= size + 7
      invariant forall j {:trigger info[j]} :: 0 <= j < i ==> info[j] == old(info[j]) / 2
      invariant forall j {:trigger info[j]} :: i <= j < info.Length ==> info[j] == old(info[j])
    {
      ghost var bytes := info[i..i + 8];
      assert forall j :: 0 <= j < 8 ==> bytes[j] == old(info[i + j]);
      WordHalves(bytes);
      var word := Word(info[i..i + 8]);
      var halves := Bytes(Masked(word / 2, 8), 8);
      Store(info, i, halves);
      i := i + 8;
    }
  }

  method Store(info: array<nat>, at: nat, bytes: seq<nat>)
    requires at + |bytes| <= info.Length
    modifies info
    ensures forall j {:trigger info[j]} :: at <= j < at + |bytes| ==> info[j] == bytes[j - at]
    ensures forall j {:trigger info[j]} :: 0 <= j < at || at + |bytes| <= j < info.Length ==> info[j] == old(info[j])
  {
    var k := 0;
    while k < |bytes|
      invariant k <= |bytes|
      invariant forall j {:trigger info[j]} :: at <= j < at + k ==> info[j] == bytes[j - at]
      invariant forall j {:trigger info[j]} :: 0 <= j < at || at + k <= j < info.Length ==> info[j] == old(info[j])
    {
      info[at + k] := bytes[k];
      k := k + 1;
    }
  }

  lemma OneBitLess(hash: Hash, mult: nat, n: nat, inc: nat, scale: nat)
    requires n > 0 && IncOk(inc, scale)
    ensures Coarser(Placing(hash, mult, n, scale), Placing(hash, mult, n, 2 * scale))
  {
    forall k ensures hash(k, mult) % 32 / (2 * scale) == hash(k, mult) % 32 / scale / 2 {
      DivTwice(hash(k, mult) % 32, inc, scale);
    }
  }

  lemma DivTwice(x: nat, inc: nat, scale: nat)
    requires IncOk(inc, scale)
    ensures x / (2 * scale) == x / scale / 2
  {
    if scale == 1 {
    } else if scale == 2 {
      assert x / 4 == x / 2 / 2;
    } else if scale == 4 {
      assert x / 8 == x / 4 / 2;
    } else if scale == 8 {
      assert x / 16 == x / 8 / 2;
    } else {
      assert x / 32 == x / 16 / 2;
    }
  }

  /** The call sets key k whatever the table holds. */
  predicate Sets(op: Op, k: int) {
    (op.Put? && op.assign && op.key == k) || (op.Remove? && op.key == k)
  }

  /** No call from j up to n sets key k, and if `put` none puts it either. */
  predicate Leaves(ops: seq<Op>, j: nat, n: nat, k: int, put: bool)
    requires n <= |ops|
  {
    forall i :: j <= i < n ==> !Sets(ops[i], k) && (put ==> !(ops[i].Put? && ops[i].key == k))
  }

  /** A stored value stays until its key is assigned or removed. */
  lemma {:induction false} ValueStays(m: map<int, int>, ops: seq<Op>, j: nat, n: nat, k: int)
    requires j <= n <= |ops| && Leaves(ops, j, n, k, false) && k in StateAfter(MapAfter, m, ops[..j])
    ensures var now := StateAfter(MapAfter, m, ops[..n]); k in now && now[k] == StateAfter(MapAfter, m, ops[..j])[k]
    decreases n
  {
    if j < n {
      StateNext(MapAfter, m, ops, n - 1);
      ValueStays(m, ops, j, n - 1, k);
    }
  }

  /** An absent key stays absent until it is put. */
  lemma {:induction false} AbsenceStays(m: map<int, int>, ops: seq<Op>, j: nat, n: nat, k: int)
    requires j <= n <= |ops| && Leaves(ops, j, n, k, true) && k !in StateAfter(MapAfter, m, ops[..j])
    ensures k !in StateAfter(MapAfter, m, ops[..n])
    decreases n
  {
    if j < n {
      StateNext(MapAfter, m, ops, n - 1);
      AbsenceStays(m, ops, j, n - 1, k);
    }
  }

  /** Call j puts key k, for the first time since it was removed. */
  ghost predicate PutAfterRemoval(ops: seq<Op>, j: nat, k: int)
    requires j < |ops|
  {
    && ops[j].Put? && ops[j].key == k
    && exists i: nat :: i < j && ops[i] == Remove(k) && Leaves(ops, i + 1, j, k, true)
  }

  /** A lookup of a map answers: the value last assigned; the value first put after a
      removal; nothing after a removal alone. */
  lemma LookupsFindLatest(m: map<int, int>, ops: seq<Op>, n: nat, j: nat)
    requires j < n < |ops| && ops[n].Lookup?
    ensures var k, answer := ops[n].key, Replies(MapAfter, MapAnswer, m, ops)[n];
            && (ops[j].Put? && ops[j].key == k && ops[j].assign && Leaves(ops, j + 1, n, k, false) ==> answer == Done(true, Some(ops[j].val)))
            && (ops[j] == Remove(k) && Leaves(ops, j + 1, n, k, true) ==> answer == Done(false, None))
            && (PutAfterRemoval(ops, j, k) && Leaves(ops, j + 1, n, k, false) ==> answer == Done(true, Some(ops[j].val)))
  {
    var k := ops[n].key;
    ReplyAt(MapAfter, MapAnswer, m, ops, n);
    StateNext(MapAfter, m, ops, j);
    if ops[j].Put? && ops[j].key == k && ops[j].assign && Leaves(ops, j + 1, n, k, false) {
      ValueStays(m, ops, j + 1, n, k);
    }
    if ops[j] == Remove(k) && Leaves(ops, j + 1, n, k, true) {
      AbsenceStays(m, ops, j + 1, n, k);
    }
    if PutAfterRemoval(ops, j, k) && Leaves(ops, j + 1, n, k, false) {
      var i: nat :| i < j && ops[i] == Remove(k) && Leaves(ops, i + 1, j, k, true);
      StateNext(MapAfter, m, ops, i);
      AbsenceStays(m, ops, i + 1, j, k);
      ValueStays(m, ops, j + 1, n, k);
    }
  }
}
