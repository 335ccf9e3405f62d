/** Properties of an object, three to a record, in a chain of records. */
module PropertyChains {
  import opened Wrappers
  import opened Runs

  type Id = nat

  /** A property: the code of its name and its value. Code 0 marks an unused place. */
  datatype Item = Item(key: int, val: int)

  const UNUSED := Item(0, 0)

  datatype PropertySet = PropertySet(owner: Id, items: seq<Item>, next: Option<Id>)

  type Sets = map<Id, PropertySet>

  // ------------------------------------------------------------------------ lists of items

  function InUse(items: seq<Item>): seq<Item> {
    if items == [] then [] else (if items[0].key != 0 then [items[0]] else []) + InUse(items[1..])
  }

  ghost predicate AllInUse(items: seq<Item>) {
    forall i :: 0 <= i < |items| ==> items[i].key != 0
  }

  /** Up to three items, filled up to three. */
  function Padded(items: seq<Item>): (r: seq<Item>)
    requires |items| <= 3
    ensures |r| == 3 && r[..|items|] == items && forall i :: |items| <= i < 3 ==> r[i] == UNUSED
  {
    items + seq(3 - |items|, _ => UNUSED)
  }

  lemma {:induction false} InUseAll(items: seq<Item>, n: nat)
    requires AllInUse(items)
    ensures InUse(items + seq(n, _ => UNUSED)) == items
    decreases |items| + n
  {
    var pad := seq(n, _ => UNUSED);
    if items != [] {
      InUseAll(items[1..], n);
      assert (items + pad)[1..] == items[1..] + pad;
    } else if n > 0 {
      InUseAll([], n - 1);
      assert (items + pad)[1..] == [] + seq(n - 1, _ => UNUSED);
    }
  }

  // ------------------------------------------------------------------------------- chains

  /** The records from `head` on are those of `chain`, each once. */
  ghost predicate ChainOk(t: Sets, head: Option<Id>, chain: seq<Id>)
    decreases |chain|
  {
    if chain == [] then head == None
    else head == Some(chain[0]) && chain[0] in t && chain[0] !in chain[1..] && ChainOk(t, t[chain[0]].next, chain[1..])
  }

  /** The properties in a chain, in chain order. */
  ghost function Items(t: Sets, chain: seq<Id>): seq<Item> {
    if chain == [] then [] else (if chain[0] in t then InUse(t[chain[0]].items) else []) + Items(t, chain[1..])
  }

  /** Only records of the chain or new ones differ. */
  ghost predicate Kept(t: Sets, t': Sets, chain: seq<Id>) {
    forall x :: x in t && x !in chain ==> x in t' && t'[x] == t[x]
  }

  lemma {:induction false} ChainKept(t: Sets, t': Sets, head: Option<Id>, chain: seq<Id>)
    requires ChainOk(t, head, chain) && forall x :: x in chain && x in t ==> x in t' && t'[x] == t[x]
    ensures ChainOk(t', head, chain) && Items(t', chain) == Items(t, chain)
    decreases |chain|
  {
    if chain != [] {
      ChainKept(t, t', t[chain[0]].next, chain[1..]);
    }
  }

  lemma {:induction false} ChainIn(t: Sets, head: Option<Id>, chain: seq<Id>)
    requires ChainOk(t, head, chain)
    ensures forall x :: x in chain ==> x in t
    decreases |chain|
  {
    if chain != [] {
      ChainIn(t, t[chain[0]].next, chain[1..]);
    }
  }

  /** From record i of a chain on. */
  lemma {:induction false} ChainFrom(t: Sets, head: Option<Id>, chain: seq<Id>, i: nat)
    requires ChainOk(t, head, chain) && i < |chain|
    ensures chain[i] in t && t[chain[i]].next == (if i + 1 < |chain| then Some(chain[i + 1]) else None)
    decreases i
  {
    if i > 0 {
      ChainFrom(t, t[chain[0]].next, chain[1..], i - 1);
    }
  }

  lemma {:induction false} ItemsSplit(t: Sets, a: seq<Id>, b: seq<Id>)
    ensures Items(t, a + b) == Items(t, a) + Items(t, b)
  {
    if a == [] {
      assert a + b == b;
    } else {
      ItemsSplit(t, a[1..], b);
      assert (a + b)[1..] == a[1..] + b;
    }
  }

  // -------------------------------------------------------------------- lists as maps

  ghost predicate DistinctKeys(items: seq<Item>) {
    forall i, j :: 0 <= i < j < |items| ==> items[i].key != items[j].key
  }

  /** The items are exactly the pairs of the map, each once. */
  ghost predicate Holds(items: seq<Item>, m: map<int, int>) {
    && |items| == |m| && DistinctKeys(items) && AllInUse(items)
    && (forall i :: 0 <= i < |items| ==> items[i].key in m && m[items[i].key] == items[i].val)
    && (forall k :: k in m ==> Item(k, m[k]) in items)
  }

  /** The order of the items does not matter. */
  lemma HoldsAnyOrder(a: seq<Item>, b: seq<Item>, m: map<int, int>)
    requires Holds(a, m) && multiset(a) == multiset(b)
    ensures Holds(b, m)
  {
    assert |multiset(a)| == |a| && |multiset(b)| == |b|;
    forall i | 0 <= i < |b| ensures b[i].key in m && m[b[i].key] == b[i].val && b[i].key != 0 {
      assert b[i] in multiset(b) && b[i] in multiset(a);
      assert b[i] in a;
    }
    forall k | k in m ensures Item(k, m[k]) in b {
      assert Item(k, m[k]) in multiset(a);
    }
    forall i, j | 0 <= i < j < |b| ensures b[i].key != b[j].key {
      if b[i].key == b[j].key {
        assert b[i] == b[j];
        OnceIn(a, b[i]);
        TwiceIn(b, i, j);
      }
    }
  }

  lemma {:induction false} OnceIn(a: seq<Item>, x: Item)
    requires DistinctKeys(a)
    ensures multiset(a)[x] <= 1
  {
    if a != [] {
      OnceIn(a[1..], x);
      assert a == [a[0]] + a[1..];
      if x == a[0] && x in a[1..] {
        assert false;
      }
    }
  }

  lemma TwiceIn(b: seq<Item>, i: nat, j: nat)
    requires i < j < |b| && b[i] == b[j]
    ensures multiset(b)[b[i]] >= 2
  {
    assert b == b[..i] + [b[i]] + b[i + 1..j] + [b[j]] + b[j + 1..];
  }

  // -------------------------------------------------------------------- storing a group

  ghost predicate Below(t: Sets, top: nat) {
    forall x :: x in t ==> x < top
  }

  /** A new record in front of the chain. */
  lemma StoreKeeps(t: Sets, head: Option<Id>, chain: seq<Id>, id: Id, owner: Id, items: seq<Item>)
    requires ChainOk(t, head, chain) && id !in t && |items| <= 3 && AllInUse(items)
    ensures var t' := t[id := PropertySet(owner, Padded(items), head)];
            ChainOk(t', Some(id), [id] + chain) && Items(t', [id] + chain) == items + Items(t, chain)
  {
    var t' := t[id := PropertySet(owner, Padded(items), head)];
    ChainIn(t, head, chain);
    ChainKept(t, t', head, chain);
    InUseAll(items, 3 - |items|);
    assert ([id] + chain)[1..] == chain;
  }

  /** Record i of the chain is overwritten. */
  lemma OverwriteKeeps(t: Sets, head: Option<Id>, chain: seq<Id>, i: nat, items: seq<Item>)
    requires ChainOk(t, head, chain) && i < |chain| && chain[i] in t && |items| <= 3 && AllInUse(items)
    ensures var t' := t[chain[i] := t[chain[i]].(items := Padded(items))];
            ChainOk(t', head, chain) && Items(t', chain[..i + 1]) == Items(t, chain[..i]) + items
  {
    var id := chain[i];
    var t' := t[id := t[id].(items := Padded(items))];
    NextsKept(t, t', head, chain);
    ChainDistinct(t, head, chain);
    ItemsKept(t, t', chain[..i]);
    assert chain[..i + 1] == chain[..i] + [id] && [id][1..] == [];
    ItemsSplit(t', chain[..i], [id]);
    InUseAll(items, 3 - |items|);
    assert Items(t', [id]) == items;
  }

  lemma {:induction false} NextsKept(t: Sets, t': Sets, head: Option<Id>, chain: seq<Id>)
    requires ChainOk(t, head, chain) && forall x :: x in t ==> x in t' && t'[x].next == t[x].next
    ensures ChainOk(t', head, chain)
    decreases |chain|
  {
    if chain != [] {
      NextsKept(t, t', t[chain[0]].next, chain[1..]);
    }
  }

  lemma {:induction false} ItemsKept(t: Sets, t': Sets, chain: seq<Id>)
    requires forall i :: 0 <= i < |chain| ==> (chain[i] in t <==> chain[i] in t') && (chain[i] in t ==> t'[chain[i]] == t[chain[i]])
    ensures Items(t', chain) == Items(t, chain)
  {
    if chain != [] {
      ItemsKept(t, t', chain[1..]);
    }
  }

  lemma {:induction false} ChainDistinct(t: Sets, head: Option<Id>, chain: seq<Id>)
    requires ChainOk(t, head, chain)
    ensures forall i, j :: 0 <= i < j < |chain| ==> chain[i] != chain[j]
    decreases |chain|
  {
    if chain != [] {
      ChainDistinct(t, t[chain[0]].next, chain[1..]);
      forall i, j | 0 <= i < j < |chain| ensures chain[i] != chain[j] {
        assert chain[j] == chain[1..][j - 1];
        assert i > 0 ==> chain[i] == chain[1..][i - 1];
      }
    }
  }

  /** The number of records for n items. */
  function RecordsFor(n: nat): nat {
    (n + 2) / 3
  }

  // ----------------------------------------------------------------------- the operations

  ghost function Times(s: seq<Item>, x: Item): nat {
    multiset(s)[x]
  }

  /** a and b together are a permutation of c. */
  ghost predicate Together(a: seq<Item>, b: seq<Item>, c: seq<Item>) {
    forall x :: Times(a, x) + Times(b, x) == Times(c, x)
  }

  datatype Aspect = ItemsAspect | PendingAspect | RecordsAspect

  ghost predicate ProgressIn(a: Aspect, props: seq<Item>, n: nat, pending: seq<Item>, stored: seq<Item>, records: nat) {
    match a
    case ItemsAspect => n <= |props| && Together(stored, pending, props[..n])
    case PendingAspect => |pending| <= 2 && |pending| <= n && AllInUse(pending)
    case RecordsAspect => if n == |props| then pending == [] && records == RecordsFor(n) else 3 * records + |pending| == n
  }

  /** How far a loop over the list `props` has come: n items seen, `pending` of them not
      stored yet, `stored` stored in `records` records. */
  ghost predicate Progress(props: seq<Item>, n: nat, pending: seq<Item>, stored: seq<Item>, records: nat) {
    forall a :: ProgressIn(a, props, n, pending, stored, records)
  }

  lemma Aspects(props: seq<Item>, n: nat, pending: seq<Item>, stored: seq<Item>, records: nat)
    requires Progress(props, n, pending, stored, records)
    ensures n <= |props| && Together(stored, pending, props[..n]) && |pending| <= 2 && |pending| <= n && AllInUse(pending)
    ensures if n == |props| then pending == [] && records == RecordsFor(n) else 3 * records + |pending| == n
  {
    assert ProgressIn(ItemsAspect, props, n, pending, stored, records) && ProgressIn(PendingAspect, props, n, pending, stored, records);
    assert ProgressIn(RecordsAspect, props, n, pending, stored, records);
  }

  lemma Start(props: seq<Item>)
    ensures Progress(props, 0, [], [], 0)
  {
  }

  /** The waiting items and the next one fit into a record. */
  lemma GroupFits(props: seq<Item>, n: nat, pending: seq<Item>, stored: seq<Item>, records: nat)
    requires Progress(props, n, pending, stored, records) && n < |props| && AllInUse(props)
    ensures |pending + [props[n]]| <= 3 && AllInUse(pending + [props[n]])
  {
    Aspects(props, n, pending, stored, records);
  }

  /** One more item waits to be stored. */
  lemma Wait(props: seq<Item>, n: nat, pending: seq<Item>, stored: seq<Item>, records: nat)
    requires Progress(props, n, pending, stored, records) && n + 1 < |props| && |pending| < 2 && props[n].key != 0
    ensures Progress(props, n + 1, pending + [props[n]], stored, records)
  {
    Aspects(props, n, pending, stored, records);
    assert props[..n + 1] == props[..n] + [props[n]];
    forall x ensures Times(stored, x) + Times(pending + [props[n]], x) == Times(props[..n + 1], x) {
      assert Times(stored, x) + Times(pending, x) == Times(props[..n], x);
    }
  }

  /** The waiting items and one more are stored in a record. */
  lemma Flush(props: seq<Item>, n: nat, pending: seq<Item>, stored: seq<Item>, records: nat, stored': seq<Item>, records': nat)
    requires Progress(props, n, pending, stored, records) && n < |props| && (n + 1 == |props| || |pending| == 2)
    requires stored' == stored + (pending + [props[n]]) || stored' == (pending + [props[n]]) + stored
    requires records' == records + 1
    ensures Progress(props, n + 1, [], stored', records')
  {
    Aspects(props, n, pending, stored, records);
    assert props[..n + 1] == props[..n] + [props[n]];
    forall x ensures Times(stored', x) + Times([], x) == Times(props[..n + 1], x) {
      assert Times(stored, x) + Times(pending, x) == Times(props[..n], x);
    }
  }

  lemma Finish(props: seq<Item>, n: nat, pending: seq<Item>, stored: seq<Item>, records: nat)
    requires Progress(props, n, pending, stored, records) && n >= |props|
    ensures multiset(stored) == multiset(props) && records == RecordsFor(|props|)
  {
    Aspects(props, n, pending, stored, records);
    assert props[..|props|] == props;
    forall x ensures multiset(stored)[x] == multiset(props)[x] {
      assert Times(stored, x) + Times([], x) == Times(props, x);
    }
  }

  /** An update of a chain has come to record i and put the records `added` in front. */
  datatype Cursor = Cursor(chain: seq<Id>, added: seq<Id>, i: nat)

  /** The records written so far. */
  ghost function Done(c: Cursor): seq<Id>
    requires c.i <= |c.chain|
  {
    c.added + c.chain[..c.i]
  }

  datatype Part = WholePart | CurrentPart

  ghost predicate AtIn(part: Part, t: Sets, head: Option<Id>, current: Option<Id>, c: Cursor, done: seq<Id>) {
    match part
    case WholePart => ChainOk(t, head, c.added + c.chain) && c.i <= |c.chain| && (c.i < |c.chain| ==> c.added == []) && done == Done(c)
    case CurrentPart => current == if c.i < |c.chain| then Some(c.chain[c.i]) else None
  }

  ghost predicate At(t: Sets, head: Option<Id>, current: Option<Id>, c: Cursor, done: seq<Id>) {
    forall part :: AtIn(part, t, head, current, c, done)
  }

  lemma AtStart(t: Sets, head: Option<Id>, chain: seq<Id>)
    requires ChainOk(t, head, chain)
    ensures At(t, head, if chain == [] then None else Some(chain[0]), Cursor(chain, [], 0), [])
  {
    assert [] + chain == chain && [] + chain[..0] == [];
  }

  lemma PlacedOld(t: Sets, head: Option<Id>, chain: seq<Id>, i: nat)
    requires ChainOk(t, head, chain) && i < |chain|
    ensures At(t, head, if i + 1 < |chain| then Some(chain[i + 1]) else None, Cursor(chain, [], i + 1), chain[..i + 1])
  {
    NoneAdded(chain);
    NoneAdded(chain[..i + 1]);
  }

  lemma NoneAdded(chain: seq<Id>)
    ensures [] + chain == chain
  {
  }

  lemma PlacedNew(t: Sets, chain: seq<Id>, added: seq<Id>, id: Id)
    requires ChainOk(t, Some(id), [id] + (added + chain))
    ensures At(t, Some(id), None, Cursor(chain, [id] + added, |chain|), [id] + (added + chain))
  {
    assert [id] + (added + chain) == ([id] + added) + chain && chain[..|chain|] == chain;
  }

  /** The current record is the next one of the old chain, or there is none left. */
  lemma AtCases(t: Sets, head: Option<Id>, current: Option<Id>, c: Cursor, done: seq<Id>)
    requires At(t, head, current, c, done)
    ensures current.Some? ==> c.i < |c.chain| && ChainOk(t, head, c.chain) && done == c.chain[..c.i] && current.value == c.chain[c.i] && c.added == []
    ensures current.None? ==> c.i == |c.chain| && ChainOk(t, head, done) && done == c.added + c.chain
  {
    assert AtIn(WholePart, t, head, current, c, done) && AtIn(CurrentPart, t, head, current, c, done);
    if current.Some? {
      assert [] + c.chain == c.chain && [] + c.chain[..c.i] == c.chain[..c.i];
    } else {
      assert c.chain[..|c.chain|] == c.chain;
    }
  }

  lemma AtEnd(t: Sets, head: Option<Id>, current: Option<Id>, c: Cursor, done: seq<Id>)
    requires At(t, head, current, c, done) && |done| >= |c.chain|
    ensures ChainOk(t, head, done) && done == c.added + c.chain
  {
    assert AtIn(WholePart, t, head, current, c, done);
    assert c.chain[..|c.chain|] == c.chain;
  }

  ghost predicate From(ids: seq<Id>, least: nat) {
    forall x :: x in ids ==> x >= least
  }

  lemma OldOrNew(t: Sets, top: nat, added: seq<Id>, chain: seq<Id>)
    requires Below(t, top) && From(added, top)
    ensures forall x :: x in added + chain ==> x in chain || x !in t
  {
  }

  class PropertyTable {
    var sets: Sets
    var top: nat

    ghost predicate Valid()
      reads this
    {
      Below(sets, top)
    }

    constructor ()
      ensures Valid() && sets == map[]
    {
      sets, top := map[], 0;
    }

    /** A new record in front of a chain. */
    method Store(owner: Id, head: Option<Id>, items: seq<Item>, ghost chain: seq<Id>) returns (id: Id)
      requires Valid() && ChainOk(sets, head, chain) && |items| <= 3 && AllInUse(items)
      modifies this
      ensures Valid() && id == old(top) && top == old(top) + 1 && Kept(old(sets), sets, [])
      ensures ChainOk(sets, Some(id), [id] + chain) && Items(sets, [id] + chain) == items + Items(old(sets), chain)
    {
      StoreKeeps(sets, head, chain, top, owner, items);
      id, top := top, top + 1;
      sets := sets[id := PropertySet(owner, Padded(items), head)];
    }

    /** `add_pitems`: the items go to new records, and each record is put in front of the
        one before. */
    method AddItems(owner: Id, props: seq<Item>) returns (head: Option<Id>, ghost chain: seq<Id>)
      requires Valid() && AllInUse(props)
      modifies this
      ensures Valid() && ChainOk(sets, head, chain) && multiset(Items(sets, chain)) == multiset(props) && |chain| == RecordsFor(|props|)
      ensures Kept(old(sets), sets, []) && forall x :: x in chain ==> x !in old(sets)
    {
      head, chain := None, [];
      var n, pending := 0, [];
      ghost var sets0, top0 := sets, top;
      Start(props);
      while n < |props|
        invariant Valid() && top >= top0 && ChainOk(sets, head, chain) && Progress(props, n, pending, Items(sets, chain), |chain|)
        invariant Kept(sets0, sets, []) && forall x :: x in chain ==> x >= top0
      {
        GroupFits(props, n, pending, Items(sets, chain), |chain|);
        var group := pending + [props[n]];
        if n + 1 == |props| || |group| == 3 {
          ghost var stored := Items(sets, chain);
          var id := Store(owner, head, group, chain);
          head, chain := Some(id), [id] + chain;
          Flush(props, n, pending, stored, |chain| - 1, Items(sets, chain), |chain|);
          pending := [];
        } else {
          Wait(props, n, pending, Items(sets, chain), |chain|);
          pending := group;
        }
        n := n + 1;
      }
      Finish(props, n, pending, Items(sets, chain), |chain|);
    }

    /** Record i of a chain gets other items. */
    method Overwrite(id: Id, items: seq<Item>, ghost head: Option<Id>, ghost chain: seq<Id>, ghost i: nat) returns (next: Option<Id>)
      requires Valid() && ChainOk(sets, head, chain) && i < |chain| && chain[i] == id && |items| <= 3 && AllInUse(items)
      modifies this`sets
      ensures Valid() && Kept(old(sets), sets, chain) && next == if i + 1 < |chain| then Some(chain[i + 1]) else None
      ensures ChainOk(sets, head, chain) && Items(sets, chain[..i + 1]) == Items(old(sets), chain[..i]) + items
    {
      ChainFrom(sets, head, chain, i);
      OverwriteKeeps(sets, head, chain, i, items);
      next := sets[id].next;
      sets := sets[id := sets[id].(items := Padded(items))];
    }

    /** One group of items goes to the current record of the old chain or, behind its end,
        to a new record in front of everything. */
    method Place(owner: Id, group: seq<Item>, current: Option<Id>, head: Option<Id>, ghost c: Cursor, ghost done: seq<Id>,
                 ghost least: nat)
      returns (current': Option<Id>, head': Option<Id>, ghost c': Cursor, ghost done': seq<Id>)
      requires Valid() && |group| <= 3 && AllInUse(group) && At(sets, head, current, c, done) && From(c.added, least) && least <= top
      modifies this
      ensures Valid() && top >= old(top) && Kept(old(sets), sets, c.chain) && At(sets, head', current', c', done')
      ensures c'.chain == c.chain && |done'| == |done| + 1 && From(c'.added, least)
      ensures Items(sets, done') == Items(old(sets), done) + group || Items(sets, done') == group + Items(old(sets), done)
    {
      AtCases(sets, head, current, c, done);
      if current.Some? {
        head' := head;
        current', c', done' := PlaceInOld(group, current.value, head, c);
      } else {
        current' := current;
        head', c', done' := PlaceInFront(owner, group, head, c, done, least);
      }
    }

    method PlaceInOld(group: seq<Item>, id: Id, ghost head: Option<Id>, ghost c: Cursor)
      returns (next: Option<Id>, ghost c': Cursor, ghost done': seq<Id>)
      requires Valid() && |group| <= 3 && AllInUse(group) && ChainOk(sets, head, c.chain) && c.i < |c.chain| && c.chain[c.i] == id
      modifies this`sets
      ensures Valid() && Kept(old(sets), sets, c.chain) && At(sets, head, next, c', done')
      ensures c' == Cursor(c.chain, [], c.i + 1) && |done'| == c.i + 1
      ensures Items(sets, done') == Items(old(sets), c.chain[..c.i]) + group
    {
      next := Overwrite(id, group, head, c.chain, c.i);
      c', done' := Cursor(c.chain, [], c.i + 1), c.chain[..c.i + 1];
      PlacedOld(sets, head, c.chain, c.i);
    }

    method PlaceInFront(owner: Id, group: seq<Item>, head: Option<Id>, ghost c: Cursor, ghost done: seq<Id>, ghost least: nat)
      returns (head': Option<Id>, ghost c': Cursor, ghost done': seq<Id>)
      requires Valid() && |group| <= 3 && AllInUse(group) && ChainOk(sets, head, done) && done == c.added + c.chain
      requires From(c.added, least) && least <= top
      modifies this
      ensures Valid() && top >= old(top) && Kept(old(sets), sets, c.chain) && At(sets, head', None, c', done')
      ensures c'.chain == c.chain && |done'| == |done| + 1 && From(c'.added, least)
      ensures Items(sets, done') == group + Items(old(sets), done)
    {
      var id := Store(owner, head, group, done);
      head', c', done' := Some(id), Cursor(c.chain, [id] + c.added, |c.chain|), [id] + done;
      PlacedNew(sets, c.chain, c.added, id);
    }

    /** `update_pitems`: the list of all items, old and new, overwrites the records of the
        chain; what does not fit goes to new records in front. */
    method UpdateItems(owner: Id, id: Option<Id>, props: seq<Item>, ghost chain: seq<Id>) returns (head: Option<Id>, ghost chain': seq<Id>)
      requires Valid() && ChainOk(sets, id, chain) && AllInUse(props) && |chain| <= RecordsFor(|props|)
      modifies this
      ensures Valid() && ChainOk(sets, head, chain') && multiset(Items(sets, chain')) == multiset(props) && |chain'| == RecordsFor(|props|)
      ensures Kept(old(sets), sets, chain) && forall x :: x in chain' ==> x in chain || x !in old(sets)
    {
      head, chain' := id, [];
      var n, pending, current := 0, [], id;
      ghost var sets0, top0, c := sets, top, Cursor(chain, [], 0);
      Start(props);
      AtStart(sets, id, chain);
      assert current == if chain == [] then None else Some(chain[0]);
      while n < |props|
        invariant Valid() && top >= top0 && Kept(sets0, sets, chain) && At(sets, head, current, c, chain') && c.chain == chain
        invariant Progress(props, n, pending, Items(sets, chain'), |chain'|)
        invariant From(c.added, top0)
      {
        var group := pending + [props[n]];
        ghost var stored, records := Items(sets, chain'), |chain'|;
        GroupFits(props, n, pending, stored, records);
        if n + 1 == |props| || |group| == 3 {
          current, head, c, chain' := Place(owner, group, current, head, c, chain', top0);
          Flush(props, n, pending, stored, records, Items(sets, chain'), |chain'|);
          pending := [];
        } else {
          Wait(props, n, pending, stored, records);
          pending := group;
        }
        n := n + 1;
      }
      Finish(props, n, pending, Items(sets, chain'), |chain'|);
      AtEnd(sets, head, current, c, chain');
      OldOrNew(sets0, top0, c.added, chain);
    }

    /** `build_dirty_property_list`: the items in use, in chain order. */
    method BuildList(id: Option<Id>, ghost chain: seq<Id>) returns (items: seq<Item>)
      requires ChainOk(sets, id, chain)
      ensures items == Items(sets, chain)
    {
      items := [];
      var current := id;
      ghost var i := 0;
      while current.Some?
        invariant i <= |chain| && items == Items(sets, chain[..i]) && current == if i < |chain| then Some(chain[i]) else None
        decreases |chain| - i
      {
        ChainFrom(sets, id, chain, i);
        assert chain[..i + 1] == chain[..i] + [chain[i]] && [chain[i]][1..] == [];
        ItemsSplit(sets, chain[..i], [chain[i]]);
        items := items + InUse(sets[current.value].items);
        current, i := sets[current.value].next, i + 1;
      }
      assert chain[..i] == chain;
    }

    /** `property_value` of a property code: the value stored for it, if there is one. */
    method PropertyValue(id: Option<Id>, key: int, ghost chain: seq<Id>, ghost m: map<int, int>) returns (r: Option<Item>)
      requires ChainOk(sets, id, chain) && Holds(Items(sets, chain), m) && key != 0
      ensures r == if key in m then Some(Item(key, m[key])) else None
    {
      var current := id;
      ghost var i := 0;
      while current.Some?
        invariant i <= |chain| && current == (if i < |chain| then Some(chain[i]) else None)
        invariant forall x :: x in Items(sets, chain[..i]) ==> x.key != key
        decreases |chain| - i
      {
        ChainFrom(sets, id, chain, i);
        ItemsAt(sets, chain, i);
        r := FindItem(sets[current.value].items, key);
        if r.Some? {
          assert r.value in Items(sets, chain);
          return;
        }
        current, i := sets[current.value].next, i + 1;
      }
      assert chain[..i] == chain;
      r := None;
    }

    /** An update of the properties of an object: the list is rebuilt, the updates are
        applied to it, and it is written back. */
    method Update(owner: Id, id: Option<Id>, updates: seq<Item>, ghost chain: seq<Id>, ghost m: map<int, int>)
      returns (head: Option<Id>, ghost chain': seq<Id>)
      requires Valid() && Stores(sets, id, chain, m) && DistinctKeys(updates) && AllInUse(updates)
      modifies this
      ensures Valid() && Stores(sets, head, chain', Overridden(m, updates)) && IsOverridden(m, updates, Overridden(m, updates))
      ensures Kept(old(sets), sets, chain) && forall x :: x in chain' ==> x in chain || x !in old(sets)
    {
      var items := BuildList(id, chain);
      var props := ApplyUpdates(items, updates, m);
      OverriddenSize(m, updates);
      head, chain' := UpdateItems(owner, id, props, chain);
      HoldsAnyOrder(props, Items(sets, chain'), Overridden(m, updates));
    }

    /** The first properties of an object. */
    method Add(owner: Id, props: seq<Item>, ghost m: map<int, int>) returns (head: Option<Id>, ghost chain: seq<Id>)
      requires Valid() && Holds(props, m)
      modifies this
      ensures Valid() && Stores(sets, head, chain, m)
      ensures Kept(old(sets), sets, []) && forall x :: x in chain ==> x !in old(sets)
    {
      head, chain := AddItems(owner, props);
      HoldsAnyOrder(props, Items(sets, chain), m);
    }
  }

  /** The chain from `head` stores the map m in the smallest number of records. */
  ghost predicate Stores(t: Sets, head: Option<Id>, chain: seq<Id>, m: map<int, int>) {
    ChainOk(t, head, chain) && Holds(Items(t, chain), m) && |chain| == RecordsFor(|m|)
  }

  lemma ItemsAt(t: Sets, chain: seq<Id>, i: nat)
    requires i < |chain| && chain[i] in t
    ensures Items(t, chain[..i + 1]) == Items(t, chain[..i]) + InUse(t[chain[i]].items)
    ensures forall x :: x in InUse(t[chain[i]].items) ==> x in Items(t, chain)
  {
    assert chain[..i + 1] == chain[..i] + [chain[i]] && [chain[i]][1..] == [];
    ItemsSplit(t, chain[..i], [chain[i]]);
    assert chain == chain[..i + 1] + chain[i + 1..];
    ItemsSplit(t, chain[..i + 1], chain[i + 1..]);
  }

  /** The first item of a record with the given code. */
  method FindItem(items: seq<Item>, key: int) returns (r: Option<Item>)
    requires key != 0
    ensures r.Some? ==> r.value.key == key && r.value in InUse(items)
    ensures r.None? ==> forall x :: x in InUse(items) ==> x.key != key
  {
    var i := 0;
    InUseExact(items);
    while i < |items|
      invariant i <= |items| && forall j :: 0 <= j < i ==> items[j].key != key
    {
      if items[i].key == key {
        return Some(items[i]);
      }
      i := i + 1;
    }
    r := None;
  }

  lemma {:induction false} InUseExact(items: seq<Item>)
    ensures forall x :: x in InUse(items) <==> x in items && x.key != 0
  {
    if items != [] {
      InUseExact(items[1..]);
      assert items == [items[0]] + items[1..];
    }
  }

  /** A map after updates, in order. */
  function Overridden(m: map<int, int>, updates: seq<Item>): map<int, int> {
    if updates == [] then m
    else
      var last := updates[|updates| - 1];
      Overridden(m, updates[..|updates| - 1])[last.key := last.val]
  }

  /** After distinct updates every updated key has the value of its update, every other key
      has what it had, and there is no other key. */
  ghost predicate IsOverridden(m: map<int, int>, updates: seq<Item>, m': map<int, int>) {
    && (forall i :: 0 <= i < |updates| ==> updates[i].key in m' && m'[updates[i].key] == updates[i].val)
    && (forall k :: k in m && !Touches(updates, k) ==> k in m' && m'[k] == m[k])
    && (forall k :: k in m' ==> k in m || Touches(updates, k))
  }

  predicate Touches(updates: seq<Item>, k: int) {
    exists i :: 0 <= i < |updates| && updates[i].key == k
  }

  lemma {:induction false} OverriddenIs(m: map<int, int>, updates: seq<Item>)
    requires DistinctKeys(updates)
    ensures IsOverridden(m, updates, Overridden(m, updates))
  {
    if updates != [] {
      var n := |updates| - 1;
      var front, m1, m' := updates[..n], Overridden(m, updates[..n]), Overridden(m, updates);
      OverriddenIs(m, front);
      forall i | 0 <= i < n ensures updates[i].key in m' && m'[updates[i].key] == updates[i].val {
        assert front[i] == updates[i];
      }
      forall k | !Touches(updates, k) ensures !Touches(front, k) && k != updates[n].key {
        assert forall i :: 0 <= i < n ==> front[i] == updates[i];
      }
      forall k | k in m' ensures k in m || Touches(updates, k) {
        if k in m1 && k !in m {
          var i :| 0 <= i < n && front[i].key == k;
          assert updates[i].key == k;
        }
      }
    }
  }

  lemma {:induction false} OverriddenSize(m: map<int, int>, updates: seq<Item>)
    ensures |m| <= |Overridden(m, updates)| && m.Keys <= Overridden(m, updates).Keys
  {
    if updates != [] {
      OverriddenSize(m, updates[..|updates| - 1]);
    }
  }

  /** One update of a list: it replaces the item with its code or is appended. */
  lemma ReplaceHolds(items: seq<Item>, m: map<int, int>, j: nat, u: Item)
    requires Holds(items, m) && j < |items| && items[j].key == u.key
    ensures Holds(items[j := u], m[u.key := u.val])
  {
    var items', m' := items[j := u], m[u.key := u.val];
    forall k | k in m' ensures Item(k, m'[k]) in items' {
      if k == u.key {
        assert items'[j] == Item(k, m'[k]);
      } else {
        var i :| 0 <= i < |items| && items[i] == Item(k, m[k]);
        assert items'[i] == Item(k, m'[k]);
      }
    }
  }

  lemma AppendHolds(items: seq<Item>, m: map<int, int>, u: Item)
    requires Holds(items, m) && u.key !in m && u.key != 0
    ensures Holds(items + [u], m[u.key := u.val])
  {
    var items', m' := items + [u], m[u.key := u.val];
    assert items'[|items|] == u;
    forall k | k in m' ensures Item(k, m'[k]) in items' {
      if k != u.key {
        assert Item(k, m[k]) in items;
      }
    }
  }

  lemma Replaced(list: seq<Item>, todo: seq<Item>, m: map<int, int>, j: nat, u: Item)
    requires Holds(list + todo, m) && j < |list| && list[j].key == u.key
    ensures Holds(list[j := u] + todo, m[u.key := u.val])
  {
    ReplaceHolds(list + todo, m, j, u);
    assert (list + todo)[j := u] == list[j := u] + todo;
  }

  lemma Appended(list: seq<Item>, todo: seq<Item>, m: map<int, int>, u: Item)
    requires Holds(list + todo, m) && u.key !in m && u.key != 0
    ensures Holds(list + (todo + [u]), m[u.key := u.val])
  {
    AppendHolds(list + todo, m, u);
    assert (list + todo) + [u] == list + (todo + [u]);
  }

  /** `apply_updates`: items with the code of an update are replaced in place, the other
      updates are appended. */
  method ApplyUpdates(items: seq<Item>, updates: seq<Item>, ghost m: map<int, int>) returns (r: seq<Item>)
    requires Holds(items, m) && DistinctKeys(updates) && AllInUse(updates)
    ensures Holds(r, Overridden(m, updates)) && IsOverridden(m, updates, Overridden(m, updates))
  {
    OverriddenIs(m, updates);
    var list, todo := items, [];
    var n := 0;
    assert items + [] == items;
    while n < |updates|
      invariant n <= |updates| && |list| == |items| && Holds(list + todo, Overridden(m, updates[..n]))
      invariant forall i :: 0 <= i < |todo| ==> todo[i] in updates[..n]
    {
      var u := updates[n];
      var j := FindKey(list, u.key);
      assert updates[..n + 1][..n] == updates[..n];
      if j < |list| {
        Replaced(list, todo, Overridden(m, updates[..n]), j, u);
        list := list[j := u];
      } else {
        NotListed(list, todo, Overridden(m, updates[..n]), updates, n);
        Appended(list, todo, Overridden(m, updates[..n]), u);
        todo := todo + [u];
      }
      n := n + 1;
    }
    assert updates[..n] == updates;
    r := list + todo;
  }

  method FindKey(list: seq<Item>, key: int) returns (j: nat)
    ensures j <= |list| && (j < |list| ==> list[j].key == key) && forall i :: 0 <= i < j ==> list[i].key != key
  {
    j := 0;
    while j < |list| && list[j].key != key
      invariant j <= |list| && forall i :: 0 <= i < j ==> list[i].key != key
    {
      j := j + 1;
    }
  }

  lemma NotListed(list: seq<Item>, todo: seq<Item>, m: map<int, int>, updates: seq<Item>, n: nat)
    requires n < |updates| && DistinctKeys(updates) && Holds(list + todo, m)
    requires (forall i :: 0 <= i < |todo| ==> todo[i] in updates[..n]) && forall i :: 0 <= i < |list| ==> list[i].key != updates[n].key
    ensures updates[n].key !in m
  {
    var k, all := updates[n].key, list + todo;
    forall i | 0 <= i < |all| ensures all[i].key != k {
      if i >= |list| {
        assert all[i] == todo[i - |list|];
        var j :| 0 <= j < n && updates[..n][j] == all[i];
        assert updates[j].key != k;
      }
    }
  }

  // ---------------------------------------------------------------- the chains of all owners

  type Props = map<int, int>

  ghost predicate Apart(a: seq<Id>, b: seq<Id>) {
    forall x :: x in a ==> x !in b
  }

  /** The chains of the owners are pairwise disjoint. */
  ghost predicate Disjoint(chains: map<Id, seq<Id>>) {
    forall o, q :: o in chains && q in chains && o != q ==> Apart(chains[o], chains[q])
  }

  ghost predicate OwnerStores(t: Sets, heads: map<Id, Option<Id>>, chains: map<Id, seq<Id>>, m: map<Id, Props>, o: Id)
    requires o in heads && o in chains && o in m
  {
    Stores(t, heads[o], chains[o], m[o])
  }

  /** Every owner's chain stores the owner's properties. */
  ghost predicate AllStored(t: Sets, heads: map<Id, Option<Id>>, chains: map<Id, seq<Id>>, m: map<Id, Props>) {
    && heads.Keys == chains.Keys == m.Keys && Disjoint(chains)
    && forall o :: o in m ==> OwnerStores(t, heads, chains, m, o)
  }

  /** A chain apart from the changed records keeps what it stores. */
  lemma StoresKept(t: Sets, t': Sets, head: Option<Id>, chain: seq<Id>, m: Props, changed: seq<Id>)
    requires Stores(t, head, chain, m) && Kept(t, t', changed) && Apart(chain, changed)
    ensures Stores(t', head, chain, m) && forall x :: x in chain ==> x in t
  {
    ChainIn(t, head, chain);
    ChainKept(t, t', head, chain);
  }

  ghost function ChainOf(chains: map<Id, seq<Id>>, o: Id): seq<Id> {
    if o in chains then chains[o] else []
  }

  function PropsOf(m: map<Id, Props>, o: Id): Props {
    if o in m then m[o] else map[]
  }

  /** A new chain of one owner, of records of its old chain and new ones, is apart from
      the chains of all others, and those are as they were. */
  lemma OthersStore(t: Sets, t': Sets, heads: map<Id, Option<Id>>, chains: map<Id, seq<Id>>, m: map<Id, Props>, o: Id, chain: seq<Id>, q: Id)
    requires AllStored(t, heads, chains, m) && Kept(t, t', ChainOf(chains, o)) && q in m && q != o
    requires forall x :: x in chain ==> x in ChainOf(chains, o) || x !in t
    ensures OwnerStores(t', heads, chains, m, q) && Apart(chains[q], chain) && Apart(chain, chains[q])
  {
    assert OwnerStores(t, heads, chains, m, q);
    assert o in chains ==> Apart(chains[q], chains[o]);
    StoresKept(t, t', heads[q], chains[q], m[q], ChainOf(chains, o));
  }

  lemma OneOwnerChanges(t: Sets, t': Sets, heads: map<Id, Option<Id>>, chains: map<Id, seq<Id>>, m: map<Id, Props>,
                        o: Id, head: Option<Id>, chain: seq<Id>, props: Props)
    requires AllStored(t, heads, chains, m) && Kept(t, t', ChainOf(chains, o)) && Stores(t', head, chain, props)
    requires forall x :: x in chain ==> x in ChainOf(chains, o) || x !in t
    ensures AllStored(t', heads[o := head], chains[o := chain], m[o := props])
  {
    forall q | q in m && q != o ensures OwnerStores(t', heads, chains, m, q) && Apart(chains[q], chain) && Apart(chain, chains[q]) {
      OthersStore(t, t', heads, chains, m, o, chain, q);
    }
    PutOwner(t', heads, chains, m, o, head, chain, props);
  }

  /** One owner with a chain apart from all others. */
  lemma PutOwner(t: Sets, heads: map<Id, Option<Id>>, chains: map<Id, seq<Id>>, m: map<Id, Props>, o: Id, head: Option<Id>, chain: seq<Id>, props: Props)
    requires heads.Keys == chains.Keys == m.Keys && Disjoint(chains) && Stores(t, head, chain, props)
    requires forall q :: q in m && q != o ==> OwnerStores(t, heads, chains, m, q) && Apart(chains[q], chain) && Apart(chain, chains[q])
    ensures AllStored(t, heads[o := head], chains[o := chain], m[o := props])
  {
    var heads', chains', m' := heads[o := head], chains[o := chain], m[o := props];
    forall q | q in m' ensures OwnerStores(t, heads', chains', m', q) {
      assert q != o ==> OwnerStores(t, heads, chains, m, q);
    }
  }

  // ------------------------------------------------------------------- sequences of calls

  datatype Op = Add(owner: Id, props: seq<Item>) | Update(owner: Id, updates: seq<Item>) | Read(owner: Id, key: int)

  /** What a call does to the properties of all owners, and its answer there. */
  function PropsAfter(m: map<Id, Props>, op: Op): map<Id, Props> {
    match op
    case Add(o, props) => m[o := Overridden(map[], props)]
    case Update(o, updates) => m[o := Overridden(PropsOf(m, o), updates)]
    case Read(_, _) => m
  }

  function PropsAnswer(m: map<Id, Props>, op: Op): Option<Item> {
    if op.Read? && op.key in PropsOf(m, op.owner) then Some(Item(op.key, PropsOf(m, op.owner)[op.key])) else None
  }

  /** Properties are added once, and no list names a code twice or the code 0. */
  ghost predicate Proper(m: map<Id, Props>, op: Op) {
    match op
    case Add(o, props) => o !in m && DistinctKeys(props) && AllInUse(props)
    case Update(_, updates) => DistinctKeys(updates) && AllInUse(updates)
    case Read(_, key) => key != 0
  }

  /** A list of distinct codes is the map it describes. */
  lemma {:induction false} ListHolds(props: seq<Item>)
    requires DistinctKeys(props) && AllInUse(props)
    ensures Holds(props, Overridden(map[], props))
  {
    if props != [] {
      var n := |props| - 1;
      var front := props[..n];
      ListHolds(front);
      forall k | k in Overridden(map[], front) ensures k != props[n].key {
        assert Item(k, Overridden(map[], front)[k]) in front;
      }
      AppendHolds(front, Overridden(map[], front), props[n]);
      assert props == front + [props[n]];
    }
  }

  lemma NothingStored(t: Sets, heads: map<Id, Option<Id>>, chains: map<Id, seq<Id>>, m: map<Id, Props>, o: Id)
    requires AllStored(t, heads, chains, m)
    ensures Stores(t, if o in heads then heads[o] else None, ChainOf(chains, o), PropsOf(m, o))
  {
    if o in m {
      assert OwnerStores(t, heads, chains, m, o);
    }
  }

  /** One call; `heads` are the property lists in the records of the owners. */
  method Perform(table: PropertyTable, heads: map<Id, Option<Id>>, op: Op, ghost chains: map<Id, seq<Id>>, ghost m: map<Id, Props>)
    returns (answer: Option<Item>, heads': map<Id, Option<Id>>, ghost chains': map<Id, seq<Id>>)
    requires table.Valid() && AllStored(table.sets, heads, chains, m) && Proper(m, op)
    modifies table
    ensures table.Valid() && AllStored(table.sets, heads', chains', PropsAfter(m, op)) && answer == PropsAnswer(m, op)
  {
    answer, heads', chains' := None, heads, chains;
    ghost var t, chain := table.sets, [];
    var head := if op.owner in heads then heads[op.owner] else None;
    NothingStored(t, heads, chains, m, op.owner);
    match op
    case Add(o, props) =>
      ListHolds(props);
      head, chain := table.Add(o, props, Overridden(map[], props));
      OneOwnerChanges(t, table.sets, heads, chains, m, o, head, chain, Overridden(map[], props));
      heads', chains' := heads[o := head], chains[o := chain];
    case Update(o, updates) =>
      head, chain := table.Update(o, head, updates, ChainOf(chains, o), PropsOf(m, o));
      OneOwnerChanges(t, table.sets, heads, chains, m, o, head, chain, Overridden(PropsOf(m, o), updates));
      heads', chains' := heads[o := head], chains[o := chain];
    case Read(o, key) =>
      answer := table.PropertyValue(head, key, ChainOf(chains, o), PropsOf(m, o));
  }

  /** Whatever is added and updated for whichever owners, every read finds the latest value
      of its owner, and no two owners ever share a record. */
  method PerformAll(ops: seq<Op>)
    returns (table: PropertyTable, heads: map<Id, Option<Id>>, answers: seq<Option<Item>>, ghost chains: map<Id, seq<Id>>)
    requires forall i :: 0 <= i < |ops| ==> Proper(StateAfter(PropsAfter, map[], ops[..i]), ops[i])
    ensures fresh(table) && table.Valid() && AllStored(table.sets, heads, chains, StateAfter(PropsAfter, map[], ops))
    ensures answers == Replies(PropsAfter, PropsAnswer, map[], ops)
  {
    table := new PropertyTable();
    heads, answers, chains := map[], [], map[];
    for i := 0 to |ops|
      invariant fresh(table) && table.Valid() && AllStored(table.sets, heads, chains, StateAfter(PropsAfter, map[], ops[..i]))
      invariant answers == Replies(PropsAfter, PropsAnswer, map[], ops[..i])
    {
      NextCall(PropsAfter, PropsAnswer, map[], ops, i);
      var answer;
      answer, heads, chains := Perform(table, heads, ops[i], chains, StateAfter(PropsAfter, map[], ops[..i]));
      answers := answers + [answer];
    }
    assert ops[..|ops|] == ops;
  }

  /** The list that a call stores for an owner. */
  function ListOf(op: Op): seq<Item>
    requires !op.Read?
  {
    if op.Add? then op.props else op.updates
  }

  /** The call gives the owner's property a value. */
  predicate Gives(op: Op, o: Id, item: Item) {
    !op.Read? && op.owner == o && item in ListOf(op)
  }

  /** No call from j up to n gives the owner's property k a value. */
  predicate NoneGives(ops: seq<Op>, j: nat, n: nat, o: Id, k: int)
    requires n <= |ops|
  {
    forall i :: j <= i < n && !ops[i].Read? && ops[i].owner == o ==> !Touches(ListOf(ops[i]), k)
  }

  ghost predicate AllProper(ops: seq<Op>) {
    forall i :: 0 <= i < |ops| ==> Proper(StateAfter(PropsAfter, map[], ops[..i]), ops[i])
  }

  /** One call: a property given has the value given, any other what it had. */
  lemma OneCallMeans(m: map<Id, Props>, op: Op, o: Id, k: int)
    requires Proper(m, op)
    ensures var p, p' := PropsOf(m, o), PropsOf(PropsAfter(m, op), o);
            && (forall v :: Gives(op, o, Item(k, v)) ==> k in p' && p'[k] == v)
            && (!op.Read? && op.owner == o && Touches(ListOf(op), k) ==> exists v :: Gives(op, o, Item(k, v)))
            && (op.Read? || op.owner != o || !Touches(ListOf(op), k) ==> (k in p' <==> k in p) && (k in p ==> p'[k] == p[k]))
  {
    if !op.Read? && op.owner == o {
      var p := if op.Add? then map[] else PropsOf(m, o);
      OverriddenIs(p, ListOf(op));
      if Touches(ListOf(op), k) {
        var i :| 0 <= i < |ListOf(op)| && ListOf(op)[i].key == k;
        assert Gives(op, o, Item(k, ListOf(op)[i].val));
      }
    }
  }

  /** The value of an owner's property after some calls. */
  function ValueAt(ops: seq<Op>, n: nat, o: Id, k: int): Option<int>
    requires n <= |ops|
  {
    var p := PropsOf(StateAfter(PropsAfter, map[], ops[..n]), o);
    if k in p then Some(p[k]) else None
  }

  lemma ValueNext(ops: seq<Op>, n: nat, o: Id, k: int)
    requires AllProper(ops) && n < |ops|
    ensures forall v :: Gives(ops[n], o, Item(k, v)) ==> ValueAt(ops, n + 1, o, k) == Some(v)
    ensures NoneGives(ops, n, n + 1, o, k) ==> ValueAt(ops, n + 1, o, k) == ValueAt(ops, n, o, k)
  {
    StateNext(PropsAfter, map[], ops, n);
    OneCallMeans(StateAfter(PropsAfter, map[], ops[..n]), ops[n], o, k);
  }

  lemma {:induction false} ValueStays(ops: seq<Op>, j: nat, n: nat, o: Id, k: int)
    requires AllProper(ops) && j <= n <= |ops| && NoneGives(ops, j, n, o, k)
    ensures ValueAt(ops, n, o, k) == ValueAt(ops, j, o, k)
    decreases n
  {
    if j < n {
      ValueNext(ops, n - 1, o, k);
      ValueStays(ops, j, n - 1, o, k);
    }
  }

  /** A read finds the value that the last list naming its property has given it for its
      owner, or nothing if no list has named it. */
  lemma ReadsFindLatest(ops: seq<Op>, n: nat)
    requires AllProper(ops) && n < |ops| && ops[n].Read?
    ensures var o, k, answer := ops[n].owner, ops[n].key, Replies(PropsAfter, PropsAnswer, map[], ops)[n];
            && (forall j: nat, v :: j < n && Gives(ops[j], o, Item(k, v)) && NoneGives(ops, j + 1, n, o, k) ==> answer == Some(Item(k, v)))
            && (NoneGives(ops, 0, n, o, k) ==> answer == None)
  {
    var o, k := ops[n].owner, ops[n].key;
    ReplyAt(PropsAfter, PropsAnswer, map[], ops, n);
    assert ValueAt(ops, n, o, k).None? <==> Replies(PropsAfter, PropsAnswer, map[], ops)[n].None?;
    forall j: nat, v | j < n && Gives(ops[j], o, Item(k, v)) && NoneGives(ops, j + 1, n, o, k)
      ensures Replies(PropsAfter, PropsAnswer, map[], ops)[n] == Some(Item(k, v))
    {
      ValueNext(ops, j, o, k);
      ValueStays(ops, j + 1, n, o, k);
    }
    if NoneGives(ops, 0, n, o, k) {
      ValueStays(ops, 0, n, o, k);
      assert ops[..0] == [];
    }
  }
}
