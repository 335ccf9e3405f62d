/** The buffer pool: a page cache with pinning, write-back and eviction of the least
    recently fetched page. */
module BufferPool {
  import opened Wrappers
  import opened Runs
  import opened LruList

  type PageId = nat
  type Page = int

  /** The entry of the page table for a resident page. */
  datatype Slot = Slot(pos: nat, dirty: bool, pinned: bool, node: Node)

  function CountTrue(s: seq<bool>): (c: nat)
    ensures c <= |s|
  {
    if s == [] then 0 else CountTrue(s[..|s| - 1]) + if s[|s| - 1] then 1 else 0
  }

  lemma {:induction false} CountSet(s: seq<bool>, i: nat, b: bool)
    requires i < |s| && s[i] != b
    ensures CountTrue(s[i := b]) == CountTrue(s) + if b then 1 else -1
  {
    var front := s[..|s| - 1];
    if i < |s| - 1 {
      CountSet(front, i, b);
      assert s[i := b][..|s| - 1] == front[i := b];
    } else {
      assert s[i := b][..|s| - 1] == front;
    }
  }

  /** If fewer than all are set, one is not. */
  lemma {:induction false} SomeFalse(s: seq<bool>) returns (i: nat)
    requires CountTrue(s) < |s|
    ensures i < |s| && !s[i]
  {
    if s[|s| - 1] {
      i := SomeFalse(s[..|s| - 1]);
    } else {
      i := |s| - 1;
    }
  }

  /** The state of the pool as a value: the resident pages from the least to the most
      recently fetched, with their list nodes, the page table, the slots in use, the
      buffered pages, the file, the time of the last fetch of every page, and the page
      in every slot. */
  datatype State = State(order: seq<PageId>, nodes: seq<Node>, table: map<PageId, Slot>, used: seq<bool>, buffer: seq<Page>,
                         file: map<PageId, Page>, last: map<PageId, nat>, clock: nat, owner: seq<Option<PageId>>)

  /** The list lists pages in the table. */
  ghost predicate Listed(order: seq<PageId>, nodes: seq<Node>, table: map<PageId, Slot>) {
    |nodes| == |order| && forall i :: 0 <= i < |order| ==> order[i] in table && table[order[i]].node == nodes[i]
  }

  /** And all of them. */
  ghost predicate Covered(order: seq<PageId>, table: map<PageId, Slot>) {
    forall p :: p in table ==> p in order
  }

  /** By time of last fetch: hence each once. */
  ghost predicate Timed(order: seq<PageId>, last: map<PageId, nat>, clock: nat) {
    && (forall i :: 0 <= i < |order| ==> order[i] in last && last[order[i]] < clock)
    && (forall i, j :: 0 <= i < j < |order| ==> last[order[i]] < last[order[j]])
  }

  /** Pages and the slots in use correspond one to one. */
  ghost predicate SlotsOk(table: map<PageId, Slot>, used: seq<bool>, owner: seq<Option<PageId>>) {
    && |used| == |owner| && (forall k :: 0 <= k < |used| ==> used[k] == owner[k].Some?)
    && (forall p :: p in table ==> table[p].pos < |owner| && owner[table[p].pos] == Some(p))
    && (forall k :: 0 <= k < |owner| && owner[k].Some? ==> owner[k].value in table && table[owner[k].value].pos == k)
  }

  /** A resident page exists in the file, and equals its copy there unless it is dirty. */
  ghost predicate PagesOk(table: map<PageId, Slot>, buffer: seq<Page>, file: map<PageId, Page>) {
    forall p :: p in table ==> p in file && table[p].pos < |buffer| && (!table[p].dirty ==> buffer[table[p].pos] == file[p])
  }

  datatype Clause = ListClause | CoverClause | TimeClause | SlotClause | CountClause | PageClause

  ghost predicate Meets(s: State, c: Clause) {
    match c
    case ListClause => Listed(s.order, s.nodes, s.table)
    case CoverClause => Covered(s.order, s.table)
    case TimeClause => Timed(s.order, s.last, s.clock)
    case SlotClause => SlotsOk(s.table, s.used, s.owner)
    case CountClause => |s.used| == |s.buffer| && CountTrue(s.used) == |s.order|
    case PageClause => PagesOk(s.table, s.buffer, s.file)
  }

  /** The page table, the list and the slots in use agree, and clean pages equal their
      copies in the file. */
  ghost predicate PoolOk(s: State) {
    forall c :: Meets(s, c)
  }

  lemma Clauses(s: State)
    requires PoolOk(s)
    ensures Listed(s.order, s.nodes, s.table) && Covered(s.order, s.table) && Timed(s.order, s.last, s.clock)
    ensures SlotsOk(s.table, s.used, s.owner) && |s.used| == |s.buffer| && CountTrue(s.used) == |s.order|
    ensures PagesOk(s.table, s.buffer, s.file)
  {
    assert Meets(s, ListClause) && Meets(s, CoverClause) && Meets(s, TimeClause);
    assert Meets(s, SlotClause) && Meets(s, CountClause) && Meets(s, PageClause);
  }

  /** Page p has a slot, and page number i of the list has one. */
  predicate Seated(s: State, p: PageId) {
    p in s.table && s.table[p].pos < |s.used| == |s.buffer| == |s.owner| && p in s.file
  }

  predicate InPlace(s: State, i: nat) {
    i < |s.order| == |s.nodes| && Seated(s, s.order[i]) && s.table[s.order[i]].node == s.nodes[i]
  }

  /** A resident page, its slot and its place in the list. */
  lemma Resident(s: State, p: PageId) returns (i: nat)
    requires PoolOk(s) && p in s.table
    ensures InPlace(s, i) && s.order[i] == p
  {
    Clauses(s);
    assert p in s.order;
    i :| 0 <= i < |s.order| && s.order[i] == p;
  }

  /** The content of a page as its users see it: the buffered copy, else the file copy. */
  ghost function Logical(s: State, p: PageId): Page {
    if p in s.table && s.table[p].pos < |s.buffer| then s.buffer[s.table[p].pos] else if p in s.file then s.file[p] else 0
  }

  /** The same pages with the same content. */
  ghost predicate SameContent(s: State, s': State) {
    s'.file.Keys == s.file.Keys && forall p :: p in s.file ==> Logical(s', p) == Logical(s, p)
  }

  // ---------------------------------------------------------------- the list of pages

  lemma CutKeepsTime(order: seq<PageId>, last: map<PageId, nat>, clock: nat, i: nat)
    requires Timed(order, last, clock) && i < |order|
    ensures Timed(Cut(order, i), last, clock) && order[i] !in Cut(order, i)
  {
    var cut := Cut(order, i);
    forall j | 0 <= j < |cut| ensures cut[j] in last && last[cut[j]] < clock && cut[j] != order[i] {
      assert cut[j] == order[if j < i then j else j + 1];
    }
    forall a, b | 0 <= a < b < |cut| ensures last[cut[a]] < last[cut[b]] {
      assert cut[a] == order[if a < i then a else a + 1] && cut[b] == order[if b < i then b else b + 1];
    }
  }

  lemma AppendKeepsTime(order: seq<PageId>, last: map<PageId, nat>, clock: nat, p: PageId)
    requires Timed(order, last, clock) && p !in order
    ensures Timed(order + [p], last[p := clock], clock + 1)
  {
    var order' := order + [p];
    forall j | 0 <= j < |order'| ensures order'[j] in last[p := clock] && last[p := clock][order'[j]] <= clock {
      assert j < |order| ==> order'[j] == order[j];
    }
    forall a, b | 0 <= a < b < |order'| ensures last[p := clock][order'[a]] < last[p := clock][order'[b]] {
      assert order'[a] == order[a];
      assert b < |order| ==> order'[b] == order[b];
    }
  }

  lemma CutKeepsList(order: seq<PageId>, nodes: seq<Node>, table: map<PageId, Slot>, i: nat)
    requires Listed(order, nodes, table) && Covered(order, table) && i < |order| && order[i] !in Cut(order, i)
    ensures Listed(Cut(order, i), Cut(nodes, i), table - {order[i]}) && Covered(Cut(order, i), table - {order[i]})
  {
    var cut, cutNodes, table' := Cut(order, i), Cut(nodes, i), table - {order[i]};
    forall j | 0 <= j < |cut| ensures cut[j] in table' && table'[cut[j]].node == cutNodes[j] {
      var k := if j < i then j else j + 1;
      assert cut[j] == order[k] && cutNodes[j] == nodes[k];
      assert cut[j] in cut;
    }
    forall q | q in table' ensures q in cut {
      var k :| 0 <= k < |order| && order[k] == q;
      assert cut[if k < i then k else k - 1] == q;
    }
  }

  lemma AppendKeepsList(order: seq<PageId>, nodes: seq<Node>, table: map<PageId, Slot>, p: PageId, slot: Slot)
    requires Listed(order, nodes, table) && Covered(order, table) && p !in table
    ensures Listed(order + [p], nodes + [slot.node], table[p := slot]) && Covered(order + [p], table[p := slot])
  {
  }

  /** Changing the flags of one page. */
  lemma FlagsKeep(s: State, p: PageId, slot: Slot)
    requires PoolOk(s) && p in s.table && slot.pos == s.table[p].pos && slot.node == s.table[p].node
    ensures Listed(s.order, s.nodes, s.table[p := slot]) && Covered(s.order, s.table[p := slot]) && SlotsOk(s.table[p := slot], s.used, s.owner)
  {
    Clauses(s);
  }

  // ------------------------------------------------------------------------- operations

  /** A fetch of the resident page number i of the list. */
  function Touched(s: State, i: nat): State
    requires InPlace(s, i)
  {
    s.(order := Cut(s.order, i) + [s.order[i]], nodes := Cut(s.nodes, i) + [s.nodes[i]], last := s.last[s.order[i] := s.clock], clock := s.clock + 1)
  }

  lemma TouchKeeps(s: State, i: nat)
    requires PoolOk(s) && InPlace(s, i)
    ensures PoolOk(Touched(s, i)) && SameContent(s, Touched(s, i))
  {
    Clauses(s);
    var p := s.order[i];
    CutKeepsTime(s.order, s.last, s.clock, i);
    AppendKeepsTime(Cut(s.order, i), s.last, s.clock, p);
    CutKeepsList(s.order, s.nodes, s.table, i);
    AppendKeepsList(Cut(s.order, i), Cut(s.nodes, i), s.table - {p}, p, s.table[p]);
    assert (s.table - {p})[p := s.table[p]] == s.table;
  }

  /** The load of an absent page into a free slot. */
  function Loaded(s: State, p: PageId, pos: nat, node: Node): State
    requires pos < |s.used| == |s.buffer| == |s.owner| && p in s.file
  {
    s.(order := s.order + [p], nodes := s.nodes + [node], table := s.table[p := Slot(pos, false, false, node)], used := s.used[pos := true],
       buffer := s.buffer[pos := s.file[p]], last := s.last[p := s.clock], clock := s.clock + 1, owner := s.owner[pos := Some(p)])
  }

  lemma LoadKeeps(s: State, p: PageId, pos: nat, node: Node)
    requires PoolOk(s) && p !in s.table && p in s.file && pos < |s.used| == |s.buffer| == |s.owner| && !s.used[pos]
    ensures PoolOk(Loaded(s, p, pos, node))
  {
    Clauses(s);
    var slot := Slot(pos, false, false, node);
    CountSet(s.used, pos, true);
    assert p !in s.order;
    AppendKeepsTime(s.order, s.last, s.clock, p);
    AppendKeepsList(s.order, s.nodes, s.table, p, slot);
    LoadKeepsSlots(s.table, s.used, s.owner, p, slot);
    LoadKeepsPages(s.table, s.used, s.owner, s.buffer, s.file, p, slot);
    var s' := Loaded(s, p, pos, node);
    forall c ensures Meets(s', c) {
      match c
      case ListClause => case CoverClause => case TimeClause => case SlotClause => case CountClause => case PageClause =>
    }
  }

  lemma LoadKeepsContent(s: State, p: PageId, pos: nat, node: Node)
    requires PoolOk(s) && p !in s.table && p in s.file && pos < |s.used| == |s.buffer| == |s.owner| && !s.used[pos]
    ensures SameContent(s, Loaded(s, p, pos, node))
  {
    assert Meets(s, SlotClause);
  }

  lemma LoadKeepsSlots(table: map<PageId, Slot>, used: seq<bool>, owner: seq<Option<PageId>>, p: PageId, slot: Slot)
    requires SlotsOk(table, used, owner) && p !in table && slot.pos < |used| && !used[slot.pos]
    ensures SlotsOk(table[p := slot], used[slot.pos := true], owner[slot.pos := Some(p)])
  {
  }

  lemma LoadKeepsPages(table: map<PageId, Slot>, used: seq<bool>, owner: seq<Option<PageId>>, buffer: seq<Page>, file: map<PageId, Page>,
                       p: PageId, slot: Slot)
    requires SlotsOk(table, used, owner) && PagesOk(table, buffer, file) && |used| == |buffer|
    requires p !in table && p in file && slot.pos < |used| && !used[slot.pos]
    ensures PagesOk(table[p := slot], buffer[slot.pos := file[p]], file)
    ensures forall q :: q in table ==> table[q].pos != slot.pos
  {
  }

  /** The resident page number i of the list, written back if it is dirty, leaves. */
  function Evicted(s: State, i: nat): State
    requires InPlace(s, i)
  {
    var p := s.order[i];
    var slot := s.table[p];
    s.(order := Cut(s.order, i), nodes := Cut(s.nodes, i), table := s.table - {p}, used := s.used[slot.pos := false],
       file := if slot.dirty then s.file[p := s.buffer[slot.pos]] else s.file, owner := s.owner[slot.pos := None])
  }

  lemma EvictKeeps(s: State, i: nat)
    requires PoolOk(s) && InPlace(s, i)
    ensures PoolOk(Evicted(s, i)) && SameContent(s, Evicted(s, i))
  {
    Clauses(s);
    var p := s.order[i];
    CountSet(s.used, s.table[p].pos, false);
    CutKeepsTime(s.order, s.last, s.clock, i);
    CutKeepsList(s.order, s.nodes, s.table, i);
    EvictKeepsSlots(s.table, s.used, s.owner, p);
    var s' := Evicted(s, i);
    forall c ensures Meets(s', c) {
      match c
      case ListClause => case CoverClause => case TimeClause => case SlotClause => case CountClause => case PageClause =>
    }
  }

  lemma EvictKeepsSlots(table: map<PageId, Slot>, used: seq<bool>, owner: seq<Option<PageId>>, p: PageId)
    requires SlotsOk(table, used, owner) && p in table
    ensures SlotsOk(table - {p}, used[table[p].pos := false], owner[table[p].pos := None])
  {
  }

  /** A resident page is written back and stays. */
  function Flushed(s: State, p: PageId): State
    requires Seated(s, p)
  {
    if s.table[p].dirty then s.(table := s.table[p := s.table[p].(dirty := false)], file := s.file[p := s.buffer[s.table[p].pos]]) else s
  }

  lemma FlushKeeps(s: State, p: PageId)
    requires PoolOk(s) && Seated(s, p)
    ensures PoolOk(Flushed(s, p)) && SameContent(s, Flushed(s, p)) && !Flushed(s, p).table[p].dirty
  {
    Clauses(s);
    FlagsKeep(s, p, s.table[p].(dirty := false));
  }

  /** A client changes a resident page and marks it dirty. */
  function Written(s: State, p: PageId, c: Page): State
    requires Seated(s, p)
  {
    s.(table := s.table[p := s.table[p].(dirty := true)], buffer := s.buffer[s.table[p].pos := c])
  }

  lemma WriteKeeps(s: State, p: PageId, c: Page)
    requires PoolOk(s) && Seated(s, p)
    ensures PoolOk(Written(s, p, c)) && Logical(Written(s, p, c), p) == c
    ensures forall q :: q in s.file && q != p ==> Logical(Written(s, p, c), q) == Logical(s, q)
  {
    Clauses(s);
    FlagsKeep(s, p, s.table[p].(dirty := true));
  }

  function Pinned(s: State, p: PageId, b: bool): State
    requires p in s.table
  {
    s.(table := s.table[p := s.table[p].(pinned := b)])
  }

  lemma PinKeeps(s: State, p: PageId, b: bool)
    requires PoolOk(s) && p in s.table
    ensures PoolOk(Pinned(s, p, b)) && SameContent(s, Pinned(s, p, b))
  {
    Clauses(s);
    FlagsKeep(s, p, s.table[p].(pinned := b));
  }

  /** If the pool is not full, a slot is free. */
  lemma RoomLeft(s: State) returns (k: nat)
    requires PoolOk(s) && |s.order| < |s.used|
    ensures k < |s.used| && !s.used[k]
  {
    Clauses(s);
    k := SomeFalse(s.used);
  }

  // -------------------------------------------------------------------------- the pool

  /** The first page of the list that is not pinned: no unpinned page was fetched
      less recently. */
  ghost predicate IsVictim(s: State, i: nat) {
    && InPlace(s, i) && s.order[i] in s.last && !s.table[s.order[i]].pinned
    && forall p :: p in s.table && !s.table[p].pinned ==> p in s.last && s.last[s.order[i]] <= s.last[p]
  }

  lemma FirstUnpinned(s: State, i: nat)
    requires PoolOk(s) && InPlace(s, i) && !s.table[s.order[i]].pinned
    requires forall j :: 0 <= j < i ==> s.order[j] in s.table && s.table[s.order[j]].pinned
    ensures IsVictim(s, i)
  {
    Clauses(s);
    forall p | p in s.table && !s.table[p].pinned ensures p in s.last && s.last[s.order[i]] <= s.last[p] {
      var j :| 0 <= j < |s.order| && s.order[j] == p;
      assert j >= i;
    }
  }

  ghost predicate AllPinned(s: State) {
    forall p :: p in s.table ==> s.table[p].pinned
  }

  /** Page p took the place of page number i, which was fetched least recently among
      those not pinned and is in the file as it was left; all others stay as they are. */
  ghost predicate Replaced(s: State, s': State, i: nat, p: PageId) {
    && IsVictim(s, i) && p in s'.table && s'.table == (s.table - {s.order[i]})[p := s'.table[p]]
    && s.order[i] in s'.file && s'.file == s.file[s.order[i] := Logical(s, s.order[i])]
  }

  lemma EvictedAndLoaded(s: State, s1: State, s': State, i: nat, p: PageId)
    requires PoolOk(s) && IsVictim(s, i) && s1 == Evicted(s, i)
    requires s'.file == s1.file && p in s'.table && s'.table == s1.table[p := s'.table[p]]
    ensures Replaced(s, s', i, p)
  {
    Clauses(s);
  }

  // ------------------------------------------------------------------------- the cache

  /** What the pool promises its users, without slots, dirty flags and the file: the
      content of every page, the resident pages from the least to the most recently
      fetched, the pinned ones among them, and the number of slots. */
  datatype Cache = Cache(content: map<PageId, Page>, order: seq<PageId>, pinned: set<PageId>, size: nat)

  /** The place of a page in the list, or the length of the list. */
  function PlaceOf(order: seq<PageId>, p: PageId): (i: nat)
    ensures i <= |order| && (i < |order| ==> order[i] == p) && forall j :: 0 <= j < i ==> order[j] != p
  {
    if order == [] then 0 else if order[0] == p then 0 else 1 + PlaceOf(order[1..], p)
  }

  /** The place of the least recently fetched page that is not pinned. */
  function FirstLoose(order: seq<PageId>, pinned: set<PageId>): (i: nat)
    ensures i <= |order| && (i < |order| ==> order[i] !in pinned) && forall j :: 0 <= j < i ==> order[j] in pinned
  {
    if order == [] then 0 else if order[0] !in pinned then 0 else 1 + FirstLoose(order[1..], pinned)
  }

  /** A fetch: the page becomes the most recent one, at the cost of the first that is not
      pinned if it was absent and every slot is taken. */
  function Fetched(c: Cache, p: PageId): Option<Cache> {
    var i, v := PlaceOf(c.order, p), FirstLoose(c.order, c.pinned);
    if i < |c.order| then Some(c.(order := Cut(c.order, i) + [p]))
    else if |c.order| < c.size then Some(c.(order := c.order + [p]))
    else if v < |c.order| then Some(c.(order := Cut(c.order, v) + [p]))
    else None
  }

  /** A page leaves, pinned or not. */
  function Dropped(c: Cache, p: PageId): Cache {
    var i := PlaceOf(c.order, p);
    if i < |c.order| then c.(order := Cut(c.order, i), pinned := c.pinned - {p}) else c
  }

  /** A resident page is pinned or released. */
  function Marked(c: Cache, p: PageId, b: bool): Cache {
    if p !in c.order then c else if b then c.(pinned := c.pinned + {p}) else c.(pinned := c.pinned - {p})
  }

  ghost function ContentOf(s: State): map<PageId, Page> {
    map p | p in s.file :: Logical(s, p)
  }

  ghost function PinnedIn(table: map<PageId, Slot>): set<PageId> {
    set p | p in table && table[p].pinned
  }

  ghost function CacheOf(s: State): Cache {
    Cache(ContentOf(s), s.order, PinnedIn(s.table), |s.buffer|)
  }

  lemma SameMap(s: State, s': State)
    requires SameContent(s, s')
    ensures ContentOf(s') == ContentOf(s)
  {
  }

  lemma FromMap(s: State, s': State)
    requires ContentOf(s') == ContentOf(s)
    ensures SameContent(s, s')
  {
    assert s'.file.Keys == ContentOf(s').Keys && s.file.Keys == ContentOf(s).Keys;
    forall p | p in s.file ensures Logical(s', p) == Logical(s, p) {
      assert ContentOf(s')[p] == ContentOf(s)[p];
    }
  }

  /** A page has only one place. */
  lemma OnePlace(s: State, i: nat)
    requires PoolOk(s) && i < |s.order|
    ensures PlaceOf(s.order, s.order[i]) == i
  {
    Clauses(s);
    assert PlaceOf(s.order, s.order[i]) <= i;
  }

  lemma TouchDone(s: State, i: nat, s': State)
    requires PoolOk(s) && InPlace(s, i) && s' == Touched(s, i)
    ensures PoolOk(s') && SameContent(s, s') && s'.order != [] && s'.order[|s'.order| - 1] == s.order[i]
    ensures Fetched(CacheOf(s), s.order[i]) == Some(CacheOf(s'))
  {
    TouchKeeps(s, i);
    SameMap(s, s');
    OnePlace(s, i);
  }

  lemma LoadDone(s: State, p: PageId, pos: nat, node: Node, s': State)
    requires PoolOk(s) && p !in s.table && p in s.file && pos < |s.used| == |s.buffer| == |s.owner| && !s.used[pos]
    requires s' == Loaded(s, p, pos, node)
    ensures PoolOk(s') && SameContent(s, s') && CacheOf(s') == CacheOf(s).(order := s.order + [p])
  {
    LoadKeeps(s, p, pos, node);
    LoadKeepsContent(s, p, pos, node);
    SameMap(s, s');
  }

  lemma EvictDrops(s: State, i: nat)
    requires PoolOk(s) && InPlace(s, i)
    ensures CacheOf(Evicted(s, i)) == CacheOf(s).(order := Cut(s.order, i), pinned := PinnedIn(s.table) - {s.order[i]})
  {
    EvictKeeps(s, i);
    SameMap(s, Evicted(s, i));
  }

  /** The page that `evict_page` chooses. */
  lemma VictimIsFirst(s: State, i: nat)
    requires PoolOk(s) && IsVictim(s, i)
    ensures FirstLoose(s.order, PinnedIn(s.table)) == i
  {
    Clauses(s);
    var v := FirstLoose(s.order, PinnedIn(s.table));
    assert v <= i;
    assert s.order[v] in s.table && !s.table[s.order[v]].pinned;
  }

  lemma NoneLoose(s: State)
    requires PoolOk(s) && AllPinned(s)
    ensures FirstLoose(s.order, PinnedIn(s.table)) == |s.order|
  {
    Clauses(s);
    forall i | 0 <= i < |s.order| ensures s.order[i] in PinnedIn(s.table) {
    }
  }

  lemma InOrder(s: State, p: PageId)
    requires PoolOk(s)
    ensures p in s.order <==> p in s.table
  {
    Clauses(s);
  }

  lemma Absent(s: State, p: PageId)
    requires PoolOk(s) && p !in s.table
    ensures PlaceOf(s.order, p) == |s.order|
  {
    Clauses(s);
  }

  lemma NoneToFetch(s: State, p: PageId)
    requires PoolOk(s) && p !in s.table && |s.order| == |s.buffer| && AllPinned(s)
    ensures Fetched(CacheOf(s), p) == None
  {
    Absent(s, p);
    NoneLoose(s);
  }

  lemma ReplacedFetches(s: State, s1: State, s': State, i: nat, p: PageId)
    requires PoolOk(s) && p !in s.table && |s.order| == |s.buffer| && IsVictim(s, i) && s1 == Evicted(s, i)
    requires CacheOf(s') == CacheOf(s1).(order := s1.order + [p])
    ensures Fetched(CacheOf(s), p) == Some(CacheOf(s'))
  {
    Absent(s, p);
    EvictDrops(s, i);
    VictimIsFirst(s, i);
    assert PinnedIn(s.table) - {s.order[i]} == PinnedIn(s.table);
  }

  lemma WriteChanges(s: State, p: PageId, c: Page)
    requires PoolOk(s) && Seated(s, p)
    ensures CacheOf(Written(s, p, c)) == CacheOf(s).(content := ContentOf(s)[p := c])
  {
    WriteKeeps(s, p, c);
    assert PinnedIn(Written(s, p, c).table) == PinnedIn(s.table);
  }

  lemma PinChanges(s: State, p: PageId, b: bool)
    requires PoolOk(s) && p in s.table
    ensures CacheOf(Pinned(s, p, b)) == CacheOf(s).(pinned := if b then PinnedIn(s.table) + {p} else PinnedIn(s.table) - {p})
  {
    PinKeeps(s, p, b);
    SameMap(s, Pinned(s, p, b));
  }

  lemma FlushChanges(s: State, p: PageId)
    requires PoolOk(s) && Seated(s, p)
    ensures CacheOf(Flushed(s, p)) == CacheOf(s)
  {
    FlushKeeps(s, p);
    SameMap(s, Flushed(s, p));
    assert PinnedIn(Flushed(s, p).table) == PinnedIn(s.table);
  }

  class Pool {
    var buffer: array<Page>
    var used: array<bool>
    var table: map<PageId, Slot>
    var file: map<PageId, Page>
    const lru: List
    ghost var last: map<PageId, nat>
    ghost var clock: nat
    ghost var owner: seq<Option<PageId>>

    ghost function Value(): State
      reads this, lru`nodes, lru`pids, buffer, used
    {
      State(lru.pids, lru.nodes, table, used[..], buffer[..], file, last, clock, owner)
    }

    ghost predicate Valid()
      reads this, lru, lru.Members(), buffer, used
    {
      lru.Valid() && PoolOk(Value())
    }

    constructor (size: nat, file: map<PageId, Page>)
      ensures Valid() && Value().file == file && Value().table == map[] && Value().order == [] && buffer.Length == size
      ensures fresh(lru) && fresh(lru.Members()) && fresh(buffer) && fresh(used)
    {
      buffer, used := new Page[size](_ => 0), new bool[size](_ => false);
      table, this.file, last, clock := map[], file, map[], 0;
      lru := new List();
      owner := seq(size, _ => None);
      new;
      NoneTrue(used[..]);
    }

    /** The loop of `evict_page`: the first unpinned page in list order. */
    method FindVictim() returns (node: Node?, ghost i: nat)
      requires Valid()
      ensures node == null ==> AllPinned(Value())
      ensures node != null ==> IsVictim(Value(), i) && lru.nodes[i] == node && node.pid == lru.pids[i]
    {
      Clauses(Value());
      i := 0;
      node := lru.head.next;
      assert lru.Chain()[0] == lru.head && lru.Chain()[|lru.pids| + 1] == lru.tail;
      while node != lru.tail
        invariant i <= |lru.pids| && node == lru.Chain()[i + 1]
        invariant forall j :: 0 <= j < i ==> table[lru.pids[j]].pinned
        decreases |lru.pids| - i
      {
        assert i < |lru.pids| && lru.Chain()[i + 1] == lru.nodes[i];
        if !table[node.pid].pinned {
          FirstUnpinned(Value(), i);
          return;
        }
        node := node.next;
        i := i + 1;
      }
      assert Once(lru.Chain(), |lru.pids| + 1);
      node := null;
    }

    /** `evict_page`: it fails exactly when every page is pinned. */
    method EvictPage() returns (ok: bool, ghost i: nat)
      requires Valid()
      modifies this, lru, lru.Members(), used
      ensures Valid() && lru.Members() <= old(lru.Members()) && buffer == old(buffer) && used == old(used)
      ensures if ok then IsVictim(old(Value()), i) && Value() == Evicted(old(Value()), i) else AllPinned(old(Value())) && Value() == old(Value())
    {
      var node;
      node, i := FindVictim();
      ok := node != null;
      if ok {
        DropPage(node.pid, i);
      }
    }

    /** Page p, number i of the list, is written back if it is dirty and leaves. */
    method DropPage(p: PageId, ghost i: nat)
      requires Valid() && InPlace(Value(), i) && lru.pids[i] == p
      modifies this, lru, lru.Members(), used
      ensures Valid() && lru.Members() <= old(lru.Members()) && buffer == old(buffer) && used == old(used)
      ensures Value() == Evicted(old(Value()), i)
    {
      ghost var s := Value();
      var slot := table[p];
      if slot.dirty {
        file := file[p := buffer[slot.pos]];
      }
      used[slot.pos] := false;
      lru.Remove(slot.node, i);
      table := table - {p};
      owner := owner[slot.pos := None];
      assert Value() == Evicted(s, i);
      EvictKeeps(s, i);
    }

    /** A fetch of a resident page. */
    method Touch(p: PageId)
      requires Valid() && p in table
      modifies this, lru, lru.Members()
      ensures Valid() && lru.Members() <= old(lru.Members()) && buffer == old(buffer) && used == old(used)
      ensures SameContent(old(Value()), Value()) && table == old(table) && file == old(file) && lru.pids != [] && lru.pids[|lru.pids| - 1] == p
      ensures Fetched(CacheOf(old(Value())), p) == Some(CacheOf(Value()))
    {
      ghost var s := Value();
      ghost var i := Resident(s, p);
      lru.MoveToMru(table[p].node, i);
      last, clock := last[p := clock], clock + 1;
      TouchDone(s, i, Value());
    }

    /** `load_page_from_file` into the first free slot, and the new entries of the list
        and the table. */
    method LoadPage(p: PageId) returns (pos: nat)
      requires Valid() && p in file && p !in table && |lru.pids| < buffer.Length
      modifies this, lru, lru.Members(), used, buffer
      ensures Valid() && fresh(lru.Members() - old(lru.Members())) && buffer == old(buffer) && used == old(used)
      ensures SameContent(old(Value()), Value())
      ensures p in table && pos == table[p].pos < buffer.Length && buffer[pos] == file[p] && lru.pids == old(lru.pids) + [p]
      ensures file == old(file) && table == old(table)[p := table[p]]
      ensures CacheOf(Value()) == CacheOf(old(Value())).(order := old(lru.pids) + [p])
    {
      pos := FirstFree();
      Occupy(p, pos);
    }

    /** Page p goes to the free slot at pos. */
    method Occupy(p: PageId, pos: nat)
      requires Valid() && p in file && p !in table && pos < used.Length == buffer.Length == |owner| && !used[pos]
      modifies this, lru, lru.Members(), used, buffer
      ensures Valid() && fresh(lru.Members() - old(lru.Members())) && buffer == old(buffer) && used == old(used)
      ensures SameContent(old(Value()), Value())
      ensures p in table && pos == table[p].pos && buffer[pos] == file[p] && lru.pids == old(lru.pids) + [p]
      ensures file == old(file) && table == old(table)[p := table[p]]
      ensures CacheOf(Value()) == CacheOf(old(Value())).(order := old(lru.pids) + [p])
    {
      ghost var s := Value();
      used[pos], buffer[pos] := true, file[p];
      var node := lru.AddToMru(p);
      table, last, clock, owner := table[p := Slot(pos, false, false, node)], last[p := clock], clock + 1, owner[pos := Some(p)];
      assert Value() == Loaded(s, p, pos, node) by {
        assert used[..] == s.used[pos := true] && buffer[..] == s.buffer[pos := s.file[p]];
      }
      LoadDone(s, p, pos, node, Value());
    }

    method FirstFree() returns (pos: nat)
      requires Valid() && |lru.pids| < buffer.Length
      ensures pos < used.Length == buffer.Length == |owner| && !used[pos]
    {
      Clauses(Value());
      ghost var k := RoomLeft(Value());
      pos := 0;
      while used[pos]
        invariant pos <= k
        decreases k - pos
      {
        pos := pos + 1;
      }
    }

    /** `fetch_page`: the position of the page in the buffer; fails when the page is
        absent and every slot is taken by a pinned page. At most one page leaves: the one
        fetched least recently among those not pinned. */
    method FetchPage(p: PageId) returns (r: Option<nat>)
      requires Valid() && p in file
      modifies this, lru, lru.Members(), used, buffer
      ensures Valid() && fresh(lru.Members() - old(lru.Members())) && buffer == old(buffer) && used == old(used)
      ensures SameContent(old(Value()), Value())
      ensures r.None? ==> Value() == old(Value()) && p !in table && AllPinned(Value()) && |lru.pids| == buffer.Length
      ensures r.Some? ==> p in table && r.value == table[p].pos < buffer.Length && buffer[r.value] == Logical(old(Value()), p)
      ensures r.Some? ==> lru.pids != [] && lru.pids[|lru.pids| - 1] == p
      ensures p in old(table) ==> r.Some? && table == old(table) && file == old(file)
      ensures r.Some? && p !in old(table) && |old(lru.pids)| < buffer.Length ==> table == old(table)[p := table[p]] && file == old(file)
      ensures r.Some? && p !in old(table) && |old(lru.pids)| == buffer.Length ==> exists i: nat :: Replaced(old(Value()), Value(), i, p)
      ensures Fetched(CacheOf(old(Value())), p) == if r.Some? then Some(CacheOf(Value())) else None
    {
      if p in table {
        Touch(p);
        ghost var i := Resident(Value(), p);
        r := Some(table[p].pos);
      } else {
        CountTrueBound(Value());
        Absent(Value(), p);
        if lru.size == buffer.Length {
          ghost var i;
          r, i := FetchAndEvict(p);
        } else {
          var pos := LoadPage(p);
          r := Some(pos);
        }
      }
    }

    /** A fetch of an absent page when every slot is taken. */
    method FetchAndEvict(p: PageId) returns (r: Option<nat>, ghost i: nat)
      requires Valid() && p in file && p !in table && |lru.pids| == buffer.Length
      modifies this, lru, lru.Members(), used, buffer
      ensures Valid() && fresh(lru.Members() - old(lru.Members())) && buffer == old(buffer) && used == old(used)
      ensures SameContent(old(Value()), Value())
      ensures r.None? ==> Value() == old(Value()) && AllPinned(Value())
      ensures r.Some? ==> p in table && r.value == table[p].pos < buffer.Length && buffer[r.value] == Logical(old(Value()), p)
      ensures r.Some? ==> lru.pids != [] && lru.pids[|lru.pids| - 1] == p && Replaced(old(Value()), Value(), i, p)
      ensures Fetched(CacheOf(old(Value())), p) == if r.Some? then Some(CacheOf(Value())) else None
    {
      ghost var s := Value();
      var ok;
      ok, i := EvictPage();
      if !ok {
        NoneToFetch(s, p);
        return None, i;
      }
      EvictKeeps(s, i);
      ghost var s1 := Value();
      var pos := LoadPage(p);
      r := Some(pos);
      EvictedAndLoaded(s, s1, Value(), i, p);
      ReplacedFetches(s, s1, Value(), i, p);
    }

    /** A client writes a resident page and calls `mark_dirty`. */
    method Write(p: PageId, c: Page)
      requires Valid() && p in table
      modifies this`table, buffer
      ensures Valid() && Logical(Value(), p) == c && file == old(file) && table.Keys == old(table).Keys
      ensures forall q :: q in file && q != p ==> Logical(Value(), q) == Logical(old(Value()), q)
      ensures CacheOf(Value()) == CacheOf(old(Value())).(content := ContentOf(old(Value()))[p := c])
    {
      ghost var s := Value();
      ghost var i := Resident(s, p);
      WriteKeeps(s, p, c);
      WriteChanges(s, p, c);
      buffer[table[p].pos] := c;
      table := table[p := table[p].(dirty := true)];
      assert Value() == Written(s, p, c);
    }

    /** `pin_page` and `unpin_page` */
    method Pin(p: PageId, b: bool)
      requires Valid()
      modifies this`table
      ensures Valid() && Value() == if p in old(table) then Pinned(old(Value()), p, b) else old(Value())
      ensures SameContent(old(Value()), Value())
      ensures CacheOf(Value()) == Marked(CacheOf(old(Value())), p, b)
    {
      InOrder(Value(), p);
      if p in table {
        PinKeeps(Value(), p, b);
        PinChanges(Value(), p, b);
        table := table[p := table[p].(pinned := b)];
      }
    }

    /** `flush_page` */
    method FlushPage(p: PageId, evict: bool)
      requires Valid()
      modifies this, lru, lru.Members(), used
      ensures Valid() && lru.Members() <= old(lru.Members()) && buffer == old(buffer) && used == old(used)
      ensures SameContent(old(Value()), Value())
      ensures if evict then table.Keys == old(table).Keys - {p} else table.Keys == old(table).Keys && (p in table ==> !table[p].dirty)
      ensures CacheOf(Value()) == if evict then Dropped(CacheOf(old(Value())), p) else CacheOf(old(Value()))
    {
      if p !in table {
        Absent(Value(), p);
      } else {
        WriteBack(p);
        if evict {
          ghost var s := Value();
          ghost var i := Resident(s, p);
          EvictKeeps(s, i);
          EvictDrops(s, i);
          OnePlace(s, i);
          DropPage(p, i);
        }
      }
    }

    method WriteBack(p: PageId)
      requires Valid() && p in table
      modifies this`table, this`file
      ensures Valid() && SameContent(old(Value()), Value())
      ensures table.Keys == old(table).Keys && !table[p].dirty && forall q :: q in table && q != p ==> table[q] == old(table)[q]
      ensures CacheOf(Value()) == CacheOf(old(Value()))
    {
      ghost var s := Value();
      ghost var i := Resident(s, p);
      FlushKeeps(s, p);
      FlushChanges(s, p);
      if table[p].dirty {
        file := file[p := buffer[table[p].pos]];
        table := table[p := table[p].(dirty := false)];
      }
      assert Value() == Flushed(s, p);
    }

    /** `flush_all`: afterwards the file holds the content of every page. */
    method FlushAll()
      requires Valid()
      modifies this`table, this`file
      ensures Valid() && SameContent(old(Value()), Value()) && table.Keys == old(table).Keys
      ensures forall p :: p in file ==> file[p] == Logical(old(Value()), p)
      ensures CacheOf(Value()) == CacheOf(old(Value()))
    {
      ghost var s := Value();
      var todo := table.Keys;
      while todo != {}
        invariant Valid() && table.Keys == s.table.Keys && CacheOf(Value()) == CacheOf(s)
        invariant todo <= table.Keys && forall p :: p in table && p !in todo ==> !table[p].dirty
        decreases |todo|
      {
        var p :| p in todo;
        WriteBack(p);
        todo := todo - {p};
      }
      FromMap(s, Value());
      CleanIsFile(Value());
    }
  }

  lemma CountTrueBound(s: State)
    requires PoolOk(s)
    ensures |s.order| <= |s.buffer|
  {
    Clauses(s);
  }

  lemma CleanIsFile(s: State)
    requires PoolOk(s) && forall p :: p in s.table ==> !s.table[p].dirty
    ensures forall p :: p in s.file ==> s.file[p] == Logical(s, p)
  {
    Clauses(s);
  }

  lemma {:induction false} NoneTrue(s: seq<bool>)
    requires forall i :: 0 <= i < |s| ==> !s[i]
    ensures CountTrue(s) == 0
  {
    if s != [] {
      NoneTrue(s[..|s| - 1]);
    }
  }

  // ------------------------------------------------------------------- sequences of calls

  datatype Op = Fetch(p: PageId) | Put(p: PageId, c: Page) | Pin(p: PageId, b: bool) | Flush(p: PageId, evict: bool) | FlushAll

  /** What a call does to the cache: a client fetches a page before writing it. */
  function CacheAfter(c: Cache, op: Op): Cache {
    match op
    case Fetch(p) => if Fetched(c, p).Some? then Fetched(c, p).value else c
    case Put(p, v) => if Fetched(c, p).Some? then Fetched(c, p).value.(content := c.content[p := v]) else c
    case Pin(p, b) => Marked(c, p, b)
    case Flush(p, evict) => if evict then Dropped(c, p) else c
    case FlushAll => c
  }

  /** The content found or written, unless no slot can be had for the page. */
  function CacheAnswer(c: Cache, op: Op): Option<Page> {
    match op
    case Fetch(p) => if Fetched(c, p).Some? && p in c.content then Some(c.content[p]) else None
    case Put(p, v) => if Fetched(c, p).Some? then Some(v) else None
    case _ => None
  }

  /** The pages fetched are pages of the file. */
  predicate Proper(file: map<PageId, Page>, op: Op) {
    (op.Fetch? || op.Put?) ==> op.p in file
  }

  method Perform(pool: Pool, op: Op) returns (answer: Option<Page>)
    requires pool.Valid() && Proper(pool.file, op)
    modifies pool, pool.lru, pool.lru.Members(), pool.used, pool.buffer
    ensures pool.Valid() && fresh(pool.lru.Members() - old(pool.lru.Members())) && pool.buffer == old(pool.buffer) && pool.used == old(pool.used)
    ensures pool.file.Keys == old(pool.file).Keys
    ensures CacheOf(pool.Value()) == CacheAfter(CacheOf(old(pool.Value())), op) && answer == CacheAnswer(CacheOf(old(pool.Value())), op)
  {
    answer := None;
    match op
    case Fetch(p) =>
      var r := pool.FetchPage(p);
      answer := if r.Some? then Some(pool.buffer[r.value]) else None;
    case Put(p, c) =>
      answer := FetchAndWrite(pool, p, c);
    case Pin(p, b) => pool.Pin(p, b);
    case Flush(p, evict) => pool.FlushPage(p, evict);
    case FlushAll => pool.FlushAll();
  }

  method FetchAndWrite(pool: Pool, p: PageId, c: Page) returns (answer: Option<Page>)
    requires pool.Valid() && p in pool.file
    modifies pool, pool.lru, pool.lru.Members(), pool.used, pool.buffer
    ensures pool.Valid() && fresh(pool.lru.Members() - old(pool.lru.Members())) && pool.buffer == old(pool.buffer) && pool.used == old(pool.used)
    ensures pool.file.Keys == old(pool.file).Keys
    ensures CacheOf(pool.Value()) == CacheAfter(CacheOf(old(pool.Value())), Put(p, c)) && answer == CacheAnswer(CacheOf(old(pool.Value())), Put(p, c))
  {
    answer := None;
    var r := pool.FetchPage(p);
    if r.Some? {
      pool.Write(p, c);
      answer := Some(c);
    }
  }

  /** Whatever is fetched, written, pinned and flushed, every fetch finds what was last
      written to its page, and the pages that stay are those of a cache that gives up the
      least recently fetched unpinned page. */
  method PerformAll(size: nat, file: map<PageId, Page>, ops: seq<Op>) returns (pool: Pool, answers: seq<Option<Page>>)
    requires forall i :: 0 <= i < |ops| ==> Proper(file, ops[i])
    ensures pool.Valid() && CacheOf(pool.Value()) == StateAfter(CacheAfter, Cache(file, [], {}, size), ops)
    ensures answers == Replies(CacheAfter, CacheAnswer, Cache(file, [], {}, size), ops)
  {
    pool := new Pool(size, file);
    answers := [];
    ghost var none := Cache(file, [], {}, size);
    NothingCached(pool.Value(), none);
    for i := 0 to |ops|
      invariant fresh(pool) && fresh(pool.lru) && fresh(pool.lru.Members()) && fresh(pool.used) && fresh(pool.buffer)
      invariant pool.Valid() && pool.file.Keys == file.Keys && CacheOf(pool.Value()) == StateAfter(CacheAfter, none, ops[..i])
      invariant answers == Replies(CacheAfter, CacheAnswer, none, ops[..i])
    {
      NextCall(CacheAfter, CacheAnswer, none, ops, i);
      var answer := Perform(pool, ops[i]);
      answers := answers + [answer];
    }
    assert ops[..|ops|] == ops;
  }

  lemma NothingCached(s: State, none: Cache)
    requires s.table == map[] && s.order == [] && none == Cache(s.file, [], {}, |s.buffer|)
    ensures CacheOf(s) == none
  {
    forall p | p in s.file ensures Logical(s, p) == s.file[p] {
    }
  }

  /** A fetch fails exactly if the page is absent and every slot is taken by a pinned page;
      otherwise the page becomes the most recent one. */
  lemma FetchFails(c: Cache, p: PageId)
    ensures Fetched(c, p).None? <==> p !in c.order && |c.order| >= c.size && forall q :: q in c.order ==> q in c.pinned
    ensures Fetched(c, p).Some? ==>
              var c' := Fetched(c, p).value;
              c' == c.(order := c'.order) && c'.order != [] && c'.order[|c'.order| - 1] == p
  {
    var v := FirstLoose(c.order, c.pinned);
    if v == |c.order| {
      forall q | q in c.order ensures q in c.pinned {
      }
    }
  }

  /** A page leaves only for an absent one when every slot is taken, and then the first
      that is not pinned; all others keep their order. */
  lemma FetchKeepsOrder(c: Cache, p: PageId, i: nat)
    requires i < |c.order| && (c.order[i] == p || (p !in c.order && |c.order| >= c.size && c.order[i] !in c.pinned))
    requires c.order[i] == p ==> p !in c.order[..i]
    requires c.order[i] != p ==> forall q :: q in c.order[..i] ==> q in c.pinned
    ensures Fetched(c, p) == Some(c.(order := c.order[..i] + c.order[i + 1..] + [p]))
  {
    forall m | 0 <= m < i ensures if c.order[i] == p then c.order[m] != p else c.order[m] in c.pinned {
      assert c.order[m] in c.order[..i];
    }
  }

  lemma FetchAddsPage(c: Cache, p: PageId)
    requires p !in c.order && |c.order| < c.size
    ensures Fetched(c, p) == Some(c.(order := c.order + [p]))
  {
  }

  /** The call writes page p. */
  predicate Writes(c: Cache, op: Op, p: PageId) {
    op.Put? && op.p == p && Fetched(c, p).Some?
  }

  /** Call i of a run writes page p. */
  predicate WritesAt(c: Cache, ops: seq<Op>, i: nat, p: PageId)
    requires i < |ops|
  {
    Writes(StateAfter(CacheAfter, c, ops[..i]), ops[i], p)
  }

  /** The content of a page after some calls. */
  function ContentAt(c: Cache, ops: seq<Op>, n: nat, p: PageId): Option<Page>
    requires n <= |ops|
  {
    var content := StateAfter(CacheAfter, c, ops[..n]).content;
    if p in content then Some(content[p]) else None
  }

  lemma ContentNext(c: Cache, ops: seq<Op>, n: nat, p: PageId)
    requires n < |ops|
    ensures ContentAt(c, ops, n + 1, p) == if WritesAt(c, ops, n, p) then Some(ops[n].c) else ContentAt(c, ops, n, p)
  {
    StateNext(CacheAfter, c, ops, n);
    var now := StateAfter(CacheAfter, c, ops[..n]);
    if ops[n].Fetch? || ops[n].Put? {
      FetchFails(now, ops[n].p);
    }
  }

  /** No call from j up to n writes page p. */
  predicate NoWrite(c: Cache, ops: seq<Op>, j: nat, n: nat, p: PageId)
    requires n <= |ops|
  {
    forall i :: j <= i < n ==> !WritesAt(c, ops, i, p)
  }

  lemma {:induction false} ContentStays(c: Cache, ops: seq<Op>, j: nat, n: nat, p: PageId)
    requires j <= n <= |ops| && NoWrite(c, ops, j, n, p)
    ensures ContentAt(c, ops, n, p) == ContentAt(c, ops, j, p)
    decreases n
  {
    if j < n {
      ContentNext(c, ops, n - 1, p);
      ContentStays(c, ops, j, n - 1, p);
    }
  }

  /** A fetch that does not fail answers what was last written to its page, else what the
      file held at first. */
  lemma FetchesFindLatest(c: Cache, ops: seq<Op>, n: nat)
    requires n < |ops| && ops[n].Fetch? && ops[n].p in c.content && Replies(CacheAfter, CacheAnswer, c, ops)[n].Some?
    ensures var p, found := ops[n].p, Replies(CacheAfter, CacheAnswer, c, ops)[n];
            && (forall j: nat :: j < n && WritesAt(c, ops, j, p) && NoWrite(c, ops, j + 1, n, p) ==> found == Some(ops[j].c))
            && (NoWrite(c, ops, 0, n, p) ==> found == Some(c.content[p]))
  {
    var p := ops[n].p;
    ReplyAt(CacheAfter, CacheAnswer, c, ops, n);
    var found := Replies(CacheAfter, CacheAnswer, c, ops)[n];
    assert found == ContentAt(c, ops, n, p);
    forall j: nat | j < n && WritesAt(c, ops, j, p) && NoWrite(c, ops, j + 1, n, p) ensures found == Some(ops[j].c) {
      ContentNext(c, ops, j, p);
      ContentStays(c, ops, j + 1, n, p);
    }
    if NoWrite(c, ops, 0, n, p) {
      ContentStays(c, ops, 0, n, p);
      assert ops[..0] == [];
    }
  }
}
