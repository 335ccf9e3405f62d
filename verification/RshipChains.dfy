/** Relationships threaded through their table: every node heads a chain of its
    outgoing and one of its incoming relationships. */
module RshipChains {
  import opened Wrappers
  import opened Runs

  type Id = nat

  /** The two ends of a relationship. */
  datatype Side = From | To

  datatype Rship = Rship(src: Id, dest: Id, nextSrc: Option<Id>, nextDest: Option<Id>) {
    function End(side: Side): Id { if side.From? then src else dest }

    function Next(side: Side): Option<Id> { if side.From? then nextSrc else nextDest }

    function SetNext(side: Side, next: Option<Id>): (r: Rship)
      ensures forall s :: r.End(s) == End(s) && r.Next(s) == if s == side then next else Next(s)
    {
      if side.From? then this.(nextSrc := next) else this.(nextDest := next)
    }
  }

  datatype Node = Node(fromList: Option<Id>, toList: Option<Id>) {
    function Head(side: Side): Option<Id> { if side.From? then fromList else toList }

    function SetHead(side: Side, head: Option<Id>): (n: Node)
      ensures forall s :: n.Head(s) == if s == side then head else Head(s)
    {
      if side.From? then this.(fromList := head) else this.(toList := head)
    }
  }

  type Rships = map<Id, Rship>
  type Nodes = map<Id, Node>

  /** Relationship r is live and has node v at the given end. */
  predicate Has(t: Rships, side: Side, v: Id, r: Id) {
    r in t && t[r].End(side) == v
  }

  /** The live relationships of node v among those with an id below `top`, newest first. */
  function Owned(t: Rships, side: Side, top: nat, v: Id): seq<Id> {
    if top == 0 then []
    else if Has(t, side, v, top - 1) then [top - 1] + Owned(t, side, top - 1, v)
    else Owned(t, side, top - 1, v)
  }

  ghost predicate Descends(s: seq<Id>) {
    forall i, j :: 0 <= i < j < |s| ==> s[i] > s[j]
  }

  /** Exactly the live relationships of v, each once, newest first: those that leave it on
      one side, those that enter it on the other. */
  lemma OwnedExact(t: Rships, top: nat, v: Id)
    ensures forall r: Id :: r in Owned(t, From, top, v) <==> r < top && r in t && t[r].src == v
    ensures forall r: Id :: r in Owned(t, To, top, v) <==> r < top && r in t && t[r].dest == v
    ensures forall side :: Descends(Owned(t, side, top, v))
  {
    forall side: Side
      ensures Descends(Owned(t, side, top, v))
      ensures forall r: Id :: r in Owned(t, side, top, v) <==> r < top && Has(t, side, v, r)
    {
      OwnedSide(t, side, top, v);
    }
  }

  lemma {:induction false} OwnedSide(t: Rships, side: Side, top: nat, v: Id)
    ensures forall r: Id :: r in Owned(t, side, top, v) <==> r < top && Has(t, side, v, r)
    ensures Descends(Owned(t, side, top, v))
  {
    if top > 0 {
      OwnedSide(t, side, top - 1, v);
      var rest, all := Owned(t, side, top - 1, v), Owned(t, side, top, v);
      forall i, j | 0 <= i < j < |all| ensures all[i] > all[j] {
        if |all| > |rest| {
          assert all[j] == rest[j - 1] && rest[j - 1] in rest;
        }
      }
    }
  }

  lemma {:induction false} OwnedSame(t: Rships, t': Rships, side: Side, top: nat, v: Id)
    requires forall r: Id :: r < top ==> (Has(t, side, v, r) <==> Has(t', side, v, r))
    ensures Owned(t', side, top, v) == Owned(t, side, top, v)
  {
    if top > 0 {
      OwnedSame(t, t', side, top - 1, v);
    }
  }

  function Without(s: seq<Id>, r: Id): seq<Id> {
    if s == [] then [] else if s[0] == r then s[1..] else [s[0]] + Without(s[1..], r)
  }

  /** The relationships of a node once r is gone. */
  lemma {:induction false} OwnedRemoved(t: Rships, t': Rships, side: Side, top: nat, r: Id, w: Id)
    requires r in t && r < top && forall x :: Has(t', side, w, x) <==> x != r && Has(t, side, w, x)
    ensures Owned(t', side, top, w) == if t[r].End(side) == w then Without(Owned(t, side, top, w), r) else Owned(t, side, top, w)
  {
    if t[r].End(side) != w {
      OwnedSame(t, t', side, top, w);
    } else if r == top - 1 {
      OwnedSame(t, t', side, top - 1, w);
    } else {
      OwnedRemoved(t, t', side, top - 1, r, w);
    }
  }

  // ------------------------------------------------------------------------- one chain

  /** The chain from `head` lists exactly s. */
  ghost predicate ChainOk(t: Rships, side: Side, head: Option<Id>, s: seq<Id>)
    decreases |s|
  {
    if s == [] then head == None
    else head == Some(s[0]) && s[0] in t && ChainOk(t, side, t[s[0]].Next(side), s[1..])
  }

  lemma {:induction false} ChainKept(t: Rships, t': Rships, side: Side, head: Option<Id>, s: seq<Id>)
    requires ChainOk(t, side, head, s) && forall r :: r in s ==> r in t && r in t' && t'[r].Next(side) == t[r].Next(side)
    ensures ChainOk(t', side, head, s)
    decreases |s|
  {
    if s != [] {
      ChainKept(t, t', side, t[s[0]].Next(side), s[1..]);
    }
  }

  /** Element i of a chain points to the next one. */
  lemma {:induction false} ChainFrom(t: Rships, side: Side, head: Option<Id>, s: seq<Id>, i: nat)
    requires ChainOk(t, side, head, s) && i < |s|
    ensures s[i] in t && t[s[i]].Next(side) == (if i + 1 < |s| then Some(s[i + 1]) else None)
    decreases i
  {
    if i > 0 {
      ChainFrom(t, side, t[s[0]].Next(side), s[1..], i - 1);
    }
  }

  /** Nothing of t but r and the link of p, to what follows r, has changed. */
  ghost predicate Bypassed(t: Rships, t': Rships, side: Side, p: Id, r: Id) {
    && r in t && p in t && p in t' && t'[p].Next(side) == t[r].Next(side)
    && forall x :: x in t && x != r && x != p ==> x in t' && t'[x].Next(side) == t[x].Next(side)
  }

  /** The chain after its element i + 1 was bypassed at element i. */
  lemma {:induction false} BypassKeeps(t: Rships, t': Rships, side: Side, head: Option<Id>, s: seq<Id>, i: nat)
    requires ChainOk(t, side, head, s) && Descends(s) && i + 1 < |s| && Bypassed(t, t', side, s[i], s[i + 1])
    ensures ChainOk(t', side, head, Without(s, s[i + 1]))
    decreases i
  {
    var p, r, rest := s[i], s[i + 1], s[1..];
    if i == 0 {
      assert rest[0] == r && Without(rest, r) == rest[1..];
      InTable(t, side, t[r].Next(side), rest[1..]);
      ChainKept(t, t', side, t[r].Next(side), rest[1..]);
    } else {
      assert rest[i - 1] == p && rest[i] == r && s[0] != r && s[0] != p;
      BypassKeeps(t, t', side, t[s[0]].Next(side), rest, i - 1);
    }
  }

  /** The chain after its first element left. */
  lemma UnheadKeeps(t: Rships, t': Rships, side: Side, head: Option<Id>, s: seq<Id>)
    requires ChainOk(t, side, head, s) && Descends(s) && s != []
    requires forall x :: x in t && x != s[0] ==> x in t' && t'[x].Next(side) == t[x].Next(side)
    ensures ChainOk(t', side, t[s[0]].Next(side), Without(s, s[0]))
  {
    InTable(t, side, t[s[0]].Next(side), s[1..]);
    ChainKept(t, t', side, t[s[0]].Next(side), s[1..]);
  }

  lemma {:induction false} InTable(t: Rships, side: Side, head: Option<Id>, s: seq<Id>)
    requires ChainOk(t, side, head, s)
    ensures forall r :: r in s ==> r in t
    decreases |s|
  {
    if s != [] {
      InTable(t, side, t[s[0]].Next(side), s[1..]);
    }
  }

  // ------------------------------------------------------------- the chains of all nodes

  /** The chain of node v lists its live relationships. */
  ghost predicate ListOk(nodes: Nodes, t: Rships, top: nat, side: Side, v: Id)
    requires v in nodes
  {
    ChainOk(t, side, nodes[v].Head(side), Owned(t, side, top, v))
  }

  ghost predicate TableOk(nodes: Nodes, t: Rships, top: nat) {
    forall r :: r in t ==> r < top && t[r].src in nodes && t[r].dest in nodes
  }

  ghost predicate SideOk(nodes: Nodes, t: Rships, top: nat, side: Side) {
    forall v {:trigger ListOk(nodes, t, top, side, v)} :: v in nodes ==> ListOk(nodes, t, top, side, v)
  }

  /** A new relationship in front of the chain of v at one end. */
  lemma PrependKeeps(nodes: Nodes, t: Rships, top: nat, nodes': Nodes, t': Rships, side: Side, v: Id)
    requires TableOk(nodes, t, top) && SideOk(nodes, t, top, side) && v in nodes && nodes'.Keys == nodes.Keys
    requires t'.Keys == t.Keys + {top} && (forall r :: r in t ==> t'[r] == t[r]) && t'[top].End(side) == v && t'[top].Next(side) == nodes[v].Head(side)
    requires forall w :: w in nodes ==> nodes'[w].Head(side) == if w == v then Some(top) else nodes[w].Head(side)
    ensures SideOk(nodes', t', top + 1, side)
  {
    forall w | w in nodes' ensures ListOk(nodes', t', top + 1, side, w) {
      var s := Owned(t, side, top, w);
      assert ListOk(nodes, t, top, side, w);
      OwnedSame(t, t', side, top, w);
      InTable(t, side, nodes[w].Head(side), s);
      ChainKept(t, t', side, nodes[w].Head(side), s);
      assert ([top] + s)[1..] == s;
    }
  }

  /** r is gone, and nothing changed for relationships of other nodes at this end. */
  ghost predicate Dropped(t: Rships, t': Rships, side: Side, r: Id) {
    && r in t && t'.Keys == t.Keys - {r}
    && forall x :: x in t' ==> t'[x].End(side) == t[x].End(side) && (t[x].End(side) != t[r].End(side) ==> t'[x].Next(side) == t[x].Next(side))
  }

  lemma OthersKept(nodes: Nodes, t: Rships, t': Rships, top: nat, side: Side, r: Id, w: Id)
    requires TableOk(nodes, t, top) && w in nodes && ListOk(nodes, t, top, side, w) && Dropped(t, t', side, r) && t[r].End(side) != w
    ensures ChainOk(t', side, nodes[w].Head(side), Owned(t', side, top, w))
  {
    OwnedRemoved(t, t', side, top, r, w);
    OwnedSide(t, side, top, w);
    ChainKept(t, t', side, nodes[w].Head(side), Owned(t, side, top, w));
  }

  /** Removing the first relationship of a chain. */
  lemma RemoveFirstKeeps(nodes: Nodes, t: Rships, top: nat, nodes': Nodes, t': Rships, side: Side, r: Id)
    requires TableOk(nodes, t, top) && SideOk(nodes, t, top, side) && r in t && nodes'.Keys == nodes.Keys
    requires nodes[t[r].End(side)].Head(side) == Some(r)
    requires forall w :: w in nodes ==> nodes'[w].Head(side) == if w == t[r].End(side) then t[r].Next(side) else nodes[w].Head(side)
    requires Dropped(t, t', side, r) && forall x :: x in t' ==> t'[x].Next(side) == t[x].Next(side)
    ensures SideOk(nodes', t', top, side)
  {
    var v := t[r].End(side);
    forall w | w in nodes' ensures ListOk(nodes', t', top, side, w) {
      assert ListOk(nodes, t, top, side, w);
      if w == v {
        OwnedRemoved(t, t', side, top, r, v);
        OwnedSide(t, side, top, v);
        UnheadKeeps(t, t', side, nodes[v].Head(side), Owned(t, side, top, v));
      } else {
        OthersKept(nodes, t, t', top, side, r, w);
      }
    }
  }

  /** Removing a later one, bypassed at its predecessor, element i of the chain. */
  lemma RemoveLaterKeeps(nodes: Nodes, t: Rships, top: nat, nodes': Nodes, t': Rships, side: Side, r: Id, i: nat)
    requires TableOk(nodes, t, top) && SideOk(nodes, t, top, side) && r in t && nodes'.Keys == nodes.Keys
    requires forall w :: w in nodes ==> nodes'[w].Head(side) == nodes[w].Head(side)
    requires Dropped(t, t', side, r)
    requires var s := Owned(t, side, top, t[r].End(side)); i + 1 < |s| && s[i + 1] == r && Bypassed(t, t', side, s[i], r)
    ensures SideOk(nodes', t', top, side)
  {
    var v := t[r].End(side);
    forall w | w in nodes' ensures ListOk(nodes', t', top, side, w) {
      assert ListOk(nodes, t, top, side, w);
      if w == v {
        OwnedRemoved(t, t', side, top, r, v);
        OwnedSide(t, side, top, v);
        BypassKeeps(t, t', side, nodes[v].Head(side), Owned(t, side, top, v), i);
      } else {
        OthersKept(nodes, t, t', top, side, r, w);
      }
    }
  }

  // -------------------------------------------------------------------------- the tables

  /** The relationship before r in its chain. */
  method FindPrevious(nodes: Nodes, t: Rships, ghost top: nat, side: Side, r: Id) returns (p: Id, ghost i: nat)
    requires TableOk(nodes, t, top) && SideOk(nodes, t, top, side) && r in t && nodes[t[r].End(side)].Head(side) != Some(r)
    ensures var s := Owned(t, side, top, t[r].End(side)); i + 1 < |s| && s[i] == p && s[i + 1] == r
    ensures p in t && p != r && t[p].End(side) == t[r].End(side)
  {
    var v := t[r].End(side);
    ghost var s := Owned(t, side, top, v);
    OwnedSide(t, side, top, v);
    assert ListOk(nodes, t, top, side, v) && r in s;
    ghost var k :| 0 <= k < |s| && s[k] == r;
    i, p := 0, nodes[v].Head(side).value;
    ChainFrom(t, side, nodes[v].Head(side), s, 0);
    while t[p].Next(side) != Some(r)
      invariant i < k && s[i] == p && p in t
      decreases k - i
    {
      ChainFrom(t, side, nodes[v].Head(side), s, i);
      ChainFrom(t, side, nodes[v].Head(side), s, i + 1);
      p, i := t[p].Next(side).value, i + 1;
    }
    ChainFrom(t, side, nodes[v].Head(side), s, i);
    assert s[i] in s;
  }

  /** One end of relationship r has been unlinked: its node or its predecessor p skips it. */
  ghost predicate Skipped(nodes: Nodes, t: Rships, top: nat, nodes': Nodes, t': Rships, side: Side, r: Id, i: nat)
    requires r in t && t[r].End(side) in nodes
  {
    var v := t[r].End(side);
    var s := Owned(t, side, top, v);
    if nodes[v].Head(side) == Some(r) then nodes' == nodes[v := nodes[v].SetHead(side, t[r].Next(side))] && t' == t
    else
      && nodes' == nodes && i + 1 < |s| && s[i + 1] == r && s[i] in t && s[i] != r && t[s[i]].End(side) == v
      && t' == t[s[i] := t[s[i]].SetNext(side, t[r].Next(side))]
  }

  /** The same tables as far as one end is concerned, without relationship r. */
  ghost predicate SameSide(nodes: Nodes, t: Rships, nodes': Nodes, t': Rships, side: Side, r: Id) {
    && nodes'.Keys == nodes.Keys && (forall w :: w in nodes ==> nodes'[w].Head(side) == nodes[w].Head(side))
    && t'.Keys == t.Keys - {r} && (forall x :: x in t' ==> t'[x].Next(side) == t[x].Next(side) && t'[x].End(side) == t[x].End(side))
  }

  /** Once r is skipped at one end and gone, the chains of that end are right again. */
  lemma SkippedKeeps(nodes: Nodes, t: Rships, top: nat, nodes1: Nodes, t1: Rships, nodes': Nodes, t': Rships, side: Side, r: Id, i: nat)
    requires TableOk(nodes, t, top) && SideOk(nodes, t, top, side) && r in t && Skipped(nodes, t, top, nodes1, t1, side, r, i)
    requires SameSide(nodes1, t1, nodes', t', side, r)
    ensures SideOk(nodes', t', top, side)
  {
    if nodes[t[r].End(side)].Head(side) == Some(r) {
      RemoveFirstKeeps(nodes, t, top, nodes', t', side, r);
    } else {
      RemoveLaterKeeps(nodes, t, top, nodes', t', side, r, i);
    }
  }

  /** Unlinking one end changes no end, no link of the other end and no link of r. */
  lemma Untouched(nodes: Nodes, t: Rships, top: nat, nodes': Nodes, t': Rships, side: Side, r: Id, i: nat)
    requires r in t && t[r].End(side) in nodes && Skipped(nodes, t, top, nodes', t', side, r, i)
    ensures nodes'.Keys == nodes.Keys && t'.Keys == t.Keys && t'[r] == t[r]
    ensures forall x :: x in t ==> t'[x].src == t[x].src && t'[x].dest == t[x].dest
    ensures forall w, s :: w in nodes && s != side ==> nodes'[w].Head(s) == nodes[w].Head(s)
    ensures forall x, s :: x in t && s != side ==> t'[x].Next(s) == t[x].Next(s)
  {
  }

  /** Unlinking one end leaves the chains of the other end as they were. */
  lemma OtherEnd(nodes: Nodes, t: Rships, top: nat, nodes': Nodes, t': Rships, side: Side, r: Id, i: nat, other: Side)
    requires TableOk(nodes, t, top) && SideOk(nodes, t, top, other) && r in t && Skipped(nodes, t, top, nodes', t', side, r, i) && other != side
    ensures TableOk(nodes', t', top) && SideOk(nodes', t', top, other)
  {
    forall v | v in nodes' ensures ListOk(nodes', t', top, other, v) {
      assert ListOk(nodes, t, top, other, v);
      OwnedSame(t, t', other, top, v);
      InTable(t, other, nodes[v].Head(other), Owned(t, other, top, v));
      ChainKept(t, t', other, nodes[v].Head(other), Owned(t, other, top, v));
    }
  }

  class Graph {
    var nodes: Nodes
    var rships: Rships
    var top: nat

    ghost predicate Valid()
      reads this
    {
      TableOk(nodes, rships, top) && SideOk(nodes, rships, top, From) && SideOk(nodes, rships, top, To)
    }

    constructor (ids: set<Id>)
      ensures Valid() && nodes.Keys == ids && rships == map[] && top == 0
    {
      nodes, rships, top := map v | v in ids :: Node(None, None), map[], 0;
    }

    /** `import_relationship`: the new relationship heads the chains of both its nodes. */
    method ImportRelationship(src: Id, dest: Id) returns (r: Id)
      requires Valid() && src in nodes && dest in nodes
      modifies this
      ensures Valid() && nodes.Keys == old(nodes).Keys && r !in old(rships) && rships.Keys == old(rships).Keys + {r}
      ensures r == old(top) && top == r + 1
      ensures rships[r].src == src && rships[r].dest == dest && forall x :: x in old(rships) ==> rships[x] == old(rships)[x]
    {
      ghost var nodes0, t := nodes, rships;
      r := top;
      top := top + 1;
      rships := rships[r := Rship(src, dest, nodes[src].fromList, None)];
      nodes := nodes[src := nodes[src].(fromList := Some(r))];
      rships := rships[r := rships[r].(nextDest := nodes[dest].toList)];
      nodes := nodes[dest := nodes[dest].(toList := Some(r))];
      PrependKeeps(nodes0, t, r, nodes, rships, From, src);
      PrependKeeps(nodes0, t, r, nodes, rships, To, dest);
    }

    /** The removal of a relationship in `vacuum`: it is unlinked from both chains. */
    method RemoveRelationship(r: Id)
      requires Valid() && r in rships
      modifies this
      ensures Valid() && nodes.Keys == old(nodes).Keys && rships.Keys == old(rships).Keys - {r} && top == old(top)
      ensures forall x, side :: x in rships ==> rships[x].End(side) == old(rships)[x].End(side)
    {
      ghost var nodes0, t0 := nodes, rships;
      ghost var i := Unlink(From, r);
      ghost var nodes1, t1 := nodes, rships;
      OtherEnd(nodes0, t0, top, nodes1, t1, From, r, i, To);
      ghost var j := Unlink(To, r);
      ghost var nodes2, t2 := nodes, rships;
      Untouched(nodes0, t0, top, nodes1, t1, From, r, i);
      Untouched(nodes1, t1, top, nodes2, t2, To, r, j);
      SkippedKeeps(nodes0, t0, top, nodes1, t1, nodes2, t2 - {r}, From, r, i);
      SkippedKeeps(nodes1, t1, top, nodes2, t2, nodes2, t2 - {r}, To, r, j);
      rships := rships - {r};
    }

    /** One end of relationship r. */
    method Unlink(side: Side, r: Id) returns (ghost i: nat)
      requires TableOk(nodes, rships, top) && SideOk(nodes, rships, top, side) && r in rships
      modifies this`nodes, this`rships
      ensures Skipped(old(nodes), old(rships), top, nodes, rships, side, r, i)
    {
      var v := rships[r].End(side);
      if nodes[v].Head(side) == Some(r) {
        i := 0;
        nodes := nodes[v := nodes[v].SetHead(side, rships[r].Next(side))];
      } else {
        var p;
        p, i := FindPrevious(nodes, rships, top, side, r);
        rships := rships[p := rships[p].SetNext(side, rships[r].Next(side))];
      }
    }

    /** The relationships of a node in chain order: exactly the live ones, newest first. */
    method List(v: Id, side: Side) returns (s: seq<Id>)
      requires Valid() && v in nodes
      ensures s == Owned(rships, side, top, v)
    {
      ghost var all := Owned(rships, side, top, v);
      assert ListOk(nodes, rships, top, side, v);
      s := [];
      var r := nodes[v].Head(side);
      while r.Some?
        invariant |s| <= |all| && s == all[..|s|] && r == if |s| < |all| then Some(all[|s|]) else None
        decreases |all| - |s|
      {
        ChainFrom(rships, side, nodes[v].Head(side), all, |s|);
        s := s + [r.value];
        r := rships[r.value].Next(side);
      }
    }
  }

  // ------------------------------------------------------------------- sequences of calls

  datatype Op = Import(src: Id, dest: Id) | Remove(r: Id) | List(v: Id, side: Side)

  /** The ends of the live relationships, and the next id, without any chain. */
  datatype Live = Live(ends: Rships, top: nat)

  function Unlinked(r: Rship): Rship {
    Rship(r.src, r.dest, None, None)
  }

  function LiveAfter(l: Live, op: Op): Live {
    match op
    case Import(src, dest) => Live(l.ends[l.top := Rship(src, dest, None, None)], l.top + 1)
    case Remove(r) => l.(ends := l.ends - {r})
    case List(_, _) => l
  }

  /** The new id, or the relationships of a node, newest first. */
  function LiveAnswer(l: Live, op: Op): seq<Id> {
    match op
    case Import(_, _) => [l.top]
    case Remove(_) => []
    case List(v, side) => Owned(l.ends, side, l.top, v)
  }

  /** Relationships connect existing nodes, and only live ones are removed. */
  predicate Proper(ids: set<Id>, l: Live, op: Op) {
    match op
    case Import(src, dest) => src in ids && dest in ids
    case Remove(r) => r in l.ends
    case List(v, _) => v in ids
  }

  ghost predicate LiveIn(graph: Graph, ids: set<Id>, l: Live)
    reads graph
  {
    && graph.Valid() && graph.nodes.Keys == ids && graph.top == l.top && graph.rships.Keys == l.ends.Keys
    && forall r :: r in l.ends ==> l.ends[r] == Unlinked(graph.rships[r])
  }

  method Perform(graph: Graph, op: Op, ghost ids: set<Id>, ghost l: Live) returns (answer: seq<Id>)
    requires LiveIn(graph, ids, l) && Proper(ids, l, op)
    modifies graph
    ensures LiveIn(graph, ids, LiveAfter(l, op)) && answer == LiveAnswer(l, op)
  {
    match op
    case Import(src, dest) =>
      var r := graph.ImportRelationship(src, dest);
      assert Unlinked(graph.rships[r]) == Rship(src, dest, None, None);
      answer := [r];
    case Remove(r) =>
      ghost var t := graph.rships;
      graph.RemoveRelationship(r);
      forall x | x in graph.rships ensures Unlinked(graph.rships[x]) == Unlinked(t[x]) {
        assert graph.rships[x].End(From) == t[x].End(From) && graph.rships[x].End(To) == t[x].End(To);
      }
      answer := [];
    case List(v, side) =>
      answer := graph.List(v, side);
      OwnedSame(graph.rships, l.ends, side, graph.top, v);
  }

  /** After any imports and removals every list holds exactly the live relationships of its
      node, newest first. */
  method PerformAll(ids: set<Id>, ops: seq<Op>) returns (graph: Graph, answers: seq<seq<Id>>)
    requires forall i :: 0 <= i < |ops| ==> Proper(ids, StateAfter(LiveAfter, Live(map[], 0), ops[..i]), ops[i])
    ensures fresh(graph) && LiveIn(graph, ids, StateAfter(LiveAfter, Live(map[], 0), ops))
    ensures answers == Replies(LiveAfter, LiveAnswer, Live(map[], 0), ops)
  {
    graph := new Graph(ids);
    answers := [];
    ghost var none := Live(map[], 0);
    for i := 0 to |ops|
      invariant fresh(graph) && LiveIn(graph, ids, StateAfter(LiveAfter, none, ops[..i]))
      invariant answers == Replies(LiveAfter, LiveAnswer, none, ops[..i])
    {
      NextCall(LiveAfter, LiveAnswer, none, ops, i);
      var answer := Perform(graph, ops[i], ids, StateAfter(LiveAfter, none, ops[..i]));
      answers := answers + [answer];
    }
    assert ops[..|ops|] == ops;
  }

  /** The relationship that call j imports, under its id. */
  lemma ImportedId(ops: seq<Op>, j: nat)
    requires j < |ops| && ops[j].Import?
    ensures Replies(LiveAfter, LiveAnswer, Live(map[], 0), ops)[j] == [StateAfter(LiveAfter, Live(map[], 0), ops[..j]).top]
  {
    ReplyAt(LiveAfter, LiveAnswer, Live(map[], 0), ops, j);
  }

  /** Call j imports relationship r between src and dest, and it is not removed up to n. */
  predicate ImportedBy(ops: seq<Op>, j: nat, n: nat, r: Id, src: Id, dest: Id)
    requires n <= |ops|
  {
    && j < n && ops[j] == Import(src, dest) && r == StateAfter(LiveAfter, Live(map[], 0), ops[..j]).top
    && forall i :: j < i < n ==> ops[i] != Remove(r)
  }

  /** Ids are given in increasing order, and only to relationships below the next one. */
  lemma {:induction false} TopGrows(ops: seq<Op>, j: nat, n: nat)
    requires j <= n <= |ops|
    ensures var l, l' := StateAfter(LiveAfter, Live(map[], 0), ops[..j]), StateAfter(LiveAfter, Live(map[], 0), ops[..n]);
            l.top <= l'.top && (forall r :: r in l'.ends ==> r < l'.top)
    decreases n
  {
    if n > 0 {
      StateNext(LiveAfter, Live(map[], 0), ops, n - 1);
      TopGrows(ops, if j < n then j else n - 1, n - 1);
    }
  }

  /** The relationship with id r after some calls. */
  function LiveAt(ops: seq<Op>, n: nat, r: Id): Option<Rship>
    requires n <= |ops|
  {
    var l := StateAfter(LiveAfter, Live(map[], 0), ops[..n]);
    if r in l.ends then Some(l.ends[r]) else None
  }

  lemma LiveNext(ops: seq<Op>, n: nat, r: Id)
    requires n < |ops|
    ensures var top := StateAfter(LiveAfter, Live(map[], 0), ops[..n]).top;
            LiveAt(ops, n + 1, r) ==
            match ops[n]
            case Import(src, dest) => if r == top then Some(Rship(src, dest, None, None)) else LiveAt(ops, n, r)
            case Remove(x) => if r == x then None else LiveAt(ops, n, r)
            case List(_, _) => LiveAt(ops, n, r)
    ensures ops[n].Import? ==> StateAfter(LiveAfter, Live(map[], 0), ops[..n + 1]).top == StateAfter(LiveAfter, Live(map[], 0), ops[..n]).top + 1
  {
    StateNext(LiveAfter, Live(map[], 0), ops, n);
  }

  lemma {:induction false} ImportedIsLive(ops: seq<Op>, j: nat, n: nat, r: Id, src: Id, dest: Id)
    requires n <= |ops| && ImportedBy(ops, j, n, r, src, dest)
    ensures LiveAt(ops, n, r) == Some(Rship(src, dest, None, None))
    decreases n
  {
    LiveNext(ops, n - 1, r);
    if j < n - 1 {
      ImportedIsLive(ops, j, n - 1, r, src, dest);
      LiveNext(ops, j, r);
      TopGrows(ops, j + 1, n - 1);
    }
  }

  lemma {:induction false} LiveWasImported(ops: seq<Op>, n: nat, r: Id) returns (j: nat)
    requires n <= |ops| && r in StateAfter(LiveAfter, Live(map[], 0), ops[..n]).ends
    ensures var e := StateAfter(LiveAfter, Live(map[], 0), ops[..n]).ends[r]; ImportedBy(ops, j, n, r, e.src, e.dest)
  {
    if n > 0 {
      StateNext(LiveAfter, Live(map[], 0), ops, n - 1);
      if ops[n - 1].Import? && r == StateAfter(LiveAfter, Live(map[], 0), ops[..n - 1]).top {
        j := n - 1;
      } else {
        j := LiveWasImported(ops, n - 1, r);
      }
    }
  }

  /** The live relationships are exactly those imported and not removed since. */
  lemma LiveMeans(ops: seq<Op>, n: nat, r: Id, src: Id, dest: Id)
    requires n <= |ops|
    ensures var l := StateAfter(LiveAfter, Live(map[], 0), ops[..n]);
            r in l.ends && l.ends[r].src == src && l.ends[r].dest == dest <==> exists j: nat :: ImportedBy(ops, j, n, r, src, dest)
  {
    if j: nat :| ImportedBy(ops, j, n, r, src, dest) {
      ImportedIsLive(ops, j, n, r, src, dest);
    }
    if r in StateAfter(LiveAfter, Live(map[], 0), ops[..n]).ends {
      var j := LiveWasImported(ops, n, r);
    }
  }
}
