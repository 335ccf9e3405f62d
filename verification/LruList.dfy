/** The intrusive doubly linked list of pages, least recently used first, between
    two sentinels. */
module LruList {

  class Node {
    var pid: nat
    var prev: Node?
    var next: Node?

    constructor (pid: nat)
      ensures this.pid == pid
    {
      this.pid := pid;
      prev, next := null, null;
    }
  }

  /** Element i occurs nowhere else. */
  ghost predicate Once(s: seq<Node>, i: nat) {
    i < |s| ==> forall j :: 0 <= j < |s| && j != i ==> s[j] != s[i]
  }

  ghost predicate Distinct(s: seq<Node>) {
    forall i: nat :: Once(s, i)
  }

  /** Neighbours point to each other. */
  ghost predicate Linked(s: seq<Node>)
    reads set x | x in s
  {
    && (forall i {:trigger s[i].next} :: 0 <= i < |s| - 1 ==> s[i].next == s[i + 1])
    && (forall i {:trigger s[i].prev} :: 0 < i < |s| ==> s[i].prev == s[i - 1])
  }

  /** The chain without element i. */
  function Cut<T>(s: seq<T>, i: nat): seq<T>
    requires i < |s|
  {
    s[..i] + s[i + 1..]
  }

  class List {
    const head: Node
    const tail: Node
    var size: nat
    ghost var nodes: seq<Node>
    ghost var pids: seq<nat>

    /** The nodes with the sentinels around them. */
    ghost function Chain(): (s: seq<Node>)
      reads this`nodes
    {
      [head] + nodes + [tail]
    }

    ghost function Members(): set<Node>
      reads this`nodes
    {
      set x | x in Chain()
    }

    ghost predicate Valid()
      reads this, Members()
    {
      Distinct(Chain()) && Linked(Chain()) && size == |nodes| && Pids(nodes, pids)
    }

    constructor ()
      ensures Valid() && nodes == [] && pids == [] && fresh(Members())
    {
      head := new Node(0);
      tail := new Node(0);
      size, nodes, pids := 0, [], [];
      new;
      head.next, tail.prev := tail, head;
    }

    /** A node that is in no list becomes the most recently used one. */
    method Append(n: Node)
      requires Valid() && n !in Chain()
      modifies this, Members(), n
      ensures Valid() && nodes == old(nodes) + [n] && pids == old(pids) + [old(n.pid)] && n.pid == old(n.pid)
    {
      ghost var chain := Chain();
      assert chain[|chain| - 1] == tail && chain[|chain| - 2] == tail.prev;
      assert Once(chain, |chain| - 1) && Once(chain, |chain| - 2);
      n.next, n.prev := tail, tail.prev;
      tail.prev.next := n;
      tail.prev := n;
      size, nodes, pids := size + 1, nodes + [n], pids + [n.pid];
      assert Chain() == chain[..|chain| - 1] + [n, tail];
      InsertedOnce(chain, n);
    }

    /** `add_to_mru` */
    method AddToMru(pid: nat) returns (n: Node)
      requires Valid()
      modifies this, Members()
      ensures Valid() && fresh(n) && nodes == old(nodes) + [n] && pids == old(pids) + [pid]
    {
      n := new Node(pid);
      Append(n);
    }

    /** `remove` */
    method Remove(n: Node, ghost i: nat)
      requires Valid() && i < |nodes| && nodes[i] == n
      modifies this, Members()
      ensures Valid() && nodes == Cut(old(nodes), i) && pids == Cut(old(pids), i) && n !in Chain() && n.pid == old(pids)[i]
    {
      ghost var chain := Chain();
      assert chain[i + 1] == n && chain[i] == n.prev && chain[i + 2] == n.next;
      var pn, nn := n.prev, n.next;
      pn.next, nn.prev := nn, pn;
      assert Distinct(Cut(chain, i + 1)) && Linked(Cut(chain, i + 1)) && n !in Cut(chain, i + 1) by {
        assert Once(chain, i) && Once(chain, i + 1) && Once(chain, i + 2);
        CutLinked(chain, i + 1);
      }
      CutPids(nodes, pids, i);
      CutInside(head, nodes, tail, i);
      size, nodes, pids := size - 1, Cut(nodes, i), Cut(pids, i);
    }

    /** `move_to_mru` */
    method MoveToMru(n: Node, ghost i: nat)
      requires Valid() && i < |nodes| && nodes[i] == n
      modifies this, Members()
      ensures Valid() && nodes == Cut(old(nodes), i) + [n] && pids == Cut(old(pids), i) + [old(pids)[i]]
    {
      Remove(n, i);
      Append(n);
    }
  }

  ghost predicate Pids(nodes: seq<Node>, pids: seq<nat>)
    reads set x | x in nodes
  {
    |nodes| == |pids| && forall i :: 0 <= i < |pids| ==> nodes[i].pid == pids[i]
  }

  lemma CutPids(nodes: seq<Node>, pids: seq<nat>, i: nat)
    requires Pids(nodes, pids) && i < |pids|
    ensures Pids(Cut(nodes, i), Cut(pids, i))
  {
  }

  lemma CutInside(head: Node, nodes: seq<Node>, tail: Node, i: nat)
    requires i < |nodes|
    ensures [head] + Cut(nodes, i) + [tail] == Cut([head] + nodes + [tail], i + 1)
  {
  }

  lemma InsertedOnce(s: seq<Node>, n: Node)
    requires Distinct(s) && n !in s && s != []
    ensures Distinct(s[..|s| - 1] + [n, s[|s| - 1]])
  {
    var t := s[..|s| - 1] + [n, s[|s| - 1]];
    forall i: nat ensures Once(t, i) {
      if i < |s| - 1 {
        assert Once(s, i) && t[i] == s[i];
      } else if i == |s| {
        assert Once(s, |s| - 1);
      }
    }
  }

  lemma CutOnce(s: seq<Node>, i: nat)
    requires Distinct(s) && i < |s|
    ensures Distinct(Cut(s, i)) && s[i] !in Cut(s, i)
  {
    var t := Cut(s, i);
    assert Once(s, i);
    forall j: nat ensures Once(t, j) {
      assert Once(s, if j < i then j else j + 1);
    }
  }

  /** Taking out element i, once its neighbours point to each other. */
  lemma CutLinked(s: seq<Node>, i: nat)
    requires 0 < i < |s| - 1 && Distinct(s) && s[i - 1].next == s[i + 1] && s[i + 1].prev == s[i - 1]
    requires forall j {:trigger s[j].next} :: 0 <= j < |s| - 1 && j != i - 1 ==> s[j].next == s[j + 1]
    requires forall j {:trigger s[j].prev} :: 0 < j < |s| && j != i + 1 ==> s[j].prev == s[j - 1]
    ensures Distinct(Cut(s, i)) && Linked(Cut(s, i)) && s[i] !in Cut(s, i)
  {
    var t := Cut(s, i);
    CutOnce(s, i);
    forall j | 0 <= j < |t| - 1 ensures t[j].next == t[j + 1] {
      var k := if j < i then j else j + 1;
      assert t[j] == s[k];
    }
    forall j | 0 < j < |t| ensures t[j].prev == t[j - 1] {
      var k := if j < i then j else j + 1;
      assert t[j] == s[k];
    }
  }
}
