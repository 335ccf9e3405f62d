/** Weighted shortest paths: Dijkstra's algorithm with parent tracing. */
module ShortestPath {
  import opened Wrappers

  /** A relationship seen from one of its nodes: the other node, its weight, and
      whether the predicate accepts it. */
  datatype Rel = Rel(other: nat, weight: real, ok: bool)

  /** The outgoing and the incoming relationships of every node. */
  datatype Graph = Graph(from: seq<seq<Rel>>, to: seq<seq<Rel>>) {
    function Size(): nat { |from| }
  }

  ghost predicate RelsOk(n: nat, rels: seq<Rel>) {
    forall j :: 0 <= j < |rels| ==> rels[j].other < n && rels[j].weight >= 0.0
  }

  ghost predicate GraphOk(g: Graph) {
    |g.to| == g.Size() && forall u :: 0 <= u < g.Size() ==> RelsOk(g.Size(), g.from[u]) && RelsOk(g.Size(), g.to[u])
  }

  /** The relationships followed from u. */
  function Rels(g: Graph, both: bool, u: nat): seq<Rel>
    requires u < g.Size() == |g.to|
  {
    if both then g.from[u] + g.to[u] else g.from[u]
  }

  lemma RelsFollowed(g: Graph, both: bool, u: nat)
    requires GraphOk(g) && u < g.Size()
    ensures RelsOk(g.Size(), Rels(g, both, u))
  {
  }

  // ---------------------------------------------------------------------------- paths

  /** A path is the list of the relationships followed. */
  type Path = seq<Rel>

  function End(start: nat, p: Path): nat {
    if p == [] then start else p[|p| - 1].other
  }

  ghost predicate IsPath(g: Graph, both: bool, start: nat, p: Path)
    requires |g.to| == g.Size()
  {
    p == [] ||
    var front := p[..|p| - 1];
    IsPath(g, both, start, front) && Step(g, both, End(start, front), p[|p| - 1])
  }

  /** e is an accepted relationship that leaves u or, in a search in both directions,
      enters it. */
  ghost predicate Step(g: Graph, both: bool, u: nat, e: Rel)
    requires |g.to| == g.Size()
  {
    u < g.Size() && e.ok && (e in g.from[u] || (both && e in g.to[u]))
  }

  /** What is followed are the steps of a path, all of them and no others. */
  lemma RelsAreSteps(g: Graph, both: bool, u: nat, e: Rel)
    requires u < g.Size() == |g.to|
    ensures e.ok && e in Rels(g, both, u) <==> Step(g, both, u, e)
  {
  }

  function Length(p: Path): real {
    if p == [] then 0.0 else Length(p[..|p| - 1]) + p[|p| - 1].weight
  }

  /** The nodes on a path. */
  function Nodes(start: nat, p: Path): seq<nat> {
    if p == [] then [start] else Nodes(start, p[..|p| - 1]) + [p[|p| - 1].other]
  }

  /** The length is the sum of the weights, and the nodes are the start and the ends of the
      steps, each of which leads from one node to the next. */
  lemma {:induction false} PathMeans(g: Graph, both: bool, start: nat, p: Path)
    requires |g.to| == g.Size() && IsPath(g, both, start, p)
    ensures |Nodes(start, p)| == |p| + 1 && Nodes(start, p)[0] == start
    ensures forall i :: 0 <= i < |p| ==> Nodes(start, p)[i + 1] == p[i].other && Step(g, both, Nodes(start, p)[i], p[i])
    ensures End(start, p) == Nodes(start, p)[|p|]
  {
    if p != [] {
      PathMeans(g, both, start, p[..|p| - 1]);
    }
  }

  lemma {:induction false} LengthSplit(p: Path, q: Path)
    ensures Length(p + q) == Length(p) + Length(q)
    ensures forall e: Rel :: Length([e]) == e.weight
  {
    forall e: Rel ensures Length([e]) == e.weight {
      assert [e][..0] == [];
    }
    if q == [] {
      assert p + q == p;
    } else {
      LengthSplit(p, q[..|q| - 1]);
      assert (p + q)[..|p + q| - 1] == p + q[..|q| - 1];
    }
  }

  // ---------------------------------------------------------------------- the invariant

  const NO_PARENT: int := -1
  const UNSET: int := -2

  /** Weights and parents: the start has weight 0 and no parent; every other node with a
      weight got it over an accepted relationship from its parent, which was visited,
      and, if the node was visited too, visited earlier. */
  ghost predicate Supported(g: Graph, both: bool, start: nat, dist: seq<Option<real>>, par: seq<int>, stamp: seq<nat>, v: nat)
    requires v < |dist| == |par| == |stamp| == g.Size() == |g.to|
  {
    && (dist[v].Some? ==> dist[v].value >= 0.0)
    && (dist[v].Some? && v == start ==> dist[v].value == 0.0 && par[v] == NO_PARENT)
    && (dist[v].Some? && v != start ==>
          && 0 <= par[v] < |dist| && dist[par[v]].Some? && stamp[par[v]] > 0 && (stamp[v] > 0 ==> stamp[par[v]] < stamp[v])
          && exists j :: 0 <= j < |Rels(g, both, par[v])| && Carries(Rels(g, both, par[v])[j], v, dist[par[v]].value, dist[v].value))
  }

  ghost predicate Carries(e: Rel, v: nat, from: real, to: real) {
    e.ok && e.other == v && to == from + e.weight
  }

  /** The weight of the other node is not above that over this relationship. */
  ghost predicate Relaxed(dist: seq<Option<real>>, w: real, e: Rel) {
    e.ok && e.other < |dist| ==> dist[e.other].Some? && dist[e.other].value <= w + e.weight
  }

  /** The first j relationships of u have been looked at. */
  ghost predicate RelaxedFrom(g: Graph, both: bool, dist: seq<Option<real>>, u: nat, j: nat)
    requires u < |dist| == g.Size() == |g.to|
  {
    && dist[u].Some? && j <= |Rels(g, both, u)|
    && forall i :: 0 <= i < j ==> Relaxed(dist, dist[u].value, Rels(g, both, u)[i])
  }

  /** A visited node has a stamp, in the order of visits; node u is being visited and
      its first j relationships have been looked at. */
  ghost predicate Inv(g: Graph, both: bool, start: nat, dist: seq<Option<real>>, par: seq<int>, stamp: seq<nat>, u: nat, j: nat) {
    && GraphOk(g) && |dist| == |par| == |stamp| == g.Size() && start < g.Size()
    && dist[start] == Some(0.0) && par[start] == NO_PARENT
    && (forall v :: 0 <= v < |dist| ==> Supported(g, both, start, dist, par, stamp, v))
    && (forall x :: 0 <= x < |dist| && stamp[x] > 0 && x != u ==> RelaxedFrom(g, both, dist, x, |Rels(g, both, x)|))
    && (u < |dist| ==> stamp[u] > 0 && RelaxedFrom(g, both, dist, u, j) && forall x :: 0 <= x < |dist| && stamp[x] > 0 ==> stamp[x] <= stamp[u])
    && (forall x, v :: 0 <= x < |dist| && 0 <= v < |dist| && stamp[x] > 0 && stamp[v] == 0 ==> AtMost(dist, x, v))
    && (u < |dist| ==> forall x :: 0 <= x < |dist| && stamp[x] > 0 ==> AtMost(dist, x, u))
  }

  predicate AtMost(dist: seq<Option<real>>, x: nat, v: nat)
    requires x < |dist| && v < |dist|
  {
    dist[x].Some? && (dist[v].Some? ==> dist[x].value <= dist[v].value)
  }

  /** Every path to a node is at least as long as the weight of that node or of some
      node that is still to be visited. */
  lemma {:induction false} PathBound(g: Graph, both: bool, start: nat, dist: seq<Option<real>>, par: seq<int>, stamp: seq<nat>, p: Path)
    returns (x: nat)
    requires Inv(g, both, start, dist, par, stamp, g.Size(), 0) && IsPath(g, both, start, p)
    ensures x < |dist| && dist[x].Some? && dist[x].value <= Length(p)
    ensures x == End(start, p) || stamp[x] == 0
  {
    if p == [] {
      x := start;
    } else {
      var front, e := p[..|p| - 1], p[|p| - 1];
      x := PathBound(g, both, start, dist, par, stamp, front);
      RelsFollowed(g, both, End(start, front));
      RelsAreSteps(g, both, End(start, front), e);
      var i :| 0 <= i < |Rels(g, both, End(start, front))| && Rels(g, both, End(start, front))[i] == e;
      if stamp[x] > 0 {
        assert RelaxedFrom(g, both, dist, x, |Rels(g, both, x)|);
        assert Relaxed(dist, dist[x].value, Rels(g, both, x)[i]);
        x := e.other;
      }
    }
  }

  // --------------------------------------------------------------------------- one step

  /** Looking at one relationship of the visited node u. */
  function Update(dist: seq<Option<real>>, par: seq<int>, stamp: seq<nat>, u: nat, e: Rel): (seq<Option<real>>, seq<int>)
    requires u < |dist| == |par| == |stamp| && e.other < |dist| && dist[u].Some?
  {
    if e.ok && stamp[e.other] == 0 && (dist[e.other].None? || dist[u].value + e.weight < dist[e.other].value)
    then (dist[e.other := Some(dist[u].value + e.weight)], par[e.other := u])
    else (dist, par)
  }

  lemma UpdateSupports(g: Graph, both: bool, start: nat, dist: seq<Option<real>>, par: seq<int>, stamp: seq<nat>, u: nat, j: nat)
    requires Inv(g, both, start, dist, par, stamp, u, j) && u < |dist| && j < |Rels(g, both, u)| && RelsOk(|dist|, Rels(g, both, u))
    ensures var (dist', par') := Update(dist, par, stamp, u, Rels(g, both, u)[j]);
            forall v :: 0 <= v < |dist| ==> Supported(g, both, start, dist', par', stamp, v)
    ensures var (dist', par') := Update(dist, par, stamp, u, Rels(g, both, u)[j]);
            dist'[start] == Some(0.0) && par'[start] == NO_PARENT
  {
    var e := Rels(g, both, u)[j];
    var (dist', par') := Update(dist, par, stamp, u, e);
    assert AtMost(dist, u, e.other) || stamp[e.other] > 0;
    assert Supported(g, both, start, dist, par, stamp, u);
    forall v | 0 <= v < |dist| ensures Supported(g, both, start, dist', par', stamp, v) {
      assert Supported(g, both, start, dist, par, stamp, v);
      if dist' != dist && v == e.other {
        assert Carries(Rels(g, both, u)[j], v, dist'[u].value, dist'[v].value);
      } else if dist[v].Some? && v != start {
        assert par'[v] == par[v] && dist'[par[v]] == dist[par[v]];
        var i :| 0 <= i < |Rels(g, both, par[v])| && Carries(Rels(g, both, par[v])[i], v, dist[par[v]].value, dist[v].value);
        assert Carries(Rels(g, both, par'[v])[i], v, dist'[par'[v]].value, dist'[v].value);
      }
    }
  }

  /** Weights only go down, and those of visited nodes stay. */
  lemma UpdateKeeps(g: Graph, both: bool, start: nat, dist: seq<Option<real>>, par: seq<int>, stamp: seq<nat>, u: nat, j: nat)
    requires Inv(g, both, start, dist, par, stamp, u, j) && u < |dist| && j < |Rels(g, both, u)| && RelsOk(|dist|, Rels(g, both, u))
    ensures var (dist', par') := Update(dist, par, stamp, u, Rels(g, both, u)[j]);
            Inv(g, both, start, dist', par', stamp, u, j + 1)
  {
    var e := Rels(g, both, u)[j];
    var (dist', par') := Update(dist, par, stamp, u, e);
    UpdateSupports(g, both, start, dist, par, stamp, u, j);
    forall x | 0 <= x < |dist| && stamp[x] > 0 && x != u ensures RelaxedFrom(g, both, dist', x, |Rels(g, both, x)|) {
      assert RelaxedFrom(g, both, dist, x, |Rels(g, both, x)|);
      StaysRelaxed(g, both, dist, dist', x, |Rels(g, both, x)|);
    }
    StaysRelaxed(g, both, dist, dist', u, j);
    assert stamp[e.other] > 0 ==> AtMost(dist, e.other, u);
    assert Relaxed(dist', dist'[u].value, e);
    forall x, v | 0 <= x < |dist| && 0 <= v < |dist| && stamp[x] > 0 && stamp[v] == 0 ensures AtMost(dist', x, v) {
      assert AtMost(dist, x, v) && AtMost(dist, x, u);
    }
    forall x | 0 <= x < |dist| && stamp[x] > 0 ensures AtMost(dist', x, u) {
      assert AtMost(dist, x, u);
    }
  }

  lemma StaysRelaxed(g: Graph, both: bool, dist: seq<Option<real>>, dist': seq<Option<real>>, x: nat, j: nat)
    requires x < |dist| == |dist'| == g.Size() == |g.to| && RelaxedFrom(g, both, dist, x, j) && dist'[x] == dist[x]
    requires forall v :: 0 <= v < |dist| && dist[v].Some? ==> dist'[v].Some? && dist'[v].value <= dist[v].value
    ensures RelaxedFrom(g, both, dist', x, j)
  {
    forall i | 0 <= i < j ensures Relaxed(dist', dist'[x].value, Rels(g, both, x)[i]) {
      assert Relaxed(dist, dist[x].value, Rels(g, both, x)[i]);
    }
  }

  /** Visiting the unvisited node with the smallest weight. */
  lemma VisitKeeps(g: Graph, both: bool, start: nat, dist: seq<Option<real>>, par: seq<int>, stamp: seq<nat>, u: nat, t: nat)
    requires Inv(g, both, start, dist, par, stamp, g.Size(), 0) && u < |dist| && dist[u].Some? && stamp[u] == 0 && t > 0
    requires forall v :: 0 <= v < |dist| && stamp[v] == 0 ==> AtMost(dist, u, v)
    requires forall v :: 0 <= v < |dist| ==> stamp[v] < t
    ensures Inv(g, both, start, dist, par, stamp[u := t], u, 0)
  {
    var stamp' := stamp[u := t];
    forall v | 0 <= v < |dist| ensures Supported(g, both, start, dist, par, stamp', v) {
      assert Supported(g, both, start, dist, par, stamp, v);
    }
    forall x | 0 <= x < |dist| && stamp'[x] > 0 && x != u ensures RelaxedFrom(g, both, dist, x, |Rels(g, both, x)|) {
    }
    forall x, v | 0 <= x < |dist| && 0 <= v < |dist| && stamp'[x] > 0 && stamp'[v] == 0 ensures AtMost(dist, x, v) {
    }
    forall x | 0 <= x < |dist| && stamp'[x] > 0 ensures AtMost(dist, x, u) {
    }
  }

  lemma VisitDone(g: Graph, both: bool, start: nat, dist: seq<Option<real>>, par: seq<int>, stamp: seq<nat>, u: nat)
    requires GraphOk(g) && u < g.Size() && Inv(g, both, start, dist, par, stamp, u, |Rels(g, both, u)|)
    ensures Inv(g, both, start, dist, par, stamp, g.Size(), 0)
  {
  }

  // -------------------------------------------------------------------- the algorithm

  function Visits(stamp: seq<nat>): (c: nat)
    ensures c <= |stamp|
  {
    if stamp == [] then 0 else Visits(stamp[..|stamp| - 1]) + if stamp[|stamp| - 1] > 0 then 1 else 0
  }

  lemma {:induction false} OneMoreVisit(stamp: seq<nat>, u: nat, t: nat)
    requires u < |stamp| && stamp[u] == 0 && t > 0
    ensures Visits(stamp[u := t]) == Visits(stamp) + 1
  {
    var front := stamp[..|stamp| - 1];
    if u < |stamp| - 1 {
      OneMoreVisit(front, u, t);
      assert stamp[u := t][..|stamp| - 1] == front[u := t];
    } else {
      assert stamp[u := t][..|stamp| - 1] == front;
    }
  }

  /** As long as a node is unvisited not all are visited. */
  lemma {:induction false} OneUnvisited(stamp: seq<nat>, v: nat)
    requires v < |stamp| && stamp[v] == 0
    ensures Visits(stamp) < |stamp|
  {
    if v < |stamp| - 1 {
      OneUnvisited(stamp[..|stamp| - 1], v);
    }
  }

  lemma {:induction false} NoVisits(n: nat)
    ensures Visits(seq(n, _ => 0)) == 0
  {
    if n > 0 {
      NoVisits(n - 1);
      assert seq(n, _ => 0)[..n - 1] == seq(n - 1, _ => 0);
    }
  }

  /** The unvisited node with the smallest weight, if one has a weight. */
  method Nearest(dist: array<Option<real>>, visited: array<bool>, ghost stamp: seq<nat>) returns (u: Option<nat>)
    requires dist.Length == visited.Length == |stamp| && forall v :: 0 <= v < |stamp| ==> visited[v] == (stamp[v] > 0)
    ensures u.None? ==> forall v :: 0 <= v < |stamp| && stamp[v] == 0 ==> dist[v].None?
    ensures u.Some? ==> u.value < |stamp| && stamp[u.value] == 0 && dist[u.value].Some?
    ensures u.Some? ==> forall v :: 0 <= v < |stamp| && stamp[v] == 0 ==> AtMost(dist[..], u.value, v)
  {
    u := None;
    var v := 0;
    while v < dist.Length
      invariant v <= dist.Length
      invariant u.None? ==> forall x :: 0 <= x < v && stamp[x] == 0 ==> dist[x].None?
      invariant u.Some? ==> u.value < |stamp| && stamp[u.value] == 0 && dist[u.value].Some?
      invariant u.Some? ==> forall x :: 0 <= x < v && stamp[x] == 0 ==> AtMost(dist[..], u.value, x)
    {
      if !visited[v] && dist[v].Some? && (u.None? || dist[v].value < dist[u.value].value) {
        u := Some(v);
      }
      v := v + 1;
    }
  }

  /** The relationships of the visited node u, from number j on. */
  method Relax(g: Graph, ghost both: bool, ghost start: nat, rels: seq<Rel>, dist: array<Option<real>>, par: array<int>, visited: array<bool>,
               ghost stamp: seq<nat>, u: nat, ghost j: nat)
    requires Inv(g, both, start, dist[..], par[..], stamp, u, j) && u < g.Size() == visited.Length
    requires forall v :: 0 <= v < |stamp| ==> visited[v] == (stamp[v] > 0)
    requires j + |rels| <= |Rels(g, both, u)| && rels == Rels(g, both, u)[j..j + |rels|]
    modifies dist, par
    ensures Inv(g, both, start, dist[..], par[..], stamp, u, j + |rels|)
  {
    RelsFollowed(g, both, u);
    var i := 0;
    while i < |rels|
      invariant i <= |rels| && Inv(g, both, start, dist[..], par[..], stamp, u, j + i)
    {
      var e := rels[i];
      assert e == Rels(g, both, u)[j + i];
      UpdateKeeps(g, both, start, dist[..], par[..], stamp, u, j + i);
      ghost var next := Update(dist[..], par[..], stamp, u, e);
      if e.ok && !visited[e.other] && (dist[e.other].None? || dist[u].value + e.weight < dist[e.other].value) {
        dist[e.other] := Some(dist[u].value + e.weight);
        par[e.other] := u;
      }
      assert dist[..] == next.0 && par[..] == next.1;
      i := i + 1;
    }
  }

  /** `trace_path`: the nodes from the start to v, and the relationships between them. */
  method TracePath(g: Graph, ghost both: bool, ghost start: nat, dist: array<Option<real>>, par: array<int>, ghost stamp: seq<nat>, v: nat)
    returns (path: seq<nat>, ghost p: Path)
    requires Inv(g, both, start, dist[..], par[..], stamp, g.Size(), 0) && v < g.Size() && dist[v].Some?
    ensures IsPath(g, both, start, p) && End(start, p) == v && Nodes(start, p) == path && Length(p) == dist[v].value
    decreases if stamp[v] > 0 then 0 else 1, stamp[v]
  {
    assert Supported(g, both, start, dist[..], par[..], stamp, v);
    if par[v] == NO_PARENT {
      return [v], [];
    }
    path, p := TracePath(g, both, start, dist, par, stamp, par[v]);
    ghost var i :| 0 <= i < |Rels(g, both, par[v])| && Carries(Rels(g, both, par[v])[i], v, dist[par[v]].value, dist[v].value);
    ghost var q := p + [Rels(g, both, par[v])[i]];
    assert q[..|q| - 1] == p;
    RelsAreSteps(g, both, par[v], q[|q| - 1]);
    path, p := path + [v], q;
  }

  /** The result of a search: the nodes and the weight of a path to `stop`. */
  datatype Found = NotFound | Found(path: seq<nat>, weight: real)

  ghost predicate Reachable(g: Graph, both: bool, start: nat, stop: nat)
    requires |g.to| == g.Size()
  {
    exists p: Path :: IsPath(g, both, start, p) && End(start, p) == stop
  }

  /** The nodes and the weight are those of a path. */
  ghost predicate IsRoute(g: Graph, both: bool, start: nat, stop: nat, r: Found)
    requires |g.to| == g.Size() && r.Found?
  {
    exists p: Path :: IsPath(g, both, start, p) && End(start, p) == stop && Nodes(start, p) == r.path && Length(p) == r.weight
  }

  /** No path to `stop` is shorter than w. */
  ghost predicate Lightest(g: Graph, both: bool, start: nat, stop: nat, w: real)
    requires |g.to| == g.Size()
  {
    forall p: Path :: IsPath(g, both, start, p) && End(start, p) == stop ==> w <= Length(p)
  }

  lemma NothingLeft(g: Graph, both: bool, start: nat, stop: nat, dist: seq<Option<real>>, par: seq<int>, stamp: seq<nat>)
    requires Inv(g, both, start, dist, par, stamp, g.Size(), 0) && stop < g.Size() && stamp[stop] == 0
    requires forall v :: 0 <= v < |dist| && stamp[v] == 0 ==> dist[v].None?
    ensures !Reachable(g, both, start, stop)
  {
    forall p: Path | IsPath(g, both, start, p) ensures End(start, p) != stop {
      var x := PathBound(g, both, start, dist, par, stamp, p);
    }
  }

  lemma NothingNearer(g: Graph, both: bool, start: nat, stop: nat, dist: seq<Option<real>>, par: seq<int>, stamp: seq<nat>)
    requires Inv(g, both, start, dist, par, stamp, g.Size(), 0) && stop < g.Size() && stamp[stop] == 0 && dist[stop].Some?
    requires forall v :: 0 <= v < |dist| && stamp[v] == 0 ==> AtMost(dist, stop, v)
    ensures Lightest(g, both, start, stop, dist[stop].value)
  {
    forall p: Path | IsPath(g, both, start, p) && End(start, p) == stop ensures dist[stop].value <= Length(p) {
      var x := PathBound(g, both, start, dist, par, stamp, p);
      assert AtMost(dist, stop, x);
    }
  }

  /** `weighted_shortest_path`: it finds a path exactly when there is one; the path is
      real, it has the weight reported, and no path is lighter. */
  method WeightedShortestPath(g: Graph, both: bool, start: nat, stop: nat) returns (r: Found)
    requires GraphOk(g) && start < g.Size() && stop < g.Size()
    ensures r.Found? <==> Reachable(g, both, start, stop)
    ensures r.Found? ==> IsRoute(g, both, start, stop, r)
    ensures r.Found? ==> Lightest(g, both, start, stop, r.weight)
  {
    var n := g.Size();
    var visited, par, dist := Initial(g, both, start);
    ghost var stamp := seq(n, _ => 0);
    NoVisits(n);
    var i := 0;
    while i < n
      invariant i <= n && Inv(g, both, start, dist[..], par[..], stamp, n, 0) && stamp[stop] == 0 && Stamped(visited[..], stamp, i)
    {
      var u := Nearest(dist, visited, stamp);
      if u == Some(stop) {
        NothingNearer(g, both, start, stop, dist[..], par[..], stamp);
        r := Report(g, both, start, stop, dist, par, stamp);
        return;
      } else if u.None? {
        NothingLeft(g, both, start, stop, dist[..], par[..], stamp);
        return NotFound;
      }
      Visit(g, both, start, dist, par, visited, stamp, u.value, i);
      stamp := stamp[u.value := i + 1];
      i := i + 1;
    }
    OneUnvisited(stamp, stop);
    assert false;
    r := NotFound;
  }

  method Initial(g: Graph, ghost both: bool, start: nat) returns (visited: array<bool>, par: array<int>, dist: array<Option<real>>)
    requires GraphOk(g) && start < g.Size()
    ensures fresh(visited) && fresh(par) && fresh(dist) && Inv(g, both, start, dist[..], par[..], seq(g.Size(), _ => 0), g.Size(), 0)
    ensures visited.Length == g.Size() && forall v :: 0 <= v < visited.Length ==> !visited[v]
  {
    var n := g.Size();
    visited, par, dist := new bool[n](_ => false), new int[n](_ => UNSET), new Option<real>[n](_ => None);
    dist[start], par[start] := Some(0.0), NO_PARENT;
  }

  method Report(g: Graph, ghost both: bool, ghost start: nat, stop: nat, dist: array<Option<real>>, par: array<int>, ghost stamp: seq<nat>)
    returns (r: Found)
    requires Inv(g, both, start, dist[..], par[..], stamp, g.Size(), 0) && stop < g.Size() && dist[stop].Some?
    ensures r.Found? && r.weight == dist[stop].value && Reachable(g, both, start, stop) && IsRoute(g, both, start, stop, r)
  {
    var path, p := TracePath(g, both, start, dist, par, stamp, stop);
    r := Found(path, dist[stop].value);
  }

  /** The stamps after i visits. */
  ghost predicate Stamped(visited: seq<bool>, stamp: seq<nat>, i: nat) {
    |visited| == |stamp| && Visits(stamp) == i && forall v :: 0 <= v < |stamp| ==> visited[v] == (stamp[v] > 0) && stamp[v] <= i
  }

  lemma StampOne(visited: seq<bool>, stamp: seq<nat>, i: nat, u: nat)
    requires Stamped(visited, stamp, i) && u < |stamp| && stamp[u] == 0
    ensures Stamped(visited[u := true], stamp[u := i + 1], i + 1)
  {
    OneMoreVisit(stamp, u, i + 1);
  }

  /** Visit number i + 1, of u: all its relationships are looked at. */
  method Visit(g: Graph, both: bool, ghost start: nat, dist: array<Option<real>>, par: array<int>, visited: array<bool>,
               ghost stamp: seq<nat>, u: nat, ghost i: nat)
    requires Inv(g, both, start, dist[..], par[..], stamp, g.Size(), 0) && u < g.Size() && stamp[u] == 0 && dist[u].Some?
    requires Stamped(visited[..], stamp, i)
    requires forall v :: 0 <= v < |stamp| && stamp[v] == 0 ==> AtMost(dist[..], u, v)
    modifies dist, par, visited
    ensures Inv(g, both, start, dist[..], par[..], stamp[u := i + 1], g.Size(), 0)
    ensures Stamped(visited[..], stamp[u := i + 1], i + 1)
  {
    VisitKeeps(g, both, start, dist[..], par[..], stamp, u, i + 1);
    StampOne(visited[..], stamp, i, u);
    visited[u] := true;
    ghost var stamp' := stamp[u := i + 1];
    Relax(g, both, start, g.from[u], dist, par, visited, stamp', u, 0);
    if both {
      Relax(g, both, start, g.to[u], dist, par, visited, stamp', u, |g.from[u]|);
    }
    VisitDone(g, both, start, dist[..], par[..], stamp', u);
  }
}
