/** Retaining, from all the cubes there are, those that lie between the selected cubes. */
module JoinClosure {

  /*
    Breadth-first search from the first selection to each other one over the
    undirected join graph.
  */

  import opened Sequences
  import opened Wrappers

  datatype Cube = Cube(name: string, joins: seq<string>)

  function Names(cubes: seq<Cube>): set<string> {
    set c | c in cubes :: c.name
  }

  /** A join declared on either side, between cubes that are both available. */
  predicate Adjacent(cubes: seq<Cube>, u: string, v: string) {
    && u in Names(cubes) && v in Names(cubes)
    && exists c | c in cubes :: (c.name == u && v in c.joins) || (c.name == v && u in c.joins)
  }

  // --------------------------------------------------------- paths and distance

  predicate IsPath(cubes: seq<Cube>, p: seq<string>) {
    |p| > 0 && forall i | 0 <= i < |p| - 1 :: Adjacent(cubes, p[i], p[i + 1])
  }

  predicate Joins(cubes: seq<Cube>, p: seq<string>, from: string, to: string) {
    IsPath(cubes, p) && p[0] == from && p[|p| - 1] == to
  }

  ghost predicate Shortest(cubes: seq<Cube>, p: seq<string>, from: string, to: string) {
    Joins(cubes, p, from, to) && forall q | Joins(cubes, q, from, to) :: |p| <= |q|
  }

  /** Everything at most k joins away. */
  ghost function Within(cubes: seq<Cube>, start: string, k: nat): set<string> {
    if k == 0 then {start} else
      var near := Within(cubes, start, k - 1);
      near + set v | v in Names(cubes) && exists u :: u in near && Adjacent(cubes, u, v)
  }

  lemma {:induction false} PathWithin(cubes: seq<Cube>, start: string, p: seq<string>)
    requires IsPath(cubes, p) && p[0] == start
    ensures p[|p| - 1] in Within(cubes, start, |p| - 1)
  {
    if |p| > 1 {
      var n := |p| - 1;
      assert IsPath(cubes, p[..n]) by {
        forall i | 0 <= i < n - 1 ensures Adjacent(cubes, p[..n][i], p[..n][i + 1]) {
          assert Adjacent(cubes, p[i], p[i + 1]);
        }
      }
      PathWithin(cubes, start, p[..n]);
      assert Adjacent(cubes, p[n - 1], p[n - 1 + 1]);
    }
  }

  ghost predicate Connected(cubes: seq<Cube>, from: string, to: string) {
    exists q :: Joins(cubes, q, from, to)
  }

  lemma {:induction false} WithinPath(cubes: seq<Cube>, start: string, v: string, k: nat)
    requires v in Within(cubes, start, k)
    ensures Connected(cubes, start, v)
    decreases k
  {
    hide Adjacent;
    if k == 0 {
      assert Joins(cubes, [start], start, v);
    } else if v in Within(cubes, start, k - 1) {
      WithinPath(cubes, start, v, k - 1);
    } else {
      var u :| u in Within(cubes, start, k - 1) && Adjacent(cubes, u, v);
      WithinPath(cubes, start, u, k - 1);
      var q :| Joins(cubes, q, start, u);
      assert Joins(cubes, q + [v], start, v);
    }
  }

  // -------------------------------------------------------------- the join graph

  type Graph = map<string, seq<string>>

  /** The dictionary lists every neighbour of every cube. */
  ghost predicate Represents(g: Graph, cubes: seq<Cube>) {
    g.Keys == Names(cubes) && forall u, v | u in g :: v in g[u] <==> Adjacent(cubes, u, v)
  }

  /** The edges found in some of the cubes and, of one more cube, some of its joins. */
  ghost predicate Partly(g: Graph, cubes: seq<Cube>, i: nat, j: nat)
    requires i < |cubes| && j <= |cubes[i].joins|
  {
    g.Keys == Names(cubes) && forall u, v | u in g :: v in g[u] <==> Found(cubes, i, j, u, v)
  }

  ghost predicate Found(cubes: seq<Cube>, i: nat, j: nat, u: string, v: string)
    requires i < |cubes| && j <= |cubes[i].joins|
  {
    v in Names(cubes) && u in Names(cubes) &&
    ((exists c | c in cubes[..i] :: (c.name == u && v in c.joins) || (c.name == v && u in c.joins)) ||
     (cubes[i].name == u && v in cubes[i].joins[..j]) || (cubes[i].name == v && u in cubes[i].joins[..j]))
  }

  function Link(g: Graph, u: string, v: string): Graph
    requires u in g && v in g
  {
    var once := g[u := g[u] + [v]];
    once[v := once[v] + [u]]
  }

  lemma LinkFinds(g: Graph, cubes: seq<Cube>, i: nat, j: nat)
    requires i < |cubes| && j < |cubes[i].joins| && Partly(g, cubes, i, j)
    ensures cubes[i].name in g
    ensures cubes[i].joins[j] in g ==> Partly(Link(g, cubes[i].name, cubes[i].joins[j]), cubes, i, j + 1)
    ensures cubes[i].joins[j] !in g ==> Partly(g, cubes, i, j + 1)
  {
    var c := cubes[i];
    assert c in cubes;
    assert forall x :: x in c.joins[..j + 1] <==> x in c.joins[..j] || x == c.joins[j];
    forall u, v | u in g ensures Found(cubes, i, j + 1, u, v) <==>
                                 Found(cubes, i, j, u, v) ||
                                 (c.joins[j] in g && ((u == c.name && v == c.joins[j]) || (v == c.name && u == c.joins[j]))) {
    }
  }

  lemma CubeDone(g: Graph, cubes: seq<Cube>, i: nat)
    requires i < |cubes| && Partly(g, cubes, i, |cubes[i].joins|)
    ensures i + 1 < |cubes| ==> Partly(g, cubes, i + 1, 0)
    ensures i + 1 == |cubes| ==> Represents(g, cubes)
  {
    assert cubes[i].joins[..|cubes[i].joins|] == cubes[i].joins;
    assert cubes[..i + 1] == cubes[..i] + [cubes[i]];
    if i + 1 == |cubes| {
      assert cubes[..i + 1] == cubes;
    }
  }

  method BuildGraph(cubes: seq<Cube>) returns (g: Graph)
    ensures Represents(g, cubes)
  {
    hide Found;
    g := map name | name in Names(cubes) :: [];
    if cubes == [] {
      return;
    }
    assert Partly(g, cubes, 0, 0) by { NothingFound(cubes); }
    for i := 0 to |cubes|
      invariant i < |cubes| ==> Partly(g, cubes, i, 0)
      invariant i == |cubes| ==> Represents(g, cubes)
    {
      for j := 0 to |cubes[i].joins|
        invariant Partly(g, cubes, i, j)
      {
        LinkFinds(g, cubes, i, j);
        if cubes[i].joins[j] in g {
          g := Link(g, cubes[i].name, cubes[i].joins[j]);
        }
      }
      CubeDone(g, cubes, i);
    }
  }

  lemma NothingFound(cubes: seq<Cube>)
    requires cubes != []
    ensures forall u, v :: !Found(cubes, 0, 0, u, v)
  {
  }

  // ------------------------------------------------------- breadth-first search

  /** Parent links lead towards the start, and recorded distances are exact. */
  ghost predicate Tree(cubes: seq<Cube>, start: string, previous: map<string, Option<string>>, dist: map<string, nat>) {
    Links(cubes, start, previous, dist) && AllExact(cubes, start, dist)
  }

  ghost predicate Links(cubes: seq<Cube>, start: string, previous: map<string, Option<string>>, dist: map<string, nat>) {
    && previous.Keys == dist.Keys && start in dist && dist[start] == 0 && previous[start] == None
    && forall v | v in dist && v != start ::
          previous[v].Some? && previous[v].value in dist && dist[v] == dist[previous[v].value] + 1 && Adjacent(cubes, previous[v].value, v)
  }

  ghost predicate AllExact(cubes: seq<Cube>, start: string, dist: map<string, nat>) {
    forall v | v in dist :: Exactly(cubes, start, v, dist[v])
  }

  ghost predicate Exactly(cubes: seq<Cube>, start: string, v: string, d: nat) {
    v in Within(cubes, start, d) && (d > 0 ==> v !in Within(cubes, start, d - 1))
  }

  /** The queue holds discovered cubes of one distance, then of the next. */
  predicate Layered(dist: map<string, nat>, queue: seq<string>, d: nat) {
    && (forall i | 0 <= i < |queue| :: queue[i] in dist && d <= dist[queue[i]] <= d + 1)
    && forall i, j | 0 <= i < j < |queue| :: dist[queue[i]] <= dist[queue[j]]
  }

  /** Every discovered cube that is not waiting has all its neighbours discovered. */
  ghost predicate Explored(cubes: seq<Cube>, dist: map<string, nat>, waiting: set<string>) {
    forall u, v | u in dist && u !in waiting && Adjacent(cubes, u, v) :: v in dist && dist[v] <= dist[u] + 1
  }

  /** Everything within a distance is discovered. */
  ghost predicate Covers(cubes: seq<Cube>, start: string, dist: map<string, nat>, d: nat) {
    forall v | v in Within(cubes, start, d) :: v in dist && dist[v] <= d
  }

  predicate Extends(a: map<string, nat>, b: map<string, nat>) {
    forall v | v in a :: v in b && b[v] == a[v]
  }

  /** The neighbours of one cube, some already looked at. */
  ghost predicate Expanding(cubes: seq<Cube>, dist: map<string, nat>, u: string, seen: seq<string>) {
    u in dist && forall v | v in seen :: v in dist && dist[v] <= dist[u] + 1
  }

  lemma WithinNext(cubes: seq<Cube>, start: string, u: string, v: string, d: nat)
    requires u in Within(cubes, start, d) && Adjacent(cubes, u, v)
    ensures v in Within(cubes, start, d + 1)
  {
    hide Adjacent;
    AdjacentNamed(cubes, u, v);
  }

  lemma ExactlyAt(cubes: seq<Cube>, start: string, previous: map<string, Option<string>>, dist: map<string, nat>, v: string)
    requires Tree(cubes, start, previous, dist) && v in dist
    ensures v in Within(cubes, start, dist[v]) && (dist[v] > 0 ==> v !in Within(cubes, start, dist[v] - 1))
  {
    hide Adjacent, Within;
    assert Exactly(cubes, start, v, dist[v]);
  }

  lemma DiscoverTree(cubes: seq<Cube>, start: string, previous: map<string, Option<string>>, dist: map<string, nat>, u: string, v: string)
    requires Tree(cubes, start, previous, dist) && u in dist && Covers(cubes, start, dist, dist[u])
    requires v !in dist && Adjacent(cubes, u, v)
    ensures Tree(cubes, start, previous[v := Some(u)], dist[v := dist[u] + 1])
  {
    hide Adjacent, Links, AllExact, Covers, Within;
    ExactlyAt(cubes, start, previous, dist, u);
    WithinNext(cubes, start, u, v, dist[u]);
    CoversNot(cubes, start, dist, dist[u], v);
    DiscoverLinks(cubes, start, previous, dist, u, v);
    DiscoverExact(cubes, start, dist, v, dist[u] + 1);
  }

  lemma CoversNot(cubes: seq<Cube>, start: string, dist: map<string, nat>, d: nat, v: string)
    requires Covers(cubes, start, dist, d) && v !in dist
    ensures v !in Within(cubes, start, d)
  {
    hide Within;
  }

  lemma DiscoverLinks(cubes: seq<Cube>, start: string, previous: map<string, Option<string>>, dist: map<string, nat>, u: string, v: string)
    requires Links(cubes, start, previous, dist) && u in dist && v !in dist && Adjacent(cubes, u, v)
    ensures Links(cubes, start, previous[v := Some(u)], dist[v := dist[u] + 1])
  {
    hide Adjacent;
  }

  lemma DiscoverExact(cubes: seq<Cube>, start: string, dist: map<string, nat>, v: string, d: nat)
    requires AllExact(cubes, start, dist) && v !in dist && d > 0
    requires v in Within(cubes, start, d) && v !in Within(cubes, start, d - 1)
    ensures AllExact(cubes, start, dist[v := d])
  {
    hide Within;
  }

  lemma AdjacentNamed(cubes: seq<Cube>, u: string, v: string)
    requires Adjacent(cubes, u, v)
    ensures u in Names(cubes) && v in Names(cubes)
  {
  }

  lemma DiscoverKeeps(cubes: seq<Cube>, start: string, dist: map<string, nat>, queue: seq<string>, u: string, v: string, waiting: set<string>)
    requires u in dist && v !in dist && Layered(dist, queue, dist[u])
    requires Covers(cubes, start, dist, dist[u]) && Explored(cubes, dist, waiting)
    ensures var more := dist[v := dist[u] + 1];
            Layered(more, queue + [v], dist[u]) && Covers(cubes, start, more, dist[u]) && Explored(cubes, more, waiting + {v}) &&
            Extends(dist, more)
  {
    hide Adjacent, Within;
  }

  /** Look at every neighbour of a cube just taken from the queue. */
  method Expand(g: Graph, ghost cubes: seq<Cube>, ghost start: string, u: string,
                previous0: map<string, Option<string>>, queue0: seq<string>, ghost dist0: map<string, nat>)
    returns (previous: map<string, Option<string>>, queue: seq<string>, ghost dist: map<string, nat>)
    requires Represents(g, cubes) && u in g && u in dist0
    requires Tree(cubes, start, previous0, dist0) && Layered(dist0, queue0, dist0[u]) && Covers(cubes, start, dist0, dist0[u])
    requires Explored(cubes, dist0, {u} + set x | x in queue0)
    ensures Tree(cubes, start, previous, dist) && Layered(dist, queue, dist0[u]) && Covers(cubes, start, dist, dist0[u])
    ensures Explored(cubes, dist, set x | x in queue)
    ensures Extends(dist0, dist) && |queue| >= |queue0| && queue[..|queue0|] == queue0
    ensures |queue| > |queue0| ==> dist0.Keys < dist.Keys
    ensures dist.Keys - dist0.Keys <= Names(cubes)
  {
    hide Tree, Layered, Covers, Explored, Extends, Represents, Adjacent, Within;
    previous, queue, dist := previous0, queue0, dist0;
    ghost var waiting := {u} + set x | x in queue0;
    assert Extends(dist0, dist) by { ExtendsSelf(dist0); }
    TreeKeys(cubes, start, previous, dist);
    for j := 0 to |g[u]|
      invariant u in dist && dist[u] == dist0[u] && previous.Keys == dist.Keys
      invariant Tree(cubes, start, previous, dist) && Layered(dist, queue, dist0[u]) && Covers(cubes, start, dist, dist0[u])
      invariant waiting == {u} + (set x | x in queue) && Explored(cubes, dist, waiting)
      invariant Expanding(cubes, dist, u, g[u][..j])
      invariant Extends(dist0, dist) && |queue| >= |queue0| && queue[..|queue0|] == queue0
      invariant |queue| > |queue0| ==> dist0.Keys < dist.Keys
      invariant dist0.Keys <= dist.Keys && dist.Keys - dist0.Keys <= Names(cubes)
    {
      var v := g[u][j];
      NeighbourOf(g, cubes, u, v);
      assert g[u][..j + 1] == g[u][..j] + [v];
      if v !in previous {
        DiscoverTree(cubes, start, previous, dist, u, v);
        DiscoverKeeps(cubes, start, dist, queue, u, v, waiting);
        ExtendsTwice(dist0, dist, dist[v := dist[u] + 1]);
        previous := previous[v := Some(u)];
        dist := dist[v := dist[u] + 1];
        queue := queue + [v];
        waiting := waiting + {v};
      } else {
        KnownDistance(cubes, start, previous, dist, u, v);
      }
    }
    assert g[u][..|g[u]|] == g[u];
    Finished(g, cubes, dist, u, queue);
  }

  lemma ExtendsSelf(a: map<string, nat>)
    ensures Extends(a, a)
  {
  }

  lemma ExtendsTwice(a: map<string, nat>, b: map<string, nat>, c: map<string, nat>)
    requires Extends(a, b) && Extends(b, c)
    ensures Extends(a, c)
  {
  }

  lemma TreeKeys(cubes: seq<Cube>, start: string, previous: map<string, Option<string>>, dist: map<string, nat>)
    requires Tree(cubes, start, previous, dist)
    ensures previous.Keys == dist.Keys
  {
  }

  lemma NeighbourOf(g: Graph, cubes: seq<Cube>, u: string, v: string)
    requires Represents(g, cubes) && u in g && v in g[u]
    ensures Adjacent(cubes, u, v) && v in Names(cubes)
  {
  }

  /** A neighbour already discovered is at most one step further. */
  lemma KnownDistance(cubes: seq<Cube>, start: string, previous: map<string, Option<string>>, dist: map<string, nat>, u: string, v: string)
    requires Tree(cubes, start, previous, dist) && u in dist && v in dist && Adjacent(cubes, u, v)
    ensures dist[v] <= dist[u] + 1
  {
    hide Adjacent, Within, Tree;
    ExactlyAt(cubes, start, previous, dist, u);
    ExactlyAt(cubes, start, previous, dist, v);
    WithinNext(cubes, start, u, v, dist[u]);
    if dist[v] > dist[u] + 1 {
      WithinGrows(cubes, start, dist[u] + 1, dist[v] - 1);
    }
  }

  lemma {:induction false} WithinGrows(cubes: seq<Cube>, start: string, j: nat, k: nat)
    requires j <= k
    ensures Within(cubes, start, j) <= Within(cubes, start, k)
    decreases k
  {
    hide Adjacent;
    if j < k {
      WithinGrows(cubes, start, j, k - 1);
    }
  }

  lemma Finished(g: Graph, cubes: seq<Cube>, dist: map<string, nat>, u: string, queue: seq<string>)
    requires Represents(g, cubes) && u in g && Expanding(cubes, dist, u, g[u])
    requires Explored(cubes, dist, {u} + set x | x in queue)
    ensures Explored(cubes, dist, set x | x in queue)
  {
    hide Adjacent;
  }

  /** When nothing at a distance is left waiting, the next distance is covered. */
  lemma NextLayer(cubes: seq<Cube>, start: string, dist: map<string, nat>, queue: seq<string>, d: nat)
    requires Covers(cubes, start, dist, d) && Explored(cubes, dist, set x | x in queue)
    requires forall i | 0 <= i < |queue| :: queue[i] in dist && dist[queue[i]] == d + 1
    ensures Covers(cubes, start, dist, d + 1)
  {
    hide Adjacent;
    forall v | v in Within(cubes, start, d + 1) ensures v in dist && dist[v] <= d + 1 {
      if v !in Within(cubes, start, d) {
        var u :| u in Within(cubes, start, d) && Adjacent(cubes, u, v);
        assert u in dist && dist[u] <= d;
        assert u !in queue;
      }
    }
  }

  /** With nothing waiting, everything reachable is discovered. */
  lemma {:induction false} AllCovered(cubes: seq<Cube>, start: string, dist: map<string, nat>, k: nat)
    requires start in dist && Explored(cubes, dist, {})
    ensures forall v | v in Within(cubes, start, k) :: v in dist
  {
    hide Adjacent;
    if k > 0 {
      AllCovered(cubes, start, dist, k - 1);
    }
  }

  ghost predicate Searching(cubes: seq<Cube>, start: string, previous: map<string, Option<string>>, queue: seq<string>, dist: map<string, nat>) {
    && Tree(cubes, start, previous, dist) && Explored(cubes, dist, set x | x in queue)
    && (queue != [] ==> queue[0] in dist && Layered(dist, queue, dist[queue[0]]) && Covers(cubes, start, dist, dist[queue[0]]))
  }

  lemma SearchStarts(cubes: seq<Cube>, start: string)
    ensures Searching(cubes, start, map[start := None], [start], map[start := 0])
  {
    hide Adjacent;
    assert Within(cubes, start, 0) == {start};
  }

  /** After one expansion the search is at the same distance, at the next, or done. */
  lemma SearchGoesOn(cubes: seq<Cube>, start: string, previous: map<string, Option<string>>, queue: seq<string>, dist: map<string, nat>, d: nat)
    requires Tree(cubes, start, previous, dist) && Layered(dist, queue, d) && Covers(cubes, start, dist, d)
    requires Explored(cubes, dist, set x | x in queue)
    ensures Searching(cubes, start, previous, queue, dist)
  {
    hide Tree, Covers, Explored;
    if queue != [] && dist[queue[0]] == d + 1 {
      NextLayer(cubes, start, dist, queue, d);
    }
  }

  lemma SearchPops(cubes: seq<Cube>, start: string, previous: map<string, Option<string>>, queue: seq<string>, dist: map<string, nat>)
    requires Searching(cubes, start, previous, queue, dist) && queue != []
    ensures queue[0] in dist && Tree(cubes, start, previous, dist)
    ensures Layered(dist, queue[1..], dist[queue[0]]) && Covers(cubes, start, dist, dist[queue[0]])
    ensures Explored(cubes, dist, {queue[0]} + set x | x in queue[1..])
  {
    hide Tree, Covers, Adjacent;
    assert forall x :: x in queue <==> x == queue[0] || x in queue[1..];
  }

  /** Search from the start until the target is discovered or nothing is left. */
  method Search(g: Graph, ghost cubes: seq<Cube>, start: string, target: string)
    returns (previous: map<string, Option<string>>, ghost dist: map<string, nat>)
    requires Represents(g, cubes) && start in g
    ensures Tree(cubes, start, previous, dist)
    ensures target in previous <==> Connected(cubes, start, target)
  {
    hide Tree, Layered, Covers, Explored, Extends, Adjacent, Within, Searching, Connected;
    var queue := [start];
    previous := map[start := None];
    dist := map[start := 0];
    SearchStarts(cubes, start);
    NamesOfGraph(g, cubes);
    while queue != [] && target !in previous
      invariant Searching(cubes, start, previous, queue, dist)
      invariant dist.Keys <= Names(cubes)
      decreases Names(cubes) - dist.Keys, |queue|
    {
      var u := queue[0];
      SearchPops(cubes, start, previous, queue, dist);
      ghost var before := dist;
      previous, queue, dist := Expand(g, cubes, start, u, previous, queue[1..], dist);
      SearchGoesOn(cubes, start, previous, queue, dist, before[u]);
      ExtendsKeys(before, dist);
    }
    SearchEnds(cubes, start, previous, queue, dist);
    if target in previous {
      Reached(cubes, start, previous, dist, target);
    } else {
      Unreached(cubes, start, previous, dist, target);
    }
  }

  /** A discovered cube is connected to the start. */
  lemma Reached(cubes: seq<Cube>, start: string, previous: map<string, Option<string>>, dist: map<string, nat>, target: string)
    requires Tree(cubes, start, previous, dist) && target in previous
    ensures Connected(cubes, start, target)
  {
    hide Within, Connected;
    assert Exactly(cubes, start, target, dist[target]);
    WithinPath(cubes, start, target, dist[target]);
  }

  lemma NamesOfGraph(g: Graph, cubes: seq<Cube>)
    requires Represents(g, cubes)
    ensures g.Keys == Names(cubes)
  {
  }

  lemma ExtendsKeys(a: map<string, nat>, b: map<string, nat>)
    requires Extends(a, b)
    ensures a.Keys <= b.Keys
  {
  }

  lemma SearchEnds(cubes: seq<Cube>, start: string, previous: map<string, Option<string>>, queue: seq<string>, dist: map<string, nat>)
    requires Searching(cubes, start, previous, queue, dist)
    ensures Tree(cubes, start, previous, dist)
    ensures queue == [] ==> Explored(cubes, dist, {})
  {
    hide Tree, Covers, Adjacent;
    if queue == [] {
      assert (set x | x in queue) == {};
    }
  }

  // ----------------------------------------------------------------- the closure

  function Reversed<T>(s: seq<T>): (r: seq<T>)
    ensures |r| == |s| && forall i | 0 <= i < |s| :: r[i] == s[|s| - 1 - i]
  {
    seq(|s|, i requires 0 <= i < |s| => s[|s| - 1 - i])
  }

  lemma PathCons(cubes: seq<Cube>, u: string, p: seq<string>)
    requires IsPath(cubes, p) && Adjacent(cubes, u, p[0])
    ensures IsPath(cubes, [u] + p)
  {
    hide Adjacent;
    var q := [u] + p;
    forall i | 0 <= i < |q| - 1 ensures Adjacent(cubes, q[i], q[i + 1]) {
      if i > 0 {
        assert Adjacent(cubes, p[i - 1], p[i - 1 + 1]);
      }
    }
  }

  /** Following parent links from a discovered target ends at the start, by a shortest path. */
  method TracePath(ghost cubes: seq<Cube>, ghost start: string, previous: map<string, Option<string>>, target: string, ghost dist: map<string, nat>)
    returns (path: seq<string>)
    requires Tree(cubes, start, previous, dist) && target in previous
    ensures Shortest(cubes, Reversed(path), start, target)
  {
    hide Adjacent, Within, Exactly;
    path := [];
    var node := Some(target);
    ghost var forward: seq<string> := [];
    while node.Some?
      invariant forward == Reversed(path)
      invariant node.Some? ==> node.value in dist && |forward| + dist[node.value] == dist[target]
      invariant node.Some? && forward != [] ==> Adjacent(cubes, node.value, forward[0])
      invariant node.None? ==> forward != [] && forward[0] == start && |forward| == dist[target] + 1
      invariant forward != [] ==> IsPath(cubes, forward) && forward[|forward| - 1] == target
      invariant forward == [] ==> node == Some(target)
      decreases if node.Some? then dist[node.value] + 1 else 0
    {
      if forward != [] {
        PathCons(cubes, node.value, forward);
      }
      path := path + [node.value];
      forward := [node.value] + forward;
      node := previous[node.value];
    }
    NoShorter(cubes, start, previous, dist, target, forward);
  }

  lemma NoShorter(cubes: seq<Cube>, start: string, previous: map<string, Option<string>>, dist: map<string, nat>, target: string, p: seq<string>)
    requires Tree(cubes, start, previous, dist) && target in dist && Joins(cubes, p, start, target) && |p| == dist[target] + 1
    ensures Shortest(cubes, p, start, target)
  {
    hide Adjacent, Within, IsPath;
    assert Exactly(cubes, start, target, dist[target]);
    forall q | Joins(cubes, q, start, target) ensures |p| <= |q| {
      assert |q| > 0 by { PathNonEmpty(cubes, q); }
      PathWithin(cubes, start, q);
      if |q| < |p| {
        WithinGrows(cubes, start, |q| - 1, dist[target] - 1);
      }
    }
  }

  lemma PathNonEmpty(cubes: seq<Cube>, q: seq<string>)
    requires IsPath(cubes, q)
    ensures |q| > 0
  {
  }

  /** A target that was never discovered has no path from the start. */
  lemma Unreached(cubes: seq<Cube>, start: string, previous: map<string, Option<string>>, dist: map<string, nat>, target: string)
    requires Tree(cubes, start, previous, dist) && Explored(cubes, dist, {}) && target !in previous
    ensures !Connected(cubes, start, target)
  {
    hide Adjacent, Within, Exactly, Explored, IsPath;
    forall q | Joins(cubes, q, start, target) ensures false {
      assert |q| > 0 by { PathNonEmpty(cubes, q); }
      PathWithin(cubes, start, q);
      AllCovered(cubes, start, dist, |q| - 1);
    }
  }

  /** Names are appended once, in path order. */
  function Include(included: seq<string>, path: seq<string>): seq<string> {
    if path == [] then included else
      var n := |path| - 1;
      var before := Include(included, path[..n]);
      if path[n] in before then before else before + [path[n]]
  }

  method IncludePath(included0: seq<string>, path: seq<string>) returns (included: seq<string>)
    ensures included == Include(included0, path)
  {
    included := included0;
    for i := 0 to |path|
      invariant included == Include(included0, path[..i])
    {
      assert path[..i + 1][..i] == path[..i];
      if path[i] !in included {
        included := included + [path[i]];
      }
    }
    assert path[..|path|] == path;
  }

  function IncludeAll(included: seq<string>, paths: seq<Option<seq<string>>>): seq<string> {
    if paths == [] then included else
      var n := |paths| - 1;
      var before := IncludeAll(included, paths[..n]);
      match paths[n] case None => before case Some(p) => Include(before, p)
  }

  /** A shortest path when the two are connected at all. */
  ghost predicate BestPath(cubes: seq<Cube>, path: Option<seq<string>>, from: string, to: string) {
    match path
    case Some(p) => Shortest(cubes, p, from, to)
    case None => !Connected(cubes, from, to)
  }

  /** The selection, then the cubes on one shortest path to each reachable selected cube. */
  method Close(selected: seq<string>, cubes: seq<Cube>)
    returns (r: Result<seq<string>, string>, ghost paths: seq<Option<seq<string>>>)
    ensures var first := Dedup(selected);
            r.Ok? <==> |first| < 2 || first[0] in Names(cubes)
    ensures r.Ok? ==> r.value == IncludeAll(Dedup(selected), paths)
    ensures r.Ok? && |Dedup(selected)| < 2 ==> paths == []
    ensures r.Ok? && |Dedup(selected)| >= 2 ==>
              |paths| == |Dedup(selected)| - 1 &&
              forall i | 0 <= i < |paths| :: BestPath(cubes, paths[i], Dedup(selected)[0], Dedup(selected)[i + 1])
  {
    hide Represents, Adjacent, Tree, BestPath, Shortest, Joins, Connected;
    DedupIs(selected);
    var included := Dedup(selected);
    paths := [];
    if |included| < 2 {
      return Ok(included), [];
    }
    var targets := included;
    var start := included[0];
    var g := BuildGraph(cubes);
    NamesOfGraph(g, cubes);
    if start !in g {
      return Err(start), [];
    }
    for i := 1 to |targets|
      invariant |paths| == i - 1 && included == IncludeAll(targets, paths)
      invariant forall k | 0 <= k < |paths| :: BestPath(cubes, paths[k], start, targets[k + 1])
    {
      var previous;
      ghost var dist;
      previous, dist := Search(g, cubes, start, targets[i]);
      ghost var found: Option<seq<string>> := None;
      if targets[i] in previous {
        var path := TracePath(cubes, start, previous, targets[i], dist);
        included := IncludePath(included, Reversed(path));
        found := Some(Reversed(path));
        assert BestPath(cubes, found, start, targets[i]) by { Best(cubes, Reversed(path), start, targets[i]); }
      } else {
        assert BestPath(cubes, found, start, targets[i]) by { NoPath(cubes, start, targets[i]); }
      }
      assert (paths + [found])[..|paths|] == paths;
      paths := paths + [found];
    }
    return Ok(included), paths;
  }

  lemma Best(cubes: seq<Cube>, p: seq<string>, from: string, to: string)
    requires Shortest(cubes, p, from, to)
    ensures BestPath(cubes, Some(p), from, to)
  {
  }

  lemma NoPath(cubes: seq<Cube>, from: string, to: string)
    requires !Connected(cubes, from, to)
    ensures BestPath(cubes, None, from, to)
  {
  }

  // --------------------------------------------------------- what the result is

  lemma {:induction false} IncludeKeeps(included: seq<string>, path: seq<string>)
    requires Distinct(included)
    ensures var r := Include(included, path);
            Distinct(r) && included <= r && forall x :: x in r <==> x in included || x in path
  {
    if path != [] {
      IncludeKeeps(included, path[..|path| - 1]);
      assert path == path[..|path| - 1] + [path[|path| - 1]];
    }
  }

  lemma {:induction false} IncludeAllKeeps(included: seq<string>, paths: seq<Option<seq<string>>>)
    requires Distinct(included)
    ensures var r := IncludeAll(included, paths);
            Distinct(r) && included <= r &&
            forall x :: x in r <==> x in included || exists i :: 0 <= i < |paths| && paths[i].Some? && x in paths[i].value
  {
    if paths != [] {
      var n := |paths| - 1;
      IncludeAllKeeps(included, paths[..n]);
      if paths[n].Some? {
        IncludeKeeps(IncludeAll(included, paths[..n]), paths[n].value);
      }
    }
  }

  /** A path between two cubes that stays inside the result. */
  ghost predicate ConnectedInside(cubes: seq<Cube>, inside: seq<string>, from: string, to: string) {
    exists p :: Joins(cubes, p, from, to) && forall x | x in p :: x in inside
  }

  /**
    The closure is duplicate-free, starts with the selection, connects every
    reachable selected cube to the first inside itself, and adds nothing that
    is not on one of the shortest paths.
  */
  lemma ClosureConnects(selected: seq<string>, cubes: seq<Cube>, paths: seq<Option<seq<string>>>)
    requires |Dedup(selected)| >= 2 && |paths| == |Dedup(selected)| - 1
    requires forall i | 0 <= i < |paths| :: BestPath(cubes, paths[i], Dedup(selected)[0], Dedup(selected)[i + 1])
    ensures var first, r := Dedup(selected), IncludeAll(Dedup(selected), paths);
            Distinct(r) && first <= r &&
            (forall to | to in selected && to != first[0] ::
               (exists q :: Joins(cubes, q, first[0], to)) ==> ConnectedInside(cubes, r, first[0], to)) &&
            (forall x | x in r && x !in selected ::
               exists i :: 0 <= i < |paths| && paths[i].Some? && x in paths[i].value && Shortest(cubes, paths[i].value, first[0], first[i + 1]))
  {
    hide IsPath, Dedup, Include;
    var first, r := Dedup(selected), IncludeAll(Dedup(selected), paths);
    DedupIs(selected);
    IncludeAllKeeps(first, paths);
    forall to | to in selected && to != first[0] && exists q :: Joins(cubes, q, first[0], to)
      ensures ConnectedInside(cubes, r, first[0], to)
    {
      var k :| 0 <= k < |first| && first[k] == to;
      assert BestPath(cubes, paths[k - 1], first[0], first[k - 1 + 1]);
    }
    forall x | x in r && x !in selected
      ensures exists i :: 0 <= i < |paths| && paths[i].Some? && x in paths[i].value && Shortest(cubes, paths[i].value, first[0], first[i + 1])
    {
      var i :| 0 <= i < |paths| && paths[i].Some? && x in paths[i].value;
      assert BestPath(cubes, paths[i], first[0], first[i + 1]);
    }
  }
}
