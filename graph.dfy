/**
 * The screen graph of the navigator (internal/fsm/fsm.go): the transition
 * table, the merge of extra tables into it, its adjacency lists, the
 * fewest-hops path finder and the expansion of a path into steps.
 *
 * Go iterates maps in no fixed order; every loop over a map here picks the
 * next key arbitrarily, so each contract holds whatever order is taken.
 */
module Fsm {
  import opened Wrappers
  import opened Screens

  datatype Swipe = Swipe(x1: int, y1: int, x2: int, y2: int, direction: string, delta: int)

  /** One step of a transition: the region to click, a swipe, the pause after it in milliseconds, a guard expression. */
  datatype TransitionStep = Step(click: string, swipe: Option<Swipe>, wait: int, trigger: string)

  /** from -> to -> the steps that lead from one screen to the other. */
  type Table = map<Screen, map<Screen, seq<TransitionStep>>>

  /** from -> the screens reachable in one hop. */
  type Graph = map<Screen, seq<Screen>>

  /** The largest Go `int`, the path finder's "unreached" distance. */
  const Inf := 0x7fff_ffff_ffff_ffff

  predicate Edge(t: Table, a: Screen, b: Screen) {
    a in t && b in t[a]
  }

  /** The screens the path finder knows: every source with a target and every target. */
  ghost function Nodes(t: Table): set<Screen> {
    (set a | a in t && t[a] != map[]) + (set a, b | a in t && b in t[a] :: b)
  }

  lemma EdgeEnds(t: Table, a: Screen, b: Screen)
    requires Edge(t, a, b)
    ensures a in Nodes(t) && b in Nodes(t)
  {
    assert b in t[a];
  }

  /** Both ends of every edge are among `nodes`. */
  ghost predicate EdgesWithin(t: Table, nodes: set<Screen>) {
    forall a, b :: Edge(t, a, b) ==> a in nodes && b in nodes
  }

  lemma EdgesWithinNodes(t: Table)
    ensures EdgesWithin(t, Nodes(t))
  {
    forall a, b | Edge(t, a, b)
      ensures a in Nodes(t) && b in Nodes(t)
    {
      EdgeEnds(t, a, b);
    }
  }

  // ---------------------------------------------------------------- merging

  /** `r` is `dst` after every (from, to) entry of `src` has been written into it. */
  ghost predicate MergeOf(dst: Table, src: Table, r: Table) {
    (forall a :: a in r <==> a in dst || a in src) &&
    (forall a, b :: a in r ==> (b in r[a] <==> Edge(dst, a, b) || Edge(src, a, b))) &&
    (forall a, b :: Edge(src, a, b) ==> a in r && b in r[a] && r[a][b] == src[a][b]) &&
    (forall a, b :: Edge(dst, a, b) && !Edge(src, a, b) ==> a in r && b in r[a] && r[a][b] == dst[a][b])
  }

  /** The inner loop of mergeTransitions: every target of `add` written into `targets`. */
  method WriteTargets(targets: map<Screen, seq<TransitionStep>>, add: map<Screen, seq<TransitionStep>>)
    returns (r: map<Screen, seq<TransitionStep>>)
    ensures forall b :: b in r <==> b in targets || b in add
    ensures forall b :: b in add ==> r[b] == add[b]
    ensures forall b :: b in targets && b !in add ==> r[b] == targets[b]
  {
    r := targets;
    var tos := add.Keys;
    while tos != {}
      invariant tos <= add.Keys
      invariant forall b :: b in r <==> b in targets || (b in add && b !in tos)
      invariant forall b :: b in add && b !in tos ==> r[b] == add[b]
      invariant forall b :: b in targets && !(b in add && b !in tos) ==> r[b] == targets[b]
      decreases tos
    {
      var to :| to in tos;
      r := r[to := add[to]];
      tos := tos - {to};
    }
  }

  /** Row `a` of `r` is row `a` of `dst` with row `a` of `src` written over it. */
  ghost predicate RowMerged(dst: Table, src: Table, r: Table, a: Screen)
    requires a in src
  {
    a in r &&
    (forall b :: b in r[a] <==> Edge(dst, a, b) || b in src[a]) &&
    (forall b :: b in src[a] ==> r[a][b] == src[a][b]) &&
    (forall b :: Edge(dst, a, b) && b !in src[a] ==> r[a][b] == dst[a][b])
  }

  lemma RowsMerged(dst: Table, src: Table, r: Table)
    requires forall a :: a in r <==> a in dst || a in src
    requires forall a :: a in r && a !in src ==> r[a] == dst[a]
    requires forall a :: a in src ==> RowMerged(dst, src, r, a)
    ensures MergeOf(dst, src, r)
  {
  }

  /** mergeTransitions: src's entries overwrite dst's, every other entry of dst stays. */
  method MergeTransitions(dst: Table, src: Table) returns (r: Table)
    ensures MergeOf(dst, src, r)
  {
    r := dst;
    var froms := src.Keys;
    while froms != {}
      invariant froms <= src.Keys
      invariant forall a :: a in r <==> a in dst || (a in src && a !in froms)
      invariant forall a :: a in r && (a !in src || a in froms) ==> r[a] == dst[a]
      invariant forall a :: a in src && a !in froms ==> RowMerged(dst, src, r, a)
      decreases froms
    {
      var from :| from in froms;
      var targets := if from in r then r[from] else map[];
      targets := WriteTargets(targets, src[from]);
      r := r[from := targets];
      froms := froms - {from};
    }
    RowsMerged(dst, src, r);
  }

  /** Merging keeps every edge of both tables and adds no other. */
  lemma MergeEdges(dst: Table, src: Table, r: Table, a: Screen, b: Screen)
    requires MergeOf(dst, src, r)
    ensures Edge(r, a, b) <==> Edge(dst, a, b) || Edge(src, a, b)
  {
  }

  // ---------------------------------------------------------------- the graph

  /** `g` lists, for each source with at least one target, exactly the targets of the table. */
  ghost predicate GraphOf(g: Graph, t: Table) {
    (forall a :: a in g <==> a in t && t[a] != map[]) &&
    (forall a, b :: a in g ==> (b in g[a] <==> b in t[a]))
  }

  /** `fsmGraph[u]`, reading a missing key as the empty list. */
  function Neighbors(g: Graph, u: Screen): seq<Screen> {
    if u in g then g[u] else []
  }

  lemma NeighborsAreEdges(g: Graph, t: Table, u: Screen, v: Screen)
    requires GraphOf(g, t)
    ensures v in Neighbors(g, u) <==> Edge(t, u, v)
  {
    if u !in g && u in t {
      assert t[u] == map[];
    }
  }

  /**
   * buildFSMGraph: one list per source, holding each target of the table
   * once, including targets whose step list is empty.
   */
  method BuildFSMGraph(t: Table) returns (g: Graph)
    ensures GraphOf(g, t)
    ensures forall a :: a in g ==> forall i, j :: 0 <= i < j < |g[a]| ==> g[a][i] != g[a][j]
  {
    g := map[];
    var froms := t.Keys;
    while froms != {}
      invariant froms <= t.Keys
      invariant forall a :: a in g <==> a in t && a !in froms && t[a] != map[]
      invariant forall a, b :: a in g ==> (b in g[a] <==> b in t[a])
      invariant forall a :: a in g ==> forall i, j :: 0 <= i < j < |g[a]| ==> g[a][i] != g[a][j]
      decreases froms
    {
      var from :| from in froms;
      froms := froms - {from};
      var tos := t[from].Keys;
      while tos != {}
        invariant tos <= t[from].Keys
        invariant forall a :: a != from ==> (a in g <==> a in t && a !in froms && t[a] != map[])
        invariant from in g <==> tos != t[from].Keys
        invariant forall a, b :: a in g && a != from ==> (b in g[a] <==> b in t[a])
        invariant from in g ==> forall b :: b in g[from] <==> b in t[from] && b !in tos
        invariant forall a :: a in g ==> forall i, j :: 0 <= i < j < |g[a]| ==> g[a][i] != g[a][j]
        decreases tos
      {
        var to :| to in tos;
        tos := tos - {to};
        g := g[from := Neighbors(g, from) + [to]];
      }
      if t[from] != map[] {
        ghost var b :| b in t[from];
      }
    }
  }

  /** `n` is a key of the graph among `keys`, or a neighbour of one. */
  ghost predicate NodeAmong(g: Graph, keys: set<Screen>, n: Screen) {
    (n in keys && n in g) || exists a :: a in keys && a in g && n in g[a]
  }

  /** The node set of FindPath: every key of the graph and every neighbour. */
  method CollectNodes(t: Table, g: Graph) returns (nodes: set<Screen>)
    requires GraphOf(g, t)
    ensures nodes == Nodes(t)
  {
    nodes := {};
    ghost var done: set<Screen> := {};
    var todo := g.Keys;
    while todo != {}
      invariant todo <= g.Keys && done == g.Keys - todo
      invariant forall n :: n in nodes <==> NodeAmong(g, done, n)
      decreases todo
    {
      var state :| state in todo;
      todo := todo - {state};
      nodes := nodes + {state};
      var neighbors := g[state];
      var i := 0;
      while i < |neighbors|
        invariant 0 <= i <= |neighbors|
        invariant forall n :: n in nodes <==> NodeAmong(g, done, n) || n == state || n in neighbors[..i]
      {
        nodes := nodes + {neighbors[i]};
        i := i + 1;
      }
      assert neighbors[..i] == neighbors;
      forall n
        ensures NodeAmong(g, done + {state}, n) <==> NodeAmong(g, done, n) || n == state || n in neighbors
      {
        if NodeAmong(g, done + {state}, n) && !NodeAmong(g, done, n) && n != state {
          var a :| a in done + {state} && a in g && n in g[a];
          assert a == state;
        }
      }
      done := done + {state};
    }
    forall n
      ensures n in nodes <==> n in Nodes(t)
    {
      assert done == g.Keys;
      if n in Nodes(t) && n !in g {
        var a, b :| a in t && b in t[a] && n == b;
        assert NodeAmong(g, done, n) by {
          assert a in g && n in g[a];
        }
      }
      if NodeAmong(g, done, n) && n !in g {
        var a :| a in done && a in g && n in g[a];
        assert n in (set a, b | a in t && b in t[a] :: b);
      }
    }
  }

  // ---------------------------------------------------------------- paths

  /** `p` walks from `from` to `to` along table edges; |p| - 1 is its number of hops. */
  predicate IsPath(t: Table, p: seq<Screen>, from: Screen, to: Screen) {
    |p| > 0 && p[0] == from && p[|p| - 1] == to &&
    forall i :: 0 <= i < |p| - 1 ==> Edge(t, p[i], p[i + 1])
  }

  ghost predicate Reachable(t: Table, from: Screen, to: Screen) {
    exists p :: IsPath(t, p, from, to)
  }

  /** cost: 1 for an edge of the table, 2 otherwise. */
  function Cost(t: Table, from: Screen, to: Screen): (c: int)
    ensures c == 1 <==> Edge(t, from, to)
    ensures c == 2 <==> !Edge(t, from, to)
  {
    if from in t && to in t[from] then 1 else 2
  }

  /** Every edge the search relaxes comes from the graph, so it always costs 1. */
  lemma GraphEdgesCostOne(g: Graph, t: Table, u: Screen, v: Screen)
    requires GraphOf(g, t) && v in Neighbors(g, u)
    ensures Cost(t, u, v) == 1
  {
    NeighborsAreEdges(g, t, u, v);
  }

  /** The minimum search of FindPath: "" when no unvisited screen has a finite distance. */
  method SelectMin(unvisited: set<Screen>, dist: map<Screen, int>) returns (u: Screen)
    requires unvisited <= dist.Keys && "" !in unvisited
    ensures u == "" ==> forall n :: n in unvisited ==> dist[n] >= Inf
    ensures u != "" ==> u in unvisited && dist[u] < Inf && forall n :: n in unvisited ==> dist[u] <= dist[n]
  {
    u := "";
    var minDist := Inf;
    var todo := unvisited;
    while todo != {}
      invariant todo <= unvisited
      invariant u == "" ==> minDist == Inf
      invariant u != "" ==> u in unvisited && dist[u] == minDist < Inf
      invariant forall n :: n in unvisited && n !in todo ==> minDist <= dist[n]
      decreases todo
    {
      var node :| node in todo;
      todo := todo - {node};
      if dist[node] < minDist {
        minDist := dist[node];
        u := node;
      }
    }
  }

  /** The relaxation loop of FindPath over the neighbours of the settled screen `u`. */
  method Relax(t: Table, g: Graph, u: Screen, dist: map<Screen, int>, prev: map<Screen, Screen>, unvisited: set<Screen>)
    returns (dist': map<Screen, int>, prev': map<Screen, Screen>)
    requires GraphOf(g, t)
    requires u in dist && u !in unvisited && unvisited <= dist.Keys && prev.Keys <= dist.Keys
    ensures dist'.Keys == dist.Keys && prev'.Keys <= dist.Keys
    ensures forall v :: v in dist ==>
      if v in unvisited && Edge(t, u, v) && dist[u] + 1 < dist[v]
      then dist'[v] == dist[u] + 1 && v in prev' && prev'[v] == u
      else dist'[v] == dist[v] && (v in prev' <==> v in prev) && (v in prev ==> prev'[v] == prev[v])
  {
    dist', prev' := dist, prev;
    var ns := Neighbors(g, u);
    var i := 0;
    while i < |ns|
      invariant 0 <= i <= |ns|
      invariant dist'.Keys == dist.Keys && prev'.Keys <= dist.Keys
      invariant forall v :: v in dist ==>
        if v in unvisited && v in ns[..i] && dist[u] + 1 < dist[v]
        then dist'[v] == dist[u] + 1 && v in prev' && prev'[v] == u
        else dist'[v] == dist[v] && (v in prev' <==> v in prev) && (v in prev ==> prev'[v] == prev[v])
    {
      var v := ns[i];
      assert ns[..i + 1] == ns[..i] + [v];
      if v in unvisited {
        GraphEdgesCostOne(g, t, u, v);
        var alt := dist'[u] + Cost(t, u, v);
        if alt < dist'[v] {
          dist' := dist'[v := alt];
          prev' := prev'[v := u];
        }
      }
      i := i + 1;
    }
    assert ns[..i] == ns;
    forall v | v in dist
      ensures v in ns <==> Edge(t, u, v)
    {
      NeighborsAreEdges(g, t, u, v);
    }
  }

  /**
   * The predecessor links: each one steps back along an edge to a settled
   * screen one hop closer, and every finite distance other than the start has one.
   */
  ghost predicate PrevChain(t: Table, nodes: set<Screen>, from: Screen, dist: map<Screen, int>,
                            prev: map<Screen, Screen>, unvisited: set<Screen>)
  {
    (forall v {:trigger prev[v]} :: v in prev ==>
       v in dist && v != from && dist[v] < Inf && prev[v] in nodes && prev[v] !in unvisited &&
       prev[v] in dist && Edge(t, prev[v], v) && dist[v] == dist[prev[v]] + 1) &&
    (forall v :: v in dist && v != from && dist[v] < Inf ==> v in prev)
  }

  /** The bookkeeping of the search: domains, the start at 0, and finite distances bounded by the settled count. */
  ghost predicate DistBounds(nodes: set<Screen>, from: Screen, dist: map<Screen, int>,
                             prev: map<Screen, Screen>, unvisited: set<Screen>)
  {
    unvisited <= nodes && |unvisited| <= |nodes| &&
    dist.Keys == nodes + {from} && dist[from] == 0 && prev.Keys <= dist.Keys &&
    (forall v :: v in dist ==> 0 <= dist[v] <= Inf) &&
    (forall v :: v in dist && v != from ==> dist[v] >= 1) &&
    (forall v :: v in dist && dist[v] < Inf ==> dist[v] <= |nodes| - |unvisited|)
  }

  /**
   * Settled screens have finite distances no larger than any unvisited one,
   * and every edge out of a settled screen has been relaxed.
   */
  ghost predicate Frontier(t: Table, nodes: set<Screen>, dist: map<Screen, int>, unvisited: set<Screen>) {
    nodes <= dist.Keys && unvisited <= nodes &&
    (forall w :: w in nodes && w !in unvisited ==> dist[w] < Inf) &&
    (forall w, v :: w in nodes && w !in unvisited && v in unvisited && Edge(t, w, v) ==> dist[v] <= dist[w] + 1) &&
    (forall w, v :: w in nodes && w !in unvisited && v in unvisited ==> dist[w] <= dist[v])
  }

  /** No path reaches a settled screen in fewer hops than its distance. */
  ghost predicate Shortest(t: Table, nodes: set<Screen>, from: Screen, dist: map<Screen, int>, unvisited: set<Screen>) {
    nodes <= dist.Keys &&
    forall w, q :: w in nodes && w !in unvisited && IsPath(t, q, from, w) ==> dist[w] <= |q| - 1
  }

  /** Everything the search loop of FindPath keeps true between two settled screens. */
  ghost predicate SearchInv(t: Table, nodes: set<Screen>, from: Screen, to: Screen, dist: map<Screen, int>,
                            prev: map<Screen, Screen>, unvisited: set<Screen>)
  {
    "" !in nodes && |nodes| < Inf && EdgesWithin(t, nodes) &&
    (to in nodes ==> to in unvisited) &&
    (from in unvisited ==> unvisited == nodes) &&
    DistBounds(nodes, from, dist, prev, unvisited) &&
    PrevChain(t, nodes, from, dist, prev, unvisited) &&
    Frontier(t, nodes, dist, unvisited) &&
    Shortest(t, nodes, from, dist, unvisited)
  }

  /** The result of Relax on the neighbours of `u`, with `unvisited` the set after removing `u`. */
  ghost predicate Relaxed(t: Table, u: Screen, dist: map<Screen, int>, prev: map<Screen, Screen>, unvisited: set<Screen>,
                          dist': map<Screen, int>, prev': map<Screen, Screen>)
    requires u in dist
  {
    dist'.Keys == dist.Keys && prev'.Keys <= dist.Keys &&
    forall v :: v in dist ==>
      if v in unvisited && Edge(t, u, v) && dist[u] + 1 < dist[v]
      then dist'[v] == dist[u] + 1 && v in prev' && prev'[v] == u
      else dist'[v] == dist[v] && (v in prev' <==> v in prev) && (v in prev ==> prev'[v] == prev[v])
  }

  /** Some index where a path first leaves the settled screens. */
  lemma {:induction false} FirstUnvisited(p: seq<Screen>, unvisited: set<Screen>) returns (k: int)
    requires |p| > 0 && p[0] !in unvisited && p[|p| - 1] in unvisited
    ensures 0 < k < |p| && p[k - 1] !in unvisited && p[k] in unvisited
  {
    k := |p| - 1;
    while p[k - 1] in unvisited
      invariant 0 < k < |p| && p[k] in unvisited
      decreases k
    {
      k := k - 1;
    }
  }

  /** A prefix of a path is a path to its own last screen. */
  lemma PathPrefix(t: Table, p: seq<Screen>, from: Screen, to: Screen, k: int)
    requires IsPath(t, p, from, to) && 0 < k <= |p|
    ensures IsPath(t, p[..k], from, p[k - 1])
  {
  }

  /**
   * The Dijkstra argument: the unvisited screen of least distance has no
   * path from `from` shorter than its distance.
   */
  lemma {:induction false} SelectedIsShortest(t: Table, nodes: set<Screen>, from: Screen, dist: map<Screen, int>,
                                              prev: map<Screen, Screen>, unvisited: set<Screen>, u: Screen, p: seq<Screen>)
    requires EdgesWithin(t, nodes) && (from in unvisited ==> unvisited == nodes)
    requires DistBounds(nodes, from, dist, prev, unvisited) && Frontier(t, nodes, dist, unvisited)
    requires Shortest(t, nodes, from, dist, unvisited)
    requires u in unvisited && forall n :: n in unvisited ==> dist[u] <= dist[n]
    requires IsPath(t, p, from, u)
    ensures dist[u] <= |p| - 1
  {
    if from in unvisited {
      assert dist[u] <= dist[from];
    } else {
      var k := FirstUnvisited(p, unvisited);
      PathPrefix(t, p, from, u, k);
      assert Edge(t, p[k - 1], p[k]);
      assert dist[p[k - 1]] <= k - 1;
    }
  }

  /** A screen reachable from the start leaves some unvisited screen at a finite distance. */
  lemma {:induction false} ReachableLeavesFinite(t: Table, nodes: set<Screen>, from: Screen, to: Screen,
                                                 dist: map<Screen, int>, prev: map<Screen, Screen>,
                                                 unvisited: set<Screen>, p: seq<Screen>) returns (n: Screen)
    requires SearchInv(t, nodes, from, to, dist, prev, unvisited)
    requires to in nodes && IsPath(t, p, from, to)
    ensures n in unvisited && dist[n] < Inf
  {
    if from in unvisited {
      n := from;
    } else {
      var k := FirstUnvisited(p, unvisited);
      assert Edge(t, p[k - 1], p[k]);
      assert |unvisited| >= 1;
      n := p[k];
    }
  }

  lemma InitInv(t: Table, nodes: set<Screen>, from: Screen, to: Screen, dist: map<Screen, int>)
    requires "" !in nodes && |nodes| < Inf && EdgesWithin(t, nodes)
    requires dist.Keys == nodes + {from} && dist[from] == 0
    requires forall v :: v in dist && v != from ==> dist[v] == Inf
    ensures SearchInv(t, nodes, from, to, dist, map[], nodes)
  {
  }

  lemma SettleBounds(nodes: set<Screen>, from: Screen, t: Table, dist: map<Screen, int>, prev: map<Screen, Screen>,
                     unvisited: set<Screen>, u: Screen, dist': map<Screen, int>, prev': map<Screen, Screen>)
    requires DistBounds(nodes, from, dist, prev, unvisited)
    requires u in unvisited && dist[u] < Inf
    requires Relaxed(t, u, dist, prev, unvisited - {u}, dist', prev')
    ensures DistBounds(nodes, from, dist', prev', unvisited - {u})
  {
    assert |unvisited - {u}| == |unvisited| - 1;
  }

  lemma SettlePrevChain(t: Table, nodes: set<Screen>, from: Screen, dist: map<Screen, int>, prev: map<Screen, Screen>,
                        unvisited: set<Screen>, u: Screen, dist': map<Screen, int>, prev': map<Screen, Screen>)
    requires DistBounds(nodes, from, dist, prev, unvisited) && PrevChain(t, nodes, from, dist, prev, unvisited)
    requires u in unvisited && dist[u] < Inf
    requires Relaxed(t, u, dist, prev, unvisited - {u}, dist', prev')
    ensures PrevChain(t, nodes, from, dist', prev', unvisited - {u})
  {
    var U := unvisited - {u};
    assert dist'[u] == dist[u];
    forall v | v in prev'
      ensures v in dist' && v != from && dist'[v] < Inf && prev'[v] in nodes && prev'[v] !in U &&
              prev'[v] in dist' && Edge(t, prev'[v], v) && dist'[v] == dist'[prev'[v]] + 1
    {
      if !(v in U && Edge(t, u, v) && dist[u] + 1 < dist[v]) {
        assert prev[v] !in unvisited;
      }
    }
  }

  lemma SettleFrontier(t: Table, nodes: set<Screen>, from: Screen, dist: map<Screen, int>, prev: map<Screen, Screen>,
                       unvisited: set<Screen>, u: Screen, dist': map<Screen, int>, prev': map<Screen, Screen>)
    requires DistBounds(nodes, from, dist, prev, unvisited) && Frontier(t, nodes, dist, unvisited)
    requires u in unvisited && dist[u] < Inf && forall n :: n in unvisited ==> dist[u] <= dist[n]
    requires Relaxed(t, u, dist, prev, unvisited - {u}, dist', prev')
    ensures Frontier(t, nodes, dist', unvisited - {u})
  {
    var U := unvisited - {u};
    assert dist'[u] == dist[u];
    forall w, v | w in nodes && w !in U && v in U && Edge(t, w, v)
      ensures dist'[v] <= dist'[w] + 1
    {
      if w != u {
        assert w !in unvisited;
      }
    }
    forall w, v | w in nodes && w !in U && v in U
      ensures dist'[w] <= dist'[v]
    {
      if w != u {
        assert w !in unvisited;
        assert dist[w] <= dist[u];
      }
    }
  }

  lemma SettleShortest(t: Table, nodes: set<Screen>, from: Screen, dist: map<Screen, int>, prev: map<Screen, Screen>,
                       unvisited: set<Screen>, u: Screen, dist': map<Screen, int>, prev': map<Screen, Screen>)
    requires DistBounds(nodes, from, dist, prev, unvisited) && Shortest(t, nodes, from, dist, unvisited)
    requires u in unvisited && forall q :: IsPath(t, q, from, u) ==> dist[u] <= |q| - 1
    requires Relaxed(t, u, dist, prev, unvisited - {u}, dist', prev')
    ensures Shortest(t, nodes, from, dist', unvisited - {u})
  {
    forall w, q | w in nodes && w !in unvisited - {u} && IsPath(t, q, from, w)
      ensures dist'[w] <= |q| - 1
    {
      assert dist'[w] == dist[w];
    }
  }

  /** Settling the least unvisited screen and relaxing its edges keeps the search invariant. */
  lemma SettleKeepsInv(t: Table, nodes: set<Screen>, from: Screen, to: Screen,
                       dist: map<Screen, int>, prev: map<Screen, Screen>, unvisited: set<Screen>,
                       u: Screen, dist': map<Screen, int>, prev': map<Screen, Screen>)
    requires SearchInv(t, nodes, from, to, dist, prev, unvisited)
    requires u in unvisited && u != to && dist[u] < Inf && forall n :: n in unvisited ==> dist[u] <= dist[n]
    requires forall q :: IsPath(t, q, from, u) ==> dist[u] <= |q| - 1
    requires Relaxed(t, u, dist, prev, unvisited - {u}, dist', prev')
    ensures SearchInv(t, nodes, from, to, dist', prev', unvisited - {u})
  {
    if from in unvisited {
      assert dist[u] <= dist[from];
    }
    SettleBounds(nodes, from, t, dist, prev, unvisited, u, dist', prev');
    SettlePrevChain(t, nodes, from, dist, prev, unvisited, u, dist', prev');
    SettleFrontier(t, nodes, from, dist, prev, unvisited, u, dist', prev');
    SettleShortest(t, nodes, from, dist, prev, unvisited, u, dist', prev');
  }

  /** Prepending a screen with an edge to the head of a walk gives a walk. */
  lemma WalkCons(t: Table, u: Screen, p: seq<Screen>)
    requires |p| > 0 && Edge(t, u, p[0]) && Walk(t, p)
    ensures Walk(t, [u] + p)
  {
    var up := [u] + p;
    forall i | 0 <= i < |up| - 1
      ensures Edge(t, up[i], up[i + 1])
    {
      if i > 0 {
        assert up[i] == p[i - 1] && up[i + 1] == p[i];
      }
    }
  }

  /** The reconstruction loop of FindPath: follow the predecessor links back from `to`. */
  method Reconstruct(t: Table, nodes: set<Screen>, from: Screen, to: Screen, dist: map<Screen, int>,
                     prev: map<Screen, Screen>, unvisited: set<Screen>) returns (path: seq<Screen>)
    requires "" !in nodes && from in dist && dist[from] == 0 && prev.Keys <= dist.Keys
    requires forall v :: v in dist ==> dist[v] >= 0
    requires PrevChain(t, nodes, from, dist, prev, unvisited)
    requires to in dist ==> dist[to] < Inf
    ensures to == "" ==> path == []
    ensures to != "" && (to !in dist || to == from) ==> path == [to]
    ensures to != "" && to in dist ==> IsPath(t, path, from, to) && |path| - 1 == dist[to]
  {
    path := [];
    var u := to;
    while u != ""
      invariant path == [] ==> u == to
      invariant to == "" ==> path == []
      invariant path != [] ==> path[|path| - 1] == to && Walk(t, path)
      invariant to in dist && path != [] ==>
        path[0] in prev && u == prev[path[0]] && |path| - 1 + dist[path[0]] == dist[to]
      invariant to !in dist && path != [] ==> path == [to] && u == ""
      invariant u != "" && path != [] ==> u in dist && dist[u] < Inf
      decreases if u == "" then 0 else if u in dist && dist[u] < Inf then dist[u] + 2 else 1
    {
      if path != [] {
        WalkCons(t, u, path);
      }
      path := [u] + path;
      if u == from {
        break;
      }
      u := if u in prev then prev[u] else "";
    }
  }

  /**
   * How the search loop of FindPath can stop: with `to` at a finite
   * distance that no path beats, or with `to` at infinity and every
   * unvisited screen at infinity too.
   */
  ghost predicate SearchDone(t: Table, nodes: set<Screen>, from: Screen, to: Screen,
                             dist: map<Screen, int>, unvisited: set<Screen>)
  {
    to in nodes && to in dist ==>
      (dist[to] < Inf ==> forall q :: IsPath(t, q, from, to) ==> dist[to] <= |q| - 1) &&
      (dist[to] >= Inf ==> forall n :: n in unvisited && n in dist ==> dist[n] >= Inf)
  }

  /**
   * One round of the search loop of FindPath: pick the unvisited screen of
   * least distance; stop if there is none at a finite distance or it is
   * `to`, otherwise settle it and relax its edges.
   */
  method SettleNext(t: Table, g: Graph, nodes: set<Screen>, from: Screen, to: Screen,
                    dist: map<Screen, int>, prev: map<Screen, Screen>, unvisited: set<Screen>)
    returns (stop: bool, dist': map<Screen, int>, prev': map<Screen, Screen>, unvisited': set<Screen>)
    requires GraphOf(g, t) && SearchInv(t, nodes, from, to, dist, prev, unvisited)
    ensures SearchInv(t, nodes, from, to, dist', prev', unvisited')
    ensures stop ==> SearchDone(t, nodes, from, to, dist', unvisited')
    ensures if stop then unvisited' == unvisited else unvisited' < unvisited
  {
    var u := SelectMin(unvisited, dist);
    if u == "" {
      return true, dist, prev, unvisited;
    }
    forall q | IsPath(t, q, from, u)
      ensures dist[u] <= |q| - 1
    {
      SelectedIsShortest(t, nodes, from, dist, prev, unvisited, u, q);
    }
    if u == to {
      return true, dist, prev, unvisited;
    }
    dist', prev' := Relax(t, g, u, dist, prev, unvisited - {u});
    SettleKeepsInv(t, nodes, from, to, dist, prev, unvisited, u, dist', prev');
    stop, unvisited' := false, unvisited - {u};
  }

  /** The start of the search: every screen at infinity except `from` at 0, nothing settled. */
  method InitSearch(nodes: set<Screen>, from: Screen)
    returns (dist: map<Screen, int>, prev: map<Screen, Screen>, unvisited: set<Screen>)
    ensures dist.Keys == nodes + {from} && dist[from] == 0
    ensures forall v :: v in dist && v != from ==> dist[v] == Inf
    ensures prev == map[] && unvisited == nodes
  {
    dist := map[];
    var todo := nodes;
    while todo != {}
      invariant todo <= nodes && dist.Keys == nodes - todo
      invariant forall n :: n in dist ==> dist[n] == Inf
      decreases todo
    {
      var n :| n in todo;
      dist := dist[n := Inf];
      todo := todo - {n};
    }
    dist := dist[from := 0];
    prev := map[];
    unvisited := nodes;
  }

  /**
   * The search loop of FindPath: settle screens one at a time until `to`
   * is settled, nothing unvisited is reachable, or every screen is settled.
   */
  method Search(t: Table, g: Graph, nodes: set<Screen>, from: Screen, to: Screen)
    returns (dist: map<Screen, int>, prev: map<Screen, Screen>, unvisited: set<Screen>)
    requires GraphOf(g, t) && "" !in nodes && |nodes| < Inf && EdgesWithin(t, nodes)
    ensures SearchInv(t, nodes, from, to, dist, prev, unvisited)
    ensures SearchDone(t, nodes, from, to, dist, unvisited)
  {
    dist, prev, unvisited := InitSearch(nodes, from);
    InitInv(t, nodes, from, to, dist);
    var stop := false;
    while unvisited != {} && !stop
      invariant SearchInv(t, nodes, from, to, dist, prev, unvisited)
      invariant stop ==> SearchDone(t, nodes, from, to, dist, unvisited)
      decreases unvisited, !stop
    {
      stop, dist, prev, unvisited := SettleNext(t, g, nodes, from, to, dist, prev, unvisited);
    }
  }

  /**
   * FindPath: a fewest-hops path from `from` to `to`, as Dijkstra's search
   * with unit edge costs finds it. Ties between equally short paths are
   * broken by map order, so the result is some shortest path. A `to` that
   * is not a screen of the graph is returned alone, because the distance
   * lookup reads the missing key as 0.
   */
  method FindPath(t: Table, g: Graph, from: Screen, to: Screen) returns (path: seq<Screen>)
    requires GraphOf(g, t)
    requires "" !in Nodes(t) && |Nodes(t)| < Inf
    ensures to == "" ==> path == []
    ensures to != "" && to !in Nodes(t) ==> path == [to]
    ensures to != "" && from == to ==> path == [to]
    ensures to in Nodes(t) ==> (path != [] <==> Reachable(t, from, to))
    ensures to in Nodes(t) && path != [] ==>
      IsPath(t, path, from, to) && forall p :: IsPath(t, p, from, to) ==> |path| <= |p|
  {
    var nodes := CollectNodes(t, g);
    EdgesWithinNodes(t);
    var dist, prev, unvisited := Search(t, g, nodes, from, to);
    if (if to in dist then dist[to] else 0) == Inf {
      forall p
        ensures !IsPath(t, p, from, to)
      {
        if IsPath(t, p, from, to) {
          var n := ReachableLeavesFinite(t, nodes, from, to, dist, prev, unvisited, p);
        }
      }
      return [];
    }
    path := Reconstruct(t, nodes, from, to, dist, prev, unvisited);
  }

  // ---------------------------------------------------------------- steps

  /** Every consecutive pair of `p` is an edge of the table. */
  predicate Walk(t: Table, p: seq<Screen>) {
    forall i :: 0 <= i < |p| - 1 ==> Edge(t, p[i], p[i + 1])
  }

  /** The steps of the edges along `p`, in path order. */
  function StepsAlong(t: Table, p: seq<Screen>): seq<TransitionStep>
    requires Walk(t, p)
  {
    if |p| < 2 then []
    else
      assert Edge(t, p[|p| - 2], p[|p| - 1]);
      StepsAlong(t, p[..|p| - 1]) + t[p[|p| - 2]][p[|p| - 1]]
  }

  /** pathToSteps: the concatenated steps, or None where the source panics on a pair with no entry. */
  method PathToSteps(t: Table, path: seq<Screen>) returns (r: Option<seq<TransitionStep>>)
    ensures r.Some? <==> Walk(t, path)
    ensures r.Some? ==> Walk(t, path) && r.value == StepsAlong(t, path)
  {
    var steps := [];
    var i := 0;
    while i < |path| - 1
      invariant 0 <= i <= if |path| == 0 then 0 else |path| - 1
      invariant |path| > 0 ==> Walk(t, path[..i + 1])
      invariant |path| > 0 ==> steps == StepsAlong(t, path[..i + 1])
      invariant |path| == 0 ==> steps == []
    {
      var from, to := path[i], path[i + 1];
      if from in t && to in t[from] {
        assert path[..i + 2][..i + 1] == path[..i + 1];
        steps := steps + t[from][to];
      } else {
        assert !Walk(t, path) by {
          assert !Edge(t, path[i], path[i + 1]);
        }
        return None;
      }
      i := i + 1;
    }
    if |path| > 0 {
      assert path[..i + 1] == path;
    }
    return Some(steps);
  }

  /** Joining two paths at a shared screen joins their steps. */
  lemma WalkJoin(t: Table, p: seq<Screen>, q: seq<Screen>)
    requires |p| > 0 && |q| > 0 && p[|p| - 1] == q[0] && Walk(t, p) && Walk(t, q)
    ensures Walk(t, p + q[1..])
  {
    var pq := p + q[1..];
    forall i | 0 <= i < |pq| - 1
      ensures Edge(t, pq[i], pq[i + 1])
    {
      if i >= |p| - 1 {
        assert pq[i] == q[i - |p| + 1] && pq[i + 1] == q[i - |p| + 2];
      }
    }
  }

  /** Joining two paths at a shared screen joins their steps. */
  lemma {:induction false} StepsAlongJoin(t: Table, p: seq<Screen>, q: seq<Screen>)
    requires |p| > 0 && |q| > 0 && p[|p| - 1] == q[0] && Walk(t, p) && Walk(t, q)
    ensures Walk(t, p + q[1..])
    ensures StepsAlong(t, p + q[1..]) == StepsAlong(t, p) + StepsAlong(t, q)
    decreases |q|
  {
    WalkJoin(t, p, q);
    var pq := p + q[1..];
    if |q| == 1 {
      assert pq == p;
    } else {
      var q' := q[..|q| - 1];
      assert Walk(t, q');
      StepsAlongJoin(t, p, q');
      assert pq[..|pq| - 1] == p + q'[1..];
    }
  }

  // ---------------------------------------------------------------- validation

  /** A step the startup check rejects: no swipe, and either no click or a click on an unknown region. */
  predicate Rejected(s: TransitionStep, regions: set<string>) {
    (s.click == "" && s.swipe.None?) || (s.click != "" && s.swipe.None? && s.click !in regions)
  }

  ghost predicate TableValid(t: Table, regions: set<string>) {
    forall a, b, i :: a in t && b in t[a] && 0 <= i < |t[a][b]| ==> !Rejected(t[a][b][i], regions)
  }

  /**
   * ValidateTransitionActions: collects one message per rejected step and
   * panics (returns true) iff there is at least one. `regions` stands for
   * the names the area lookup knows.
   */
  method ValidateTransitionActions(t: Table, regions: set<string>) returns (panics: bool, missing: seq<string>)
    ensures panics <==> !TableValid(t, regions)
    ensures panics <==> missing != []
  {
    missing := [];
    var froms := t.Keys;
    while froms != {}
      invariant froms <= t.Keys
      invariant missing == [] <==> forall a, b, i :: a in t && a !in froms && b in t[a] && 0 <= i < |t[a][b]| ==> !Rejected(t[a][b][i], regions)
      decreases froms
    {
      var from :| from in froms;
      var tos := t[from].Keys;
      while tos != {}
        invariant tos <= t[from].Keys
        invariant missing == [] <==>
          (forall a, b, i :: a in t && a !in froms && b in t[a] && 0 <= i < |t[a][b]| ==> !Rejected(t[a][b][i], regions)) &&
          (forall b, i :: b in t[from] && b !in tos && 0 <= i < |t[from][b]| ==> !Rejected(t[from][b][i], regions))
        decreases tos
      {
        var to :| to in tos;
        var steps := t[from][to];
        var i := 0;
        ghost var before := missing;
        while i < |steps|
          invariant 0 <= i <= |steps|
          invariant missing == [] <==> before == [] && forall j :: 0 <= j < i ==> !Rejected(steps[j], regions)
        {
          var step := steps[i];
          if step.click == "" && step.swipe.None? {
            missing := missing + [from + " -> " + to + ": missing Click and Swipe"];
          } else if step.click != "" && step.swipe.None? {
            if step.click !in regions {
              missing := missing + [from + " -> " + to + ": '" + step.click + "'"];
            }
          }
          i := i + 1;
        }
        tos := tos - {to};
      }
      froms := froms - {from};
    }
    panics := |missing| != 0;
  }

  /** Steps with a swipe, and edges with no steps at all, are never rejected. */
  lemma {:induction false} AddingSwipeOrEmptyEdgeKeepsValid(t: Table, regions: set<string>, a: Screen, b: Screen,
                                                            steps: seq<TransitionStep>)
    requires TableValid(t, regions)
    requires forall i :: 0 <= i < |steps| ==> steps[i].swipe.Some?
    ensures TableValid(t[a := (if a in t then t[a] else map[])[b := steps]], regions)
  {
    var t' := t[a := (if a in t then t[a] else map[])[b := steps]];
    forall x, y, i | x in t' && y in t'[x] && 0 <= i < |t'[x][y]|
      ensures !Rejected(t'[x][y][i], regions)
    {
      if x != a || y != b {
        assert t'[x][y] == t[x][y];
      }
    }
  }

  /** Merging two tables that pass the check gives a table that passes it. */
  lemma {:induction false} MergeKeepsValid(dst: Table, src: Table, r: Table, regions: set<string>)
    requires MergeOf(dst, src, r) && TableValid(dst, regions) && TableValid(src, regions)
    ensures TableValid(r, regions)
  {
    forall a, b, i | a in r && b in r[a] && 0 <= i < |r[a][b]|
      ensures !Rejected(r[a][b][i], regions)
    {
      if Edge(src, a, b) {
        assert r[a][b] == src[a][b];
      } else {
        assert r[a][b] == dst[a][b];
      }
    }
  }
}
