/**
 * Shortest journeys over the transit graph: `get_journey_time`,
 * `get_journey_path` and `get_lines_used` of meetup/services/graph.py, with
 * networkx's Dijkstra search (`_dijkstra_multisource`) written out.
 *
 * The search keeps networkx's three dictionaries: `dist` (settled nodes),
 * `seen` (best tentative distance found so far) and `paths` (a path of that
 * length). The binary heap is abstracted: each round settles some unsettled
 * seen node of least tentative distance, which is what popping the heap and
 * skipping already settled entries amounts to.
 */
module Routing {
  import opened Wrappers
  import opened Sets
  import opened TransitGraph

  // ---------------------------------------------------------------------------
  // Paths and their weights
  // ---------------------------------------------------------------------------

  /** The `i`-th step of `p` follows an edge of `g`. */
  ghost predicate Step(g: Graph, p: seq<Node>, i: int)
  {
    0 <= i < |p| - 1 && (p[i], p[i + 1]) in g.edges
  }

  /** A non-empty walk along edges of `g`. */
  ghost predicate IsPath(g: Graph, p: seq<Node>)
  {
    && |p| >= 1
    && (forall i | 0 <= i < |p| :: p[i] in g.nodes)
    && (forall i | 0 <= i < |p| - 1 :: Step(g, p, i))
  }

  ghost predicate PathFromTo(g: Graph, p: seq<Node>, a: Node, b: Node)
  {
    IsPath(g, p) && p[0] == a && p[|p| - 1] == b
  }

  /** Sum of the edge weights along `p`. */
  ghost function PathWeight(g: Graph, p: seq<Node>): real
    requires IsPath(g, p)
    decreases |p|
  {
    if |p| == 1 then 0.0
    else
      InitIsPath(g, p);
      PathWeight(g, p[..|p| - 1]) + g.edges[(p[|p| - 2], p[|p| - 1])].weight
  }

  lemma {:induction false} InitIsPath(g: Graph, p: seq<Node>)
    requires IsPath(g, p) && |p| >= 2
    ensures IsPath(g, p[..|p| - 1])
    ensures (p[|p| - 2], p[|p| - 1]) in g.edges
  {
    var init := p[..|p| - 1];
    forall i | 0 <= i < |init| - 1 ensures Step(g, init, i) {
      assert Step(g, p, i);
    }
    assert Step(g, p, |p| - 2);
  }

  ghost predicate Reachable(g: Graph, a: Node, b: Node)
  {
    exists p :: PathFromTo(g, p, a, b)
  }

  /** `p` is a path from `a` to `b` no heavier than any other. */
  ghost predicate IsShortest(g: Graph, p: seq<Node>, a: Node, b: Node)
  {
    && PathFromTo(g, p, a, b)
    && forall q | PathFromTo(g, q, a, b) :: PathWeight(g, p) <= PathWeight(g, q)
  }

  lemma {:induction false} PathWeightNonNegative(g: Graph, p: seq<Node>)
    requires g.NonNegative() && IsPath(g, p)
    ensures PathWeight(g, p) >= 0.0
    decreases |p|
  {
    if |p| > 1 {
      InitIsPath(g, p);
      PathWeightNonNegative(g, p[..|p| - 1]);
    }
  }

  /** Extending a path by one edge adds that edge's weight. */
  lemma {:induction false} PathExtend(g: Graph, p: seq<Node>, u: Node)
    requires IsPath(g, p) && u in g.nodes && (p[|p| - 1], u) in g.edges
    ensures IsPath(g, p + [u])
    ensures PathWeight(g, p + [u]) == PathWeight(g, p) + g.edges[(p[|p| - 1], u)].weight
  {
    var pu := p + [u];
    assert pu[..|pu| - 1] == p;
    forall i | 0 <= i < |pu| - 1 ensures Step(g, pu, i) {
      if i < |p| - 1 {
        assert Step(g, p, i);
      }
    }
  }

  /** A prefix of a path is a path, and no heavier when weights are non-negative. */
  lemma {:induction false} PrefixWeight(g: Graph, p: seq<Node>, k: nat)
    requires g.NonNegative() && IsPath(g, p) && 1 <= k <= |p|
    ensures IsPath(g, p[..k])
    ensures PathWeight(g, p[..k]) <= PathWeight(g, p)
    decreases |p| - k
  {
    if k < |p| {
      var init := p[..|p| - 1];
      InitIsPath(g, p);
      PrefixWeight(g, init, k);
      assert init[..k] == p[..k];
      assert g.edges[(p[|p| - 2], p[|p| - 1])].weight >= 0.0;
    } else {
      assert p[..k] == p;
    }
  }

  // ---------------------------------------------------------------------------
  // The search state
  // ---------------------------------------------------------------------------

  /** `seen` and `paths`: every seen node has a path from the source whose
      weight is its tentative distance; the source stays at distance 0. */
  ghost predicate Tentative(g: Graph, source: Node, seen: map<Node, real>, paths: map<Node, seq<Node>>)
  {
    && seen.Keys <= g.nodes
    && seen.Keys == paths.Keys
    && source in seen && seen[source] == 0.0
    && forall v | v in seen :: Witnessed(g, source, v, seen[v], paths[v])
  }

  /** `p` is a path from the source to `v` of weight `d`. */
  ghost predicate Witnessed(g: Graph, source: Node, v: Node, d: real, p: seq<Node>)
  {
    PathFromTo(g, p, source, v) && PathWeight(g, p) == d
  }

  /** No path from the source to `v` weighs less than `d`. */
  ghost predicate NoShorter(g: Graph, source: Node, v: Node, d: real)
  {
    forall q | PathFromTo(g, q, source, v) :: d <= PathWeight(g, q)
  }

  /** `dist`: every settled node's distance is its tentative one, and no path
      from the source to it is shorter. */
  ghost predicate Settled(g: Graph, source: Node, dist: map<Node, real>, seen: map<Node, real>)
  {
    && dist.Keys <= seen.Keys
    && forall v | v in dist :: dist[v] == seen[v] && NoShorter(g, source, v, dist[v])
  }

  /** Every edge out of a settled node has been relaxed. */
  ghost predicate Relaxed(g: Graph, dist: map<Node, real>, seen: map<Node, real>)
  {
    forall v, u | v in dist && (v, u) in g.edges :: u in seen && seen[u] <= dist[v] + g.edges[(v, u)].weight
  }

  /** A frontier node of least tentative distance, as the heap yields it. */
  lemma {:induction false} LeastOf(seen: map<Node, real>, frontier: set<Node>) returns (v: Node)
    requires frontier != {} && frontier <= seen.Keys
    ensures v in frontier && forall x | x in frontier :: seen[v] <= seen[x]
    decreases frontier
  {
    var x := Elem(frontier);
    if frontier == {x} {
      v := x;
    } else {
      var w := LeastOf(seen, frontier - {x});
      v := if seen[x] <= seen[w] then x else w;
    }
  }

  /** The first node of `p` outside `done`. */
  lemma {:induction false} FirstOutside(p: seq<Node>, done: set<Node>) returns (k: nat)
    requires |p| >= 1 && p[|p| - 1] !in done
    ensures k < |p| && p[k] !in done && forall j | 0 <= j < k :: p[j] in done
  {
    k := 0;
    while p[k] in done
      invariant k < |p| && forall j | 0 <= j < k :: p[j] in done
      decreases |p| - k
    {
      k := k + 1;
    }
  }

  /** A prefix one longer is the shorter prefix plus the next node. */
  lemma {:induction false} PrefixSnoc(q: seq<Node>, k: nat)
    requires k < |q|
    ensures q[..k + 1] == q[..k] + [q[k]]
  {
    assert forall i | 0 <= i <= k :: q[..k + 1][i] == (q[..k] + [q[k]])[i];
  }

  /** A path from the source that leaves the settled nodes at step `k` enters
      a seen node whose tentative distance is at most the path's weight. */
  lemma {:induction false} CrossingBound(g: Graph, source: Node, dist: map<Node, real>, seen: map<Node, real>, q: seq<Node>, k: nat)
    requires g.NonNegative()
    requires Settled(g, source, dist, seen) && Relaxed(g, dist, seen)
    requires IsPath(g, q) && q[0] == source
    requires 0 < k < |q| && q[k - 1] in dist
    ensures q[k] in seen && seen[q[k]] <= PathWeight(g, q)
  {
    var before := q[..k];
    PrefixWeight(g, q, k);
    assert Step(g, q, k - 1);
    assert q[k] in g.nodes;
    RelaxedPathBound(g, source, dist, seen, before, q[k]);
    PrefixSnoc(q, k);
    PrefixWeight(g, q, k + 1);
  }

  /** Following one edge out of a settled node along a path from the source
      reaches a seen node no further than that path plus the edge. */
  lemma {:induction false} RelaxedPathBound(g: Graph, source: Node, dist: map<Node, real>, seen: map<Node, real>,
                                            p: seq<Node>, u: Node)
    requires Settled(g, source, dist, seen) && Relaxed(g, dist, seen)
    requires IsPath(g, p) && p[0] == source && p[|p| - 1] in dist
    requires u in g.nodes && (p[|p| - 1], u) in g.edges
    ensures IsPath(g, p + [u]) && u in seen && seen[u] <= PathWeight(g, p + [u])
  {
    var x := p[|p| - 1];
    assert PathFromTo(g, p, source, x);
    assert NoShorter(g, source, x, dist[x]);
    PathExtend(g, p, u);
  }

  /** Dijkstra's step: an unsettled node of least tentative distance has its
      shortest distance. */
  lemma {:induction false} LeastIsShortest(g: Graph, source: Node, dist: map<Node, real>, seen: map<Node, real>,
                                           paths: map<Node, seq<Node>>, v: Node)
    requires g.NonNegative()
    requires Tentative(g, source, seen, paths) && Settled(g, source, dist, seen) && Relaxed(g, dist, seen)
    requires v in seen && v !in dist
    requires forall x | x in seen && x !in dist :: seen[v] <= seen[x]
    ensures NoShorter(g, source, v, seen[v])
  {
    forall q | PathFromTo(g, q, source, v) ensures seen[v] <= PathWeight(g, q) {
      var k := FirstOutside(q, dist.Keys);
      if k == 0 {
        PathWeightNonNegative(g, q);
      } else {
        CrossingBound(g, source, dist, seen, q, k);
      }
    }
  }

  /** When the frontier is empty, everything reachable from the source is settled. */
  lemma {:induction false} ClosedUnderEdges(g: Graph, source: Node, dist: map<Node, real>, seen: map<Node, real>, q: seq<Node>)
    requires Relaxed(g, dist, seen) && dist.Keys == seen.Keys && source in dist
    requires IsPath(g, q) && q[0] == source
    ensures forall i | 0 <= i < |q| :: q[i] in dist
  {
    var i := 0;
    while i < |q| - 1
      invariant 0 <= i < |q| && forall j | 0 <= j <= i :: q[j] in dist
    {
      assert Step(g, q, i);
      i := i + 1;
    }
  }

  // ---------------------------------------------------------------------------
  // The search
  // ---------------------------------------------------------------------------

  /** Recording `paths[v] + [u]` as the best path to `u` keeps every tentative
      distance the weight of its recorded path. */
  lemma {:induction false} TentativeUpdate(g: Graph, source: Node, seen: map<Node, real>, paths: map<Node, seq<Node>>, v: Node, u: Node, d: real)
    requires Tentative(g, source, seen, paths)
    requires v in seen && u in g.nodes && (v, u) in g.edges && u != source
    requires d == seen[v] + g.edges[(v, u)].weight
    ensures Tentative(g, source, seen[u := d], paths[u := paths[v] + [u]])
  {
    PathExtend(g, paths[v], u);
  }

  /** A settled neighbour of a node is no further than one step beyond it. */
  lemma {:induction false} NeighbourBound(g: Graph, source: Node, v: Node, u: Node, dv: real, du: real, p: seq<Node>)
    requires Witnessed(g, source, v, dv, p) && NoShorter(g, source, u, du)
    requires u in g.nodes && (v, u) in g.edges
    ensures du <= dv + g.edges[(v, u)].weight
  {
    PathExtend(g, p, u);
    assert PathFromTo(g, p + [u], source, u);
  }

  /** Relaxes the edge from the newly settled node `v` to `u`: `u` gets the
      distance through `v` when it was unseen or that distance is shorter;
      settled nodes are left alone. */
  method RelaxEdge(g: Graph, source: Node, dist: map<Node, real>, seen: map<Node, real>,
                   paths: map<Node, seq<Node>>, v: Node, u: Node)
    returns (seen': map<Node, real>, paths': map<Node, seq<Node>>)
    requires g.NonNegative()
    requires Tentative(g, source, seen, paths) && Settled(g, source, dist, seen)
    requires v in dist && u in g.nodes && (v, u) in g.edges
    ensures Tentative(g, source, seen', paths') && Settled(g, source, dist, seen')
    ensures NoWorse(seen, seen')
    ensures forall x | x in seen' && x != u :: x in seen && seen'[x] == seen[x]
    ensures RelaxedEdge(g, dist, seen', v, u)
  {
    seen', paths' := seen, paths;
    assert Witnessed(g, source, v, dist[v], paths[v]);
    var vuDist := dist[v] + g.edges[(v, u)].weight;
    if u in dist {
      NeighbourBound(g, source, v, u, dist[v], dist[u], paths[v]);
    } else if u !in seen || vuDist < seen[u] {
      PathWeightNonNegative(g, paths[v]);
      TentativeUpdate(g, source, seen, paths, v, u, vuDist);
      seen' := seen[u := vuDist];
      paths' := paths[u := paths[v] + [u]];
    }
  }

  /** The neighbours of `v`, in the order the adjacency dictionary yields them. */
  method Adjacent(g: Graph, v: Node) returns (ns: seq<Node>)
    ensures forall j | 0 <= j < |ns| :: ns[j] in g.nodes && (v, ns[j]) in g.edges
    ensures forall u | u in g.nodes && (v, u) in g.edges :: exists j | 0 <= j < |ns| :: ns[j] == u
  {
    var adjacent := set u | u in g.nodes && (v, u) in g.edges;
    ns := Enumerate(adjacent);
    forall j | 0 <= j < |ns| ensures ns[j] in g.nodes && (v, ns[j]) in g.edges {
      assert ns[j] in adjacent;
    }
    forall u | u in g.nodes && (v, u) in g.edges ensures exists j | 0 <= j < |ns| :: ns[j] == u {
      assert u in adjacent;
      assert u in ns;
    }
  }

  /** No tentative distance of `seen0` got worse in `seen`. */
  ghost predicate NoWorse(seen0: map<Node, real>, seen: map<Node, real>)
  {
    forall x | x in seen0 :: x in seen && seen[x] <= seen0[x]
  }

  /** The edges from `v` to the nodes of `ns` have been relaxed. */
  ghost predicate Covered(g: Graph, dist: map<Node, real>, seen: map<Node, real>, v: Node, ns: seq<Node>)
  {
    forall j | 0 <= j < |ns| :: RelaxedEdge(g, dist, seen, v, ns[j])
  }

  ghost predicate RelaxedEdge(g: Graph, dist: map<Node, real>, seen: map<Node, real>, v: Node, u: Node)
  {
    v in dist && u in seen && (v, u) in g.edges && seen[u] <= dist[v] + g.edges[(v, u)].weight
  }

  lemma {:induction false} RelaxProgress(g: Graph, dist: map<Node, real>, seen0: map<Node, real>, before: map<Node, real>,
                      seen: map<Node, real>, v: Node, ns: seq<Node>, k: nat)
    requires k < |ns|
    requires NoWorse(seen0, before) && NoWorse(before, seen)
    requires Covered(g, dist, before, v, ns[..k]) && RelaxedEdge(g, dist, seen, v, ns[k])
    ensures NoWorse(seen0, seen)
    ensures Covered(g, dist, seen, v, ns[..k + 1])
  {
    var prev, next := ns[..k], ns[..k + 1];
    forall j | 0 <= j < |next| ensures RelaxedEdge(g, dist, seen, v, next[j]) {
      if j < k {
        assert RelaxedEdge(g, dist, before, v, prev[j]);
      }
    }
  }

  /** Relaxes every edge out of the newly settled node `v`. */
  method RelaxFrom(g: Graph, source: Node, dist: map<Node, real>, seen0: map<Node, real>,
                   paths0: map<Node, seq<Node>>, v: Node)
    returns (seen: map<Node, real>, paths: map<Node, seq<Node>>)
    requires g.NonNegative()
    requires Tentative(g, source, seen0, paths0) && Settled(g, source, dist, seen0) && v in dist
    ensures Tentative(g, source, seen, paths) && Settled(g, source, dist, seen)
    ensures NoWorse(seen0, seen)
    ensures forall u | u in g.nodes && (v, u) in g.edges :: RelaxedEdge(g, dist, seen, v, u)
  {
    seen, paths := seen0, paths0;
    var neighbours := Adjacent(g, v);
    for k := 0 to |neighbours|
      invariant Tentative(g, source, seen, paths) && Settled(g, source, dist, seen)
      invariant NoWorse(seen0, seen)
      invariant Covered(g, dist, seen, v, neighbours[..k])
    {
      ghost var before := seen;
      seen, paths := RelaxEdge(g, source, dist, seen, paths, v, neighbours[k]);
      RelaxProgress(g, dist, seen0, before, seen, v, neighbours, k);
    }
    assert neighbours[..|neighbours|] == neighbours;
    CoveredAll(g, dist, seen, v, neighbours);
  }

  /** Once every listed neighbour is covered, every edge out of `v` is relaxed. */
  lemma {:induction false} CoveredAll(g: Graph, dist: map<Node, real>, seen: map<Node, real>, v: Node, ns: seq<Node>)
    requires Covered(g, dist, seen, v, ns)
    requires forall u | u in g.nodes && (v, u) in g.edges :: exists j | 0 <= j < |ns| :: ns[j] == u
    ensures forall u | u in g.nodes && (v, u) in g.edges :: RelaxedEdge(g, dist, seen, v, u)
  {
    forall u | u in g.nodes && (v, u) in g.edges ensures RelaxedEdge(g, dist, seen, v, u) {
      var j :| 0 <= j < |ns| && ns[j] == u;
      assert RelaxedEdge(g, dist, seen, v, ns[j]);
    }
  }

  /** Settling `v` and relaxing its edges keeps every settled node relaxed. */
  lemma {:induction false} RelaxedAfterSettling(g: Graph, dist0: map<Node, real>, dist: map<Node, real>,
                                                before: map<Node, real>, seen: map<Node, real>, v: Node)
    requires g.Valid() && v in dist && dist.Keys == dist0.Keys + {v}
    requires forall x | x in dist0 && x != v :: dist[x] == dist0[x]
    requires Relaxed(g, dist0, before) && NoWorse(before, seen)
    requires forall u | u in g.nodes && (v, u) in g.edges :: RelaxedEdge(g, dist, seen, v, u)
    ensures Relaxed(g, dist, seen)
  {
    forall x, u | x in dist && (x, u) in g.edges
      ensures u in seen && seen[u] <= dist[x] + g.edges[(x, u)].weight
    {
      if x != v {
        assert x in dist0;
        assert u in before;
      } else {
        assert u in g.nodes;
        assert RelaxedEdge(g, dist, seen, v, u);
      }
    }
  }

  /** A settled node's recorded path is a shortest one. */
  lemma {:induction false} SettledIsShortest(g: Graph, source: Node, dist: map<Node, real>, seen: map<Node, real>,
                                             paths: map<Node, seq<Node>>, v: Node)
    requires Tentative(g, source, seen, paths) && Settled(g, source, dist, seen) && v in dist
    ensures Reachable(g, source, v) && IsShortest(g, paths[v], source, v) && dist[v] == PathWeight(g, paths[v])
  {
    assert Witnessed(g, source, v, seen[v], paths[v]);
    assert NoShorter(g, source, v, dist[v]);
  }

  /** Once no reached node is left unsettled, a target never settled cannot be
      reached: the settled nodes are closed under the graph's edges. */
  lemma {:induction false} ExhaustedUnreachable(g: Graph, source: Node, target: Node, dist: map<Node, real>,
                                                seen: map<Node, real>, paths: map<Node, seq<Node>>)
    requires Tentative(g, source, seen, paths) && Settled(g, source, dist, seen) && Relaxed(g, dist, seen)
    requires seen.Keys - dist.Keys == {} && target !in dist
    ensures !Reachable(g, source, target)
  {
    assert dist.Keys == seen.Keys by {
      forall x | x in seen ensures x in dist {
        assert x !in seen.Keys - dist.Keys;
      }
    }
    if Reachable(g, source, target) {
      var q :| PathFromTo(g, q, source, target);
      ClosedUnderEdges(g, source, dist, seen, q);
      assert false;
    }
  }

  /** Nothing is reachable from a node outside the graph. */
  lemma {:induction false} OutsideUnreachable(g: Graph, source: Node, target: Node)
    requires source !in g.nodes
    ensures !Reachable(g, source, target)
  {
  }

  /** Staying put is a shortest path from a node to itself, of weight zero. */
  lemma {:induction false} StayIsShortest(g: Graph, source: Node)
    requires g.NonNegative() && source in g.nodes
    ensures IsShortest(g, [source], source, source) && PathWeight(g, [source]) == 0.0
  {
    assert PathFromTo(g, [source], source, source);
    forall q | PathFromTo(g, q, source, source) ensures 0.0 <= PathWeight(g, q) {
      PathWeightNonNegative(g, q);
    }
  }

  /** The search starts with the source reached at distance zero and nothing settled. */
  lemma {:induction false} SearchStart(g: Graph, source: Node)
    requires source in g.nodes
    ensures Tentative(g, source, map[source := 0.0], map[source := [source]])
    ensures Settled(g, source, map[], map[source := 0.0])
    ensures Relaxed(g, map[], map[source := 0.0])
  {
    assert PathFromTo(g, [source], source, source);
    assert Witnessed(g, source, source, 0.0, [source]);
  }

  /** Settling a reached node at a distance no path undercuts keeps `Settled`. */
  lemma {:induction false} SettleOne(g: Graph, source: Node, dist: map<Node, real>, seen: map<Node, real>, v: Node)
    requires Settled(g, source, dist, seen) && v in seen && NoShorter(g, source, v, seen[v])
    ensures Settled(g, source, dist[v := seen[v]], seen)
  {
    var d := dist[v := seen[v]];
    forall x | x in d ensures d[x] == seen[x] && NoShorter(g, source, x, d[x]) {
      if x != v {
        assert x in dist;
      }
    }
  }

  /** The heap pop: an unsettled reached node of least tentative distance,
      whose tentative distance is then its shortest. */
  method Nearest(g: Graph, source: Node, dist: map<Node, real>, seen: map<Node, real>,
                 paths: map<Node, seq<Node>>) returns (v: Node)
    requires g.NonNegative()
    requires Tentative(g, source, seen, paths) && Settled(g, source, dist, seen) && Relaxed(g, dist, seen)
    requires seen.Keys - dist.Keys != {}
    ensures v in seen && v !in dist
    ensures forall x | x in seen && x !in dist :: seen[v] <= seen[x]
    ensures NoShorter(g, source, v, seen[v])
  {
    ghost var least := LeastOf(seen, seen.Keys - dist.Keys);
    v :| v in seen.Keys - dist.Keys && forall x | x in seen.Keys - dist.Keys :: seen[v] <= seen[x];
    LeastIsShortest(g, source, dist, seen, paths, v);
  }

  /** networkx's `_dijkstra_multisource` from one source, stopping once `target`
      is settled: the least total weight of a path from `source` to `target`
      and such a path, or None when there is none. */
  method Dijkstra(g: Graph, source: Node, target: Node) returns (r: Option<(real, seq<Node>)>)
    requires g.Valid() && g.NonNegative()
    ensures r.None? <==> !Reachable(g, source, target)
    ensures r.Some? ==> IsShortest(g, r.value.1, source, target) && r.value.0 == PathWeight(g, r.value.1)
  {
    if source !in g.nodes {
      OutsideUnreachable(g, source, target);
      return None;
    }
    if source == target {
      StayIsShortest(g, source);
      return Some((0.0, [source]));
    }
    r := Search(g, source, target);
  }

  /** The main loop of `_dijkstra_multisource`: pop the nearest reached node,
      settle it, stop if it is the target, otherwise relax its edges. */
  method Search(g: Graph, source: Node, target: Node) returns (r: Option<(real, seq<Node>)>)
    requires g.Valid() && g.NonNegative() && source in g.nodes && source != target
    ensures r.None? <==> !Reachable(g, source, target)
    ensures r.Some? ==> IsShortest(g, r.value.1, source, target) && r.value.0 == PathWeight(g, r.value.1)
  {
    var dist: map<Node, real> := map[];
    var seen: map<Node, real> := map[source := 0.0];
    var paths: map<Node, seq<Node>> := map[source := [source]];
    SearchStart(g, source);
    while seen.Keys - dist.Keys != {}
      invariant Tentative(g, source, seen, paths)
      invariant Settled(g, source, dist, seen)
      invariant Relaxed(g, dist, seen)
      invariant target !in dist
      decreases g.nodes - dist.Keys
    {
      var v := Nearest(g, source, dist, seen, paths);
      ghost var distBefore := dist;
      SettleOne(g, source, dist, seen, v);
      dist := dist[v := seen[v]];
      if v == target {
        SettledIsShortest(g, source, dist, seen, paths, v);
        return Some((dist[v], paths[v]));
      }
      ghost var seenBefore := seen;
      seen, paths := RelaxFrom(g, source, dist, seen, paths, v);
      RelaxedAfterSettling(g, distBefore, dist, seenBefore, seen, v);
    }
    ExhaustedUnreachable(g, source, target, dist, seen, paths);
    return None;
  }

  /** `get_journey_time`: the shortest journey time, or None when the source is
      not in the graph or the target cannot be reached. */
  method JourneyTime(g: Graph, source: Node, target: Node) returns (t: Option<real>)
    requires g.Valid() && g.NonNegative()
    ensures t.None? <==> !Reachable(g, source, target)
    ensures t.Some? ==> exists p :: IsShortest(g, p, source, target) && t.value == PathWeight(g, p)
  {
    var r := Dijkstra(g, source, target);
    if r.None? {
      return None;
    }
    return Some(r.value.0);
  }

  /** `get_journey_path`: a shortest path, or None. */
  method JourneyPath(g: Graph, source: Node, target: Node) returns (p: Option<seq<Node>>)
    requires g.Valid() && g.NonNegative()
    ensures p.None? <==> !Reachable(g, source, target)
    ensures p.Some? ==> IsShortest(g, p.value, source, target)
  {
    var r := Dijkstra(g, source, target);
    if r.None? {
      return None;
    }
    return Some(r.value.1);
  }

  /** Two shortest paths between the same nodes weigh the same: the journey
      time does not depend on which shortest path the search settles on. */
  lemma {:induction false} ShortestWeightUnique(g: Graph, p: seq<Node>, q: seq<Node>, a: Node, b: Node)
    requires IsShortest(g, p, a, b) && IsShortest(g, q, a, b)
    ensures PathWeight(g, p) == PathWeight(g, q)
  {
  }

  // ---------------------------------------------------------------------------
  // Lines used along a path
  // ---------------------------------------------------------------------------

  /** The line of the step from `p[i]` to `p[i + 1]`, when it is a ride on a line. */
  predicate RideStep(g: Graph, p: seq<Node>, i: int)
  {
    && 0 <= i < |p| - 1
    && (p[i], p[i + 1]) in g.edges
    && g.edges[(p[i], p[i + 1])].line != TRANSFER
    && g.edges[(p[i], p[i + 1])].line != WALKING
  }

  /** The lines ridden along `p`: transfer and walking steps are not lines. */
  function LinesOf(g: Graph, p: seq<Node>): set<Line>
  {
    set i | 0 <= i < |p| - 1 && RideStep(g, p, i) :: g.edges[(p[i], p[i + 1])].line
  }

  /** `get_lines_used`. */
  method LinesUsed(g: Graph, path: seq<Node>) returns (lines: set<Line>)
    ensures lines == LinesOf(g, path)
  {
    lines := {};
    if |path| == 0 {
      return;
    }
    for i := 0 to |path| - 1
      invariant lines == set j | 0 <= j < i && RideStep(g, path, j) :: g.edges[(path[j], path[j + 1])].line
    {
      ghost var upTo := set j | 0 <= j < i && RideStep(g, path, j) :: g.edges[(path[j], path[j + 1])].line;
      ghost var next := set j | 0 <= j < i + 1 && RideStep(g, path, j) :: g.edges[(path[j], path[j + 1])].line;
      var e := (path[i], path[i + 1]);
      if e in g.edges && g.edges[e].line != TRANSFER && g.edges[e].line != WALKING {
        assert RideStep(g, path, i);
        assert next == upTo + {g.edges[e].line};
        lines := lines + {g.edges[e].line};
      } else {
        assert !RideStep(g, path, i);
        assert next == upTo;
      }
    }
  }

  /** The lines of a journey made of two legs meeting at a node are the lines
      of the two legs. */
  lemma {:induction false} LinesOfJoin(g: Graph, p: seq<Node>, q: seq<Node>)
    requires |p| >= 1 && |q| >= 1 && p[|p| - 1] == q[0]
    ensures LinesOf(g, p + q[1..]) == LinesOf(g, p) + LinesOf(g, q)
  {
    var pq := p + q[1..];
    forall l ensures l in LinesOf(g, pq) <==> l in LinesOf(g, p) + LinesOf(g, q) {
      if l in LinesOf(g, pq) {
        var i :| 0 <= i < |pq| - 1 && RideStep(g, pq, i) && g.edges[(pq[i], pq[i + 1])].line == l;
        if i < |p| - 1 {
          assert RideStep(g, p, i);
        } else {
          var j := i - (|p| - 1);
          assert pq[i] == q[j] && pq[i + 1] == q[j + 1];
          assert RideStep(g, q, j);
        }
      }
      if l in LinesOf(g, p) {
        var i :| 0 <= i < |p| - 1 && RideStep(g, p, i) && g.edges[(p[i], p[i + 1])].line == l;
        assert pq[i] == p[i] && pq[i + 1] == p[i + 1];
        assert RideStep(g, pq, i);
      }
      if l in LinesOf(g, q) {
        var j :| 0 <= j < |q| - 1 && RideStep(g, q, j) && g.edges[(q[j], q[j + 1])].line == l;
        var i := j + |p| - 1;
        assert pq[i] == q[j] && pq[i + 1] == q[j + 1];
        assert RideStep(g, pq, i);
      }
    }
  }
}
