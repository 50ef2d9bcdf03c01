/** findPath (utils/graph.ts): the configuration is resolved, missing
    endpoints give no route, the search runs over (node, may walk) states
    with getNeighbors as its moves, and the best end state found is turned
    into a route by reconstructPath. */
module Planner {
  import opened Wrappers
  import opened Geometry
  import opened GraphStore
  import opened Paths
  import opened Search
  import opened Moves
  import opened Route

  /** `p` is a legal sequence of moves from the start (which may walk) that
      ends on the destination node. */
  ghost predicate Reaches(g: Store, cfg: Config, dist: (Point, Point) -> real,
                          startId: string, endId: string, p: seq<Edge>)
    requires Valid(g)
  {
    IsPath(Succ(g, endId, cfg, dist), State(startId, true), p) && Last(State(startId, true), p).node == endId
  }

  /** The states the search can meet form a closed world: every move out of
      a stored node lands on a stored node and costs nothing negative. */
  lemma MovesClosed(g: Store, endId: string, cfg: Config, dist: (Point, Point) -> real)
    requires Valid(g) && LinksResolve(g) && NonNegativeMetric(dist) && NonNegativeWeightsConfig(cfg)
    ensures Closed(Succ(g, endId, cfg, dist), Universe(g))
  {
    var succ := Succ(g, endId, cfg, dist);
    forall s, e | s in Universe(g) && e in succ(s) ensures e.target in Universe(g) && e.weight >= 0.0 {
      MovesStayInStore(g, endId, cfg, dist, s, e);
    }
  }

  /** Along a route that reaches the destination only at its end, every node
      strictly between the two endpoints is a translocator, provided every
      resolving link names a translocator. */
  lemma {:induction false} InteriorIsTranslocators(g: Store, cfg: Config, dist: (Point, Point) -> real,
                                                   startId: string, endId: string, p: seq<Edge>)
    requires Valid(g) && LinksResolve(g) && PartnersAreTranslocators(g) && startId in g.nodes
    requires IsPath(Succ(g, endId, cfg, dist), State(startId, true), p)
    requires forall i :: 0 <= i < |p| ==> StateAt(State(startId, true), p, i).node != endId
    ensures forall i :: 0 < i < |p| ==> StateAt(State(startId, true), p, i).node in g.nodes
    ensures forall i :: 0 < i < |p| ==> g.nodes[StateAt(State(startId, true), p, i).node].kind == Translocator
  {
    var s0 := State(startId, true);
    var succ := Succ(g, endId, cfg, dist);
    forall i | 0 < i < |p|
      ensures StateAt(s0, p, i).node in g.nodes && g.nodes[StateAt(s0, p, i).node].kind == Translocator
    {
      var s := StateAt(s0, p, i - 1);
      assert p[i - 1] in succ(s);
      assert p[i - 1].target == StateAt(s0, p, i);
      MoveTargetStored(g, endId, cfg, dist, s, p[i - 1]);
      MovesAvoidLandmarks(g, endId, cfg, dist, s, p[i - 1]);
    }
  }

  /** The two-move route that teleports from a linked translocator onto
      its partner `a` and walks on from there to the destination. */
  function Detour(h: Store, cfg: Config, dist: (Point, Point) -> real, a: string, endId: string): seq<Edge>
    requires a in h.nodes && endId in h.nodes
  {
    [Edge(State(a, true), cfg.teleportWeight, Teleport),
     Edge(State(endId, true), CalculateDistance(dist, h.nodes[a], h.nodes[endId]) * cfg.walkWeightMultiplier, Walk)]
  }

  /** A translocator linked to a node in walking range of the destination
      has a legal route through that node, whatever its kind. */
  lemma RouteThroughPartner(h: Store, cfg: Config, dist: (Point, Point) -> real,
                            a: string, b: string, endId: string)
    requires Valid(h) && a in h.nodes && b in h.nodes && endId in h.nodes
    requires h.nodes[b].kind == Translocator && HasLink(h.nodes[b]) && h.nodes[b].linked == Some(a)
    requires endId != a && endId != b
    requires CalculateDistance(dist, h.nodes[a], h.nodes[endId]) <= cfg.maxWalkDistance
    ensures Reaches(h, cfg, dist, b, endId, Detour(h, cfg, dist, a, endId))
    ensures StateAt(State(b, true), Detour(h, cfg, dist, a, endId), 1).node == a
    ensures forall i :: 0 <= i < 2 ==> StateAt(State(b, true), Detour(h, cfg, dist, a, endId), i).node != endId
  {
    var p := Detour(h, cfg, dist, a, endId);
    DetourMoves(h, cfg, dist, a, b, endId);
    TwoStepPath(Succ(h, endId, cfg, dist), State(b, true), p[0], p[1]);
    assert p == [p[0], p[1]];
  }

  /** Both moves of the detour are ones the search explores. */
  lemma DetourMoves(h: Store, cfg: Config, dist: (Point, Point) -> real, a: string, b: string, endId: string)
    requires Valid(h) && a in h.nodes && b in h.nodes && endId in h.nodes
    requires h.nodes[b].kind == Translocator && HasLink(h.nodes[b]) && h.nodes[b].linked == Some(a)
    requires CalculateDistance(dist, h.nodes[a], h.nodes[endId]) <= cfg.maxWalkDistance
    ensures Detour(h, cfg, dist, a, endId)[0] in Succ(h, endId, cfg, dist)(State(b, true))
    ensures Detour(h, cfg, dist, a, endId)[1] in Succ(h, endId, cfg, dist)(State(a, true))
  {
    var p := Detour(h, cfg, dist, a, endId);
    assert IsMove(h, endId, cfg, dist, State(b, true), p[0]) by {
      assert TeleportMove(h, cfg, State(b, true), p[0]);
    }
    MoveIsSuccessor(h, endId, cfg, dist, State(b, true), p[0]);
    assert IsMove(h, endId, cfg, dist, State(a, true), p[1]) by {
      assert WalkToEndMove(h, endId, cfg, dist, State(a, true), p[1]);
    }
    MoveIsSuccessor(h, endId, cfg, dist, State(a, true), p[1]);
  }

  /** addNode over a linked translocator with a landmark leaves the old
      partner's link in place, so a legal route can teleport onto the
      landmark and walk on from it: a landmark strictly inside a route, in
      a store that still meets findPath's requirements. */
  lemma OverwriteLeavesLandmarkInside(g: Store, cfg: Config, dist: (Point, Point) -> real,
                                      a: string, b: string, endId: string, location: Point,
                                      description: Option<string>, color: Option<string>)
    requires Consistent(g) && a in g.nodes && g.nodes[a].linked == Some(b) && a != b
    requires endId in g.nodes && endId != a && endId != b
    requires dist(location, g.nodes[endId].location) <= cfg.maxWalkDistance
    ensures var h := AddNode(g, a, location, Landmark, description, color);
            && Valid(h) && LinksResolve(h) && !PartnersAreTranslocators(h)
            && h.nodes[a].kind == Landmark
            && Reaches(h, cfg, dist, b, endId, Detour(h, cfg, dist, a, endId))
            && StateAt(State(b, true), Detour(h, cfg, dist, a, endId), 1).node == a
  {
    var h := AddNode(g, a, location, Landmark, description, color);
    OverwriteOrphansPartner(g, a, b, location, description, color);
    assert h.nodes[endId] == g.nodes[endId] && h.nodes[a].location == location;
    RouteThroughPartner(h, cfg, dist, a, b, endId);
  }

  /** With the corrected addNode the store keeps every link resolving to a
      translocator, so InteriorIsTranslocators applies to every route. */
  lemma ReleasingAddKeepsLandmarksAtEnds(g: Store, id: string, location: Point, kind: Kind,
                                         description: Option<string>, color: Option<string>)
    requires Consistent(g)
    ensures var h := AddNodeReleasing(g, id, location, kind, description, color);
            Valid(h) && LinksResolve(h) && PartnersAreTranslocators(h)
  {
    ReleasingAddPreservesConsistent(g, id, location, kind, description, color);
    ConsistentResolves(AddNodeReleasing(g, id, location, kind, description, color));
  }

  /** `r` is the route of `route`, a legal route of least total weight from
      `startId` to `endId`. */
  ghost predicate BestRoute(g: Store, cfg: Config, dist: (Point, Point) -> real,
                            startId: string, endId: string, route: seq<Edge>, r: PathResult)
    requires Valid(g)
  {
    && startId in g.nodes
    && Reaches(g, cfg, dist, startId, endId, route)
    && InStore(g, State(startId, true), route)
    && r == Render(g, dist, State(startId, true), route)
    && ValidRoute(g, cfg, dist, startId, endId, r)
    && forall p :: Reaches(g, cfg, dist, startId, endId, p) ==> Cost(route) <= Cost(p)
  }

  /** The end of findPath once the search has found a best end state: the
      route is rebuilt from the predecessor map. */
  method Conclude(g: Store, cfg: Config, dist: (Point, Point) -> real, startId: string, endId: string,
                  best: State, prev: map<State, Pred>, ghost bestPath: seq<Edge>)
    returns (r: PathResult)
    requires Valid(g) && LinksResolve(g) && startId in g.nodes
    requires Reaches(g, cfg, dist, startId, endId, bestPath)
    requires Last(State(startId, true), bestPath) == best
    requires ChainFollows(prev, State(startId, true), bestPath)
    requires forall i :: 0 <= i < |bestPath| ==> StateAt(State(startId, true), bestPath, i).node != endId
    requires forall p :: Reaches(g, cfg, dist, startId, endId, p) ==> Cost(bestPath) <= Cost(p)
    ensures BestRoute(g, cfg, dist, startId, endId, bestPath, r)
    ensures PartnersAreTranslocators(g) ==>
              forall i :: 0 < i < |r.nodes| - 1 ==> r.nodes[i] in g.nodes && g.nodes[r.nodes[i]].kind == Translocator
    ensures startId == endId ==> r == PathResult([startId], 0, [])
  {
    var start := State(startId, true);
    RenderIsValidRoute(g, cfg, dist, startId, endId, bestPath);
    r := ReconstructPath(g, dist, best, prev, start, bestPath);
    if PartnersAreTranslocators(g) {
      InteriorIsTranslocators(g, cfg, dist, startId, endId, bestPath);
      forall i | 0 < i < |r.nodes| - 1
        ensures r.nodes[i] in g.nodes && g.nodes[r.nodes[i]].kind == Translocator
      {
        assert r.nodes[i] == StateAt(start, bestPath, i).node;
      }
    }
    if startId == endId {
      assert StateAt(start, bestPath, 0).node == endId;
      assert |bestPath| == 0;
      assert r.nodes == [startId];
      assert r.segments == [];
    }
  }

  /** findPath. With both endpoints stored it returns a route exactly when
      one exists, and then a valid route of least total weight among all
      legal routes: the rendering of the (ghost) path of moves `route`. */
  method FindPath(g: Store, startId: string, endId: string, overrides: Overrides, dist: (Point, Point) -> real)
    returns (r: Option<PathResult>, ghost route: seq<Edge>)
    requires Valid(g) && LinksResolve(g) && IsBlockMetric(dist)
    requires NonNegativeWeightsConfig(ResolveConfig(overrides))
    ensures startId !in g.nodes || endId !in g.nodes ==> r.None?
    ensures r.None? && startId in g.nodes && endId in g.nodes ==>
              forall p :: !Reaches(g, ResolveConfig(overrides), dist, startId, endId, p)
    ensures r.Some? ==> BestRoute(g, ResolveConfig(overrides), dist, startId, endId, route, r.value)
    ensures r.Some? && PartnersAreTranslocators(g) ==>
              forall i :: 0 < i < |r.value.nodes| - 1 ==>
                r.value.nodes[i] in g.nodes && g.nodes[r.value.nodes[i]].kind == Translocator
    ensures startId == endId && startId in g.nodes ==> r == Some(PathResult([startId], 0, []))
  {
    var cfg := ResolveConfig(overrides);
    route := [];
    if startId !in g.nodes || endId !in g.nodes {
      return None, route;
    }
    var start := State(startId, true);
    var succ := Succ(g, endId, cfg, dist);
    MetricIsNonNegative(dist);
    MovesClosed(g, endId, cfg, dist);
    assert IsPath(succ, start, []) && Last(start, []) == start;
    var best, prev, bestPath := Search.Search(succ, start, endId, Universe(g));
    if best.None? {
      return None, route;
    }
    route := bestPath;
    var result := Conclude(g, cfg, dist, startId, endId, best.value, prev, route);
    return Some(result), route;
  }
}
