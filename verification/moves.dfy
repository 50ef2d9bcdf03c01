/** The movement rules of the planner (utils/graph.ts): the configuration,
    calculateDistance, and getNeighbors, which lists the moves out of a
    search state. A state is a node together with whether walking is still
    allowed; walking to a translocator takes that permission away, so the
    next move has to be that translocator's teleport. */
module Moves {
  import opened Wrappers
  import opened Geometry
  import opened GraphStore
  import opened Paths

  /** PathfindingConfig. */
  datatype Config = Config(maxWalkDistance: real, walkWeightMultiplier: real, teleportWeight: real)

  /** DEFAULT_CONFIG. */
  const DefaultConfig: Config := Config(500.0, 1.0, 0.1)

  /** The `Partial<PathfindingConfig>` argument of findPath: a field that is
      absent takes its default. */
  datatype Overrides = Overrides(
    maxWalkDistance: Option<real>,
    walkWeightMultiplier: Option<real>,
    teleportWeight: Option<real>)

  const NoOverrides: Overrides := Overrides(None, None, None)

  /** `{ ...DEFAULT_CONFIG, ...config }`: each field given by the caller
      replaces the default, and only that field. */
  function ResolveConfig(o: Overrides): (c: Config)
    ensures c.maxWalkDistance
              == if o.maxWalkDistance.Some? then o.maxWalkDistance.value else DefaultConfig.maxWalkDistance
    ensures c.walkWeightMultiplier
              == if o.walkWeightMultiplier.Some? then o.walkWeightMultiplier.value
                 else DefaultConfig.walkWeightMultiplier
    ensures c.teleportWeight
              == if o.teleportWeight.Some? then o.teleportWeight.value else DefaultConfig.teleportWeight
  {
    Config(
      if o.maxWalkDistance.Some? then o.maxWalkDistance.value else 500.0,
      if o.walkWeightMultiplier.Some? then o.walkWeightMultiplier.value else 1.0,
      if o.teleportWeight.Some? then o.teleportWeight.value else 0.1)
  }

  /** Without overrides findPath runs with the defaults, and giving every
      field yields exactly the given values. */
  lemma ResolveConfigDefaults(m: real, w: real, t: real)
    ensures ResolveConfig(NoOverrides) == DefaultConfig
    ensures ResolveConfig(Overrides(Some(m), Some(w), Some(t))) == Config(m, w, t)
  {
  }

  /** The weights a configuration gives are never negative. */
  predicate NonNegativeWeightsConfig(cfg: Config)
  {
    cfg.walkWeightMultiplier >= 0.0 && cfg.teleportWeight >= 0.0
  }

  /** calculateDistance: the planar distance between two nodes' locations. */
  function CalculateDistance(dist: (Point, Point) -> real, a: Node, b: Node): (d: real)
    ensures IsBlockMetric(dist) ==> IsBlockDistance(d, a.location, b.location)
  {
    dist(a.location, b.location)
  }

  /** calculateDistance agrees with calculateBlockDistance (utils/game.ts):
      the same square root of dx*dx + dz*dz, in either order. */
  lemma CalculateDistanceIsBlockDistance(dist: (Point, Point) -> real, a: Node, b: Node)
    requires IsBlockMetric(dist)
    ensures IsBlockDistance(CalculateDistance(dist, a, b), a.location, b.location)
    ensures CalculateDistance(dist, a, b) == CalculateDistance(dist, b, a)
  {
    assert IsBlockDistance(dist(a.location, b.location), a.location, b.location);
    BlockDistanceSymmetric(dist, a.location, b.location);
  }

  /** The walks the loop over the store offers from `cur` (stored at
      `from`), taking the ids in `ids` in order: to every other translocator
      within range except `cur`'s own partner, arriving unable to walk. */
  function WalkTargets(g: Store, cfg: Config, dist: (Point, Point) -> real,
                       from: string, cur: Node, ids: seq<string>): (r: seq<Edge>)
    requires forall id :: id in ids ==> id in g.nodes
    ensures |r| <= |ids|
    ensures forall e :: e in r ==>
              && e.mode == Walk && !e.target.canWalk
              && e.target.node in ids && e.target.node != from
              && g.nodes[e.target.node].kind == Translocator && cur.linked != Some(e.target.node)
              && CalculateDistance(dist, cur, g.nodes[e.target.node]) <= cfg.maxWalkDistance
  {
    if ids == [] then []
    else
      var id := ids[0];
      var node := g.nodes[id];
      var rest := WalkTargets(g, cfg, dist, from, cur, ids[1..]);
      if node.kind != Translocator || id == from || cur.linked == Some(id) then rest
      else
        var d := CalculateDistance(dist, cur, node);
        if d <= cfg.maxWalkDistance then [Edge(State(id, false), d * cfg.walkWeightMultiplier, Walk)] + rest
        else rest
  }

  /** getNeighbors. The current node must be stored (the source dereferences
      it unconditionally). In order: the teleport of a linked translocator;
      then, if walking is allowed, the walk to the destination when it is in
      range, and the walks to translocators in store order. */
  function Neighbors(g: Store, endId: string, cfg: Config, dist: (Point, Point) -> real, s: State)
    : (r: seq<Edge>)
    requires Valid(g) && s.node in g.nodes
    ensures !s.canWalk ==> forall e :: e in r ==> e.mode == Teleport
    ensures |r| <= 2 + |g.order|
  {
    var cur := g.nodes[s.node];
    var teleport :=
      if cur.kind == Translocator && HasLink(cur)
      then [Edge(State(cur.linked.value, true), cfg.teleportWeight, Teleport)]
      else [];
    if !s.canWalk then teleport
    else
      var toEnd :=
        if endId in g.nodes && CalculateDistance(dist, cur, g.nodes[endId]) <= cfg.maxWalkDistance
        then [Edge(State(endId, true), CalculateDistance(dist, cur, g.nodes[endId]) * cfg.walkWeightMultiplier, Walk)]
        else [];
      WalkTargetsBound(g, cfg, dist, s.node, cur, g.order);
      teleport + toEnd + WalkTargets(g, cfg, dist, s.node, cur, g.order)
  }

  lemma {:induction false} WalkTargetsBound(g: Store, cfg: Config, dist: (Point, Point) -> real,
                                            from: string, cur: Node, ids: seq<string>)
    requires forall id :: id in ids ==> id in g.nodes
    ensures |WalkTargets(g, cfg, dist, from, cur, ids)| <= |ids|
  {
    if ids != [] {
      WalkTargetsBound(g, cfg, dist, from, cur, ids[1..]);
    }
  }

  /** The successor function the search explores: getNeighbors on stored
      nodes. */
  function Succ(g: Store, endId: string, cfg: Config, dist: (Point, Point) -> real): State -> seq<Edge>
    requires Valid(g)
  {
    (s: State) => if s.node in g.nodes then Neighbors(g, endId, cfg, dist, s) else []
  }

  /** The teleport rule: a linked translocator sends you to its partner, at
      the teleport weight, able to walk again. */
  ghost predicate TeleportMove(g: Store, cfg: Config, s: State, e: Edge)
    requires s.node in g.nodes
  {
    var cur := g.nodes[s.node];
    && e.mode == Teleport
    && cur.kind == Translocator && HasLink(cur)
    && e.target == State(cur.linked.value, true)
    && e.weight == cfg.teleportWeight
  }

  /** The rule for walking straight to the destination. */
  ghost predicate WalkToEndMove(g: Store, endId: string, cfg: Config, dist: (Point, Point) -> real,
                                s: State, e: Edge)
    requires s.node in g.nodes
  {
    var cur := g.nodes[s.node];
    && e.mode == Walk && s.canWalk
    && endId in g.nodes
    && e.target == State(endId, true)
    && CalculateDistance(dist, cur, g.nodes[endId]) <= cfg.maxWalkDistance
    && e.weight == CalculateDistance(dist, cur, g.nodes[endId]) * cfg.walkWeightMultiplier
  }

  /** The rule for walking to a translocator: another stored translocator,
      not the current node's own partner, within range; on arrival walking
      is no longer allowed. */
  ghost predicate WalkToTranslocatorMove(g: Store, cfg: Config, dist: (Point, Point) -> real,
                                         s: State, e: Edge)
    requires s.node in g.nodes
  {
    var cur := g.nodes[s.node];
    var id := e.target.node;
    && e.mode == Walk && s.canWalk
    && !e.target.canWalk
    && id in g.nodes && g.nodes[id].kind == Translocator
    && id != s.node && cur.linked != Some(id)
    && CalculateDistance(dist, cur, g.nodes[id]) <= cfg.maxWalkDistance
    && e.weight == CalculateDistance(dist, cur, g.nodes[id]) * cfg.walkWeightMultiplier
  }

  /** The movement rules, stated independently of how getNeighbors builds
      its list. */
  ghost predicate IsMove(g: Store, endId: string, cfg: Config, dist: (Point, Point) -> real,
                         s: State, e: Edge)
    requires s.node in g.nodes
  {
    || TeleportMove(g, cfg, s, e)
    || WalkToEndMove(g, endId, cfg, dist, s, e)
    || WalkToTranslocatorMove(g, cfg, dist, s, e)
  }

  /** The walks to translocators listed for `ids` are exactly the
      translocator walks whose target is one of `ids`. */
  lemma {:induction false} WalkTargetsExactly(g: Store, cfg: Config, dist: (Point, Point) -> real,
                                              s: State, ids: seq<string>, e: Edge)
    requires s.node in g.nodes && s.canWalk
    requires forall id :: id in ids ==> id in g.nodes
    ensures (e in WalkTargets(g, cfg, dist, s.node, g.nodes[s.node], ids))
            <==> (e.target.node in ids && WalkToTranslocatorMove(g, cfg, dist, s, e))
  {
    if ids != [] {
      WalkTargetsExactly(g, cfg, dist, s, ids[1..], e);
      assert e.target.node in ids <==> e.target.node == ids[0] || e.target.node in ids[1..] by {
        assert ids == [ids[0]] + ids[1..];
      }
      var id, cur := ids[0], g.nodes[s.node];
      var rest := WalkTargets(g, cfg, dist, s.node, cur, ids[1..]);
      if g.nodes[id].kind == Translocator && id != s.node && cur.linked != Some(id)
         && CalculateDistance(dist, cur, g.nodes[id]) <= cfg.maxWalkDistance {
        var head := Edge(State(id, false), CalculateDistance(dist, cur, g.nodes[id]) * cfg.walkWeightMultiplier, Walk);
        var w := WalkTargets(g, cfg, dist, s.node, cur, ids);
        assert w[0] == head && w[1..] == rest;
        assert w == [head] + rest;
        assert e == head ==> WalkToTranslocatorMove(g, cfg, dist, s, e);
      } else {
        assert WalkTargets(g, cfg, dist, s.node, cur, ids) == rest;
      }
    }
  }

  /** getNeighbors lists exactly the moves the rules allow. */
  lemma NeighborsExactlyMoves(g: Store, endId: string, cfg: Config, dist: (Point, Point) -> real,
                              s: State, e: Edge)
    requires Valid(g) && s.node in g.nodes
    ensures e in Neighbors(g, endId, cfg, dist, s) <==> IsMove(g, endId, cfg, dist, s, e)
  {
    if s.canWalk {
      WalkTargetsExactly(g, cfg, dist, s, g.order, e);
    }
  }

  /** A move the rules allow is one the search explores. */
  lemma MoveIsSuccessor(g: Store, endId: string, cfg: Config, dist: (Point, Point) -> real,
                        s: State, e: Edge)
    requires Valid(g) && s.node in g.nodes && IsMove(g, endId, cfg, dist, s, e)
    ensures e in Succ(g, endId, cfg, dist)(s)
  {
    NeighborsExactlyMoves(g, endId, cfg, dist, s, e);
  }

  /** A state of the search: a stored node, able to walk or not. */
  function Universe(g: Store): (u: set<State>)
    ensures forall s: State :: s in u <==> s.node in g.nodes
  {
    var u := (set n | n in g.nodes :: State(n, true)) + (set n | n in g.nodes :: State(n, false));
    assert forall s: State :: s.node in g.nodes ==> s in u by {
      forall s: State | s.node in g.nodes ensures s in u {
        if s.canWalk {
          assert s == State(s.node, true);
        } else {
          assert s == State(s.node, false);
        }
      }
    }
    u
  }

  /** Only stored nodes have moves, and with every link resolving each move
      lands on a stored node. */
  lemma MoveTargetStored(g: Store, endId: string, cfg: Config, dist: (Point, Point) -> real,
                         s: State, e: Edge)
    requires Valid(g) && LinksResolve(g) && e in Succ(g, endId, cfg, dist)(s)
    ensures s.node in g.nodes && e.target.node in g.nodes
  {
    NeighborsExactlyMoves(g, endId, cfg, dist, s, e);
  }

  /** With every link resolving, a non-negative distance and non-negative
      weights, no move leaves the stored nodes and none has a negative
      weight. */
  lemma MovesStayInStore(g: Store, endId: string, cfg: Config, dist: (Point, Point) -> real,
                         s: State, e: Edge)
    requires Valid(g) && LinksResolve(g) && NonNegativeMetric(dist) && NonNegativeWeightsConfig(cfg)
    requires s.node in g.nodes && e in Neighbors(g, endId, cfg, dist, s)
    ensures e.target.node in g.nodes && e.weight >= 0.0
  {
    NeighborsExactlyMoves(g, endId, cfg, dist, s, e);
    MoveStaysInStore(g, endId, cfg, dist, s, e);
  }

  /** The same, stated for the movement rules themselves. */
  lemma MoveStaysInStore(g: Store, endId: string, cfg: Config, dist: (Point, Point) -> real,
                         s: State, e: Edge)
    requires LinksResolve(g) && NonNegativeMetric(dist) && NonNegativeWeightsConfig(cfg)
    requires s.node in g.nodes && IsMove(g, endId, cfg, dist, s, e)
    ensures e.target.node in g.nodes && e.weight >= 0.0
  {
    if TeleportMove(g, cfg, s, e) {
      TeleportStaysInStore(g, cfg, s, e);
    } else if WalkToEndMove(g, endId, cfg, dist, s, e) {
      WalkToEndStaysInStore(g, endId, cfg, dist, s, e);
    } else {
      WalkToTranslocatorStaysInStore(g, cfg, dist, s, e);
    }
  }

  lemma WalkToEndStaysInStore(g: Store, endId: string, cfg: Config, dist: (Point, Point) -> real,
                              s: State, e: Edge)
    requires NonNegativeMetric(dist) && NonNegativeWeightsConfig(cfg)
    requires s.node in g.nodes && WalkToEndMove(g, endId, cfg, dist, s, e)
    ensures e.target.node in g.nodes && e.weight >= 0.0
  {
    WalkWeightNonNegative(cfg, dist, g.nodes[s.node], g.nodes[endId], e.weight);
  }

  lemma WalkToTranslocatorStaysInStore(g: Store, cfg: Config, dist: (Point, Point) -> real,
                                       s: State, e: Edge)
    requires NonNegativeMetric(dist) && NonNegativeWeightsConfig(cfg)
    requires s.node in g.nodes && WalkToTranslocatorMove(g, cfg, dist, s, e)
    ensures e.target.node in g.nodes && e.weight >= 0.0
  {
    WalkWeightNonNegative(cfg, dist, g.nodes[s.node], g.nodes[e.target.node], e.weight);
  }

  /** A teleport lands on a stored partner at the configured cost. */
  lemma TeleportStaysInStore(g: Store, cfg: Config, s: State, e: Edge)
    requires LinksResolve(g) && NonNegativeWeightsConfig(cfg)
    requires s.node in g.nodes && TeleportMove(g, cfg, s, e)
    ensures e.target.node in g.nodes && e.weight >= 0.0
  {
    assert HasLink(g.nodes[s.node]);
  }

  /** A walk costs its length times the non-negative multiplier. */
  lemma WalkWeightNonNegative(cfg: Config, dist: (Point, Point) -> real, a: Node, b: Node, w: real)
    requires NonNegativeMetric(dist) && NonNegativeWeightsConfig(cfg)
    requires w == CalculateDistance(dist, a, b) * cfg.walkWeightMultiplier
    ensures w >= 0.0
  {
    var d := CalculateDistance(dist, a, b);
    assert d >= 0.0 by { assert d == dist(a.location, b.location); }
    NonNegativeProduct(d, cfg.walkWeightMultiplier);
  }

  /** A move whose target is not the destination lands on a translocator,
      provided every resolving link names a translocator: landmarks other
      than the destination are never entered. */
  lemma MovesAvoidLandmarks(g: Store, endId: string, cfg: Config, dist: (Point, Point) -> real,
                            s: State, e: Edge)
    requires Valid(g) && PartnersAreTranslocators(g)
    requires s.node in g.nodes && e in Neighbors(g, endId, cfg, dist, s)
    requires e.target.node != endId && e.target.node in g.nodes
    ensures g.nodes[e.target.node].kind == Translocator
  {
    NeighborsExactlyMoves(g, endId, cfg, dist, s, e);
  }

  /** A truthy link naming a node that is not stored still yields a
      teleport move, to a state whose node getNeighbors cannot look up. */
  lemma DanglingLinkLeavesStore(g: Store, endId: string, cfg: Config, dist: (Point, Point) -> real, s: State)
    requires Valid(g) && s.node in g.nodes
    requires g.nodes[s.node].kind == Translocator && HasLink(g.nodes[s.node])
    requires g.nodes[s.node].linked.value !in g.nodes
    ensures Edge(State(g.nodes[s.node].linked.value, true), cfg.teleportWeight, Teleport)
              in Neighbors(g, endId, cfg, dist, s)
  {
  }
}
