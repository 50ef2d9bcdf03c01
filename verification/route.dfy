/** reconstructPath (utils/graph.ts): turning the predecessor chain the
    search leaves behind into the route handed to the map, with one segment
    per move and distances in blocks rounded the way Math.round does. */
module Route {
  import opened Wrappers
  import opened Geometry
  import opened GraphStore
  import opened Paths
  import opened Moves

  /** PathSegment. `distance` is the rounded length in blocks. */
  datatype Segment = Segment(from: string, to: string, mode: Mode, distance: int)

  /** PathResult. */
  datatype PathResult = PathResult(nodes: seq<string>, totalDistance: int, segments: seq<Segment>)

  /** One entry of the chain reconstructPath builds: a state and the kind of
      move that reached it (`None` for the first state). */
  datatype Link = Link(state: State, mode: Option<Mode>)

  /** Math.round: the nearest integer, a half rounded up. */
  function Round(x: real): (n: int)
    ensures n as real - 0.5 <= x < n as real + 0.5
  {
    (x + 0.5).Floor
  }

  /** Round picks the one integer within half a unit below or under half a
      unit above; whole numbers are left alone. */
  lemma RoundIsNearest(x: real, m: int)
    ensures (m as real - 0.5 <= x < m as real + 0.5) <==> m == Round(x)
    ensures Round(m as real) == m
  {
    var n := Round(x);
    if m as real - 0.5 <= x < m as real + 0.5 {
      assert m - 1 < n < m + 1 by {
        assert (m - n) as real < 1.0 && (n - m) as real < 1.0;
      }
    }
    var r := Round(m as real);
    assert r - 1 < m < r + 1 by {
      assert (r - m) as real < 1.0 && (m - r) as real < 1.0;
    }
  }

  /** Every node a path passes through is stored. */
  ghost predicate InStore(g: Store, s0: State, p: seq<Edge>)
  {
    s0.node in g.nodes && forall i :: 0 <= i < |p| ==> p[i].target.node in g.nodes
  }

  /** The unrounded length of one move (utils/graph.ts:306): nothing for a
      teleport, the planar distance between the two nodes for a walk. */
  function SegmentLength(g: Store, dist: (Point, Point) -> real, from: string, to: string, mode: Mode): real
    requires from in g.nodes && to in g.nodes
  {
    if mode == Teleport then 0.0 else CalculateDistance(dist, g.nodes[from], g.nodes[to])
  }

  /** The unrounded length of a list of segments, added up front to back. */
  function SegmentsLength(g: Store, dist: (Point, Point) -> real, segs: seq<Segment>): real
    requires forall i :: 0 <= i < |segs| ==> segs[i].from in g.nodes && segs[i].to in g.nodes
  {
    if |segs| == 0 then 0.0
    else
      var last := segs[|segs| - 1];
      SegmentsLength(g, dist, segs[..|segs| - 1]) + SegmentLength(g, dist, last.from, last.to, last.mode)
  }

  /** The segment of the `i`-th move of a path. */
  function SegmentOf(g: Store, dist: (Point, Point) -> real, s0: State, p: seq<Edge>, i: int): (seg: Segment)
    requires InStore(g, s0, p) && 0 <= i < |p|
    ensures seg.from in g.nodes && seg.to in g.nodes
  {
    var from := StateAt(s0, p, i).node;
    Segment(from, p[i].target.node, p[i].mode, Round(SegmentLength(g, dist, from, p[i].target.node, p[i].mode)))
  }

  /** The nodes a path passes through, the start included. */
  function NodesOf(s0: State, p: seq<Edge>): seq<string>
  {
    seq(|p| + 1, i requires 0 <= i <= |p| => StateAt(s0, p, i).node)
  }

  function SegmentsOf(g: Store, dist: (Point, Point) -> real, s0: State, p: seq<Edge>): (segs: seq<Segment>)
    requires InStore(g, s0, p)
    ensures forall i :: 0 <= i < |segs| ==> segs[i].from in g.nodes && segs[i].to in g.nodes
  {
    seq(|p|, i requires 0 <= i < |p| => SegmentOf(g, dist, s0, p, i))
  }

  /** The route a path describes: its nodes in order, one segment per move
      with the rounded length of that move, and the rounded sum of the
      unrounded lengths. */
  function Render(g: Store, dist: (Point, Point) -> real, s0: State, p: seq<Edge>): PathResult
    requires InStore(g, s0, p)
  {
    var segs := SegmentsOf(g, dist, s0, p);
    PathResult(NodesOf(s0, p), Round(SegmentsLength(g, dist, segs)), segs)
  }

  /** The chain a path induces: its states, each with the move into it. */
  ghost function Links(s0: State, p: seq<Edge>): (c: seq<Link>)
  {
    seq(|p| + 1, i requires 0 <= i <= |p| => Link(StateAt(s0, p, i), if i == 0 then None else Some(p[i - 1].mode)))
  }

  /** The i-th link of a path's chain: the i-th state, entered by the
      i-th move's kind, and no kind for the start. */
  lemma LinkAt(s0: State, p: seq<Edge>, i: nat)
    requires i <= |p|
    ensures |Links(s0, p)| == |p| + 1
    ensures Links(s0, p)[i].state == StateAt(s0, p, i)
    ensures Links(s0, p)[i].mode.Some? <==> i > 0
    ensures i > 0 ==> Links(s0, p)[i].mode.value == p[i - 1].mode
  {
  }

  /** The first loop of reconstructPath: following the predecessor map back
      from the end state retraces the path the map was built along, ending
      at its start, which has no predecessor. `p` and its start are ghost
      witnesses of what the map encodes, and also bound the steps back. */
  method CollectChain(endState: State, prev: map<State, Pred>, ghost s0: State, ghost p: seq<Edge>)
    returns (chain: seq<Link>)
    requires ChainFollows(prev, s0, p) && Last(s0, p) == endState
    ensures chain == Links(s0, p)
  {
    chain := [];
    var current: Option<State> := Some(endState);
    ghost var k: int := |p|;
    ghost var links := Links(s0, p);
    while current.Some?
      invariant 0 <= k <= |p|
      invariant current.Some? ==> current.value == StateAt(s0, p, k) && chain == links[k + 1..]
      invariant current.None? ==> chain == links
      decreases if current.Some? then k + 1 else 0
    {
      var predecessor := if current.value in prev then Some(prev[current.value]) else None;
      if k > 0 {
        ghost var before := StateAt(s0, p, k - 1);
        assert p[k - 1].target in prev && prev[p[k - 1].target] == Pred(before, p[k - 1].mode);
      }
      assert links[k] == Link(current.value, if predecessor.Some? then Some(predecessor.value.mode) else None);
      chain := [Link(current.value, if predecessor.Some? then Some(predecessor.value.mode) else None)] + chain;
      assert chain == links[k..];
      current := if predecessor.Some? then Some(predecessor.value.from) else None;
      if k > 0 {
        k := k - 1;
      } else {
        assert chain == links;
      }
    }
  }

  /** The second loop of reconstructPath: the chain of a path, read front
      to back, gives that path's route. */
  method RenderChain(g: Store, dist: (Point, Point) -> real, chain: seq<Link>, ghost s0: State, ghost p: seq<Edge>)
    returns (r: PathResult)
    requires InStore(g, s0, p) && chain == Links(s0, p)
    ensures r == Render(g, dist, s0, p)
  {
    var nodes: seq<string> := [];
    var segments: seq<Segment> := [];
    var totalDistance: real := 0.0;
    var i := 0;
    while i < |chain|
      invariant 0 <= i <= |chain| == |p| + 1
      invariant |nodes| == i && forall j :: 0 <= j < i ==> nodes[j] == StateAt(s0, p, j).node
      invariant |segments| == (if i == 0 then 0 else i - 1)
      invariant forall j :: 0 <= j < |segments| ==> segments[j] == SegmentOf(g, dist, s0, p, j)
      invariant totalDistance == SegmentsLength(g, dist, segments)
    {
      var state, edgeType := chain[i].state, chain[i].mode;
      LinkAt(s0, p, i);
      nodes := nodes + [state.node];
      if i > 0 && edgeType.Some? {
        LinkAt(s0, p, i - 1);
        var fromNode := g.nodes[chain[i - 1].state.node];
        var toNode := g.nodes[state.node];
        var distance := if edgeType.value == Teleport then 0.0 else CalculateDistance(dist, fromNode, toNode);
        var segment := Segment(chain[i - 1].state.node, state.node, edgeType.value, Round(distance));
        ExtendSegments(g, dist, s0, p, segments, segment, distance);
        segments := segments + [segment];
        totalDistance := totalDistance + distance;
      }
      i := i + 1;
    }
    NodesAt(s0, p);
    assert nodes == NodesOf(s0, p);
    SegmentsAt(g, dist, s0, p);
    assert segments == SegmentsOf(g, dist, s0, p);
    return PathResult(nodes, Round(totalDistance), segments);
  }

  /** Appending the next move's segment keeps the rendered prefix and adds
      that move's unrounded length. */
  lemma ExtendSegments(g: Store, dist: (Point, Point) -> real, s0: State, p: seq<Edge>,
                       segments: seq<Segment>, segment: Segment, distance: real)
    requires InStore(g, s0, p) && |segments| < |p|
    requires forall j :: 0 <= j < |segments| ==> segments[j] == SegmentOf(g, dist, s0, p, j)
    requires segment.from == StateAt(s0, p, |segments|).node && segment.to == p[|segments|].target.node
    requires segment.mode == p[|segments|].mode
    requires distance == SegmentLength(g, dist, segment.from, segment.to, segment.mode)
    requires segment.distance == Round(distance)
    ensures forall j :: 0 <= j < |segments| + 1 ==> (segments + [segment])[j] == SegmentOf(g, dist, s0, p, j)
    ensures forall j :: 0 <= j < |segments| + 1 ==> (segments + [segment])[j].from in g.nodes && (segments + [segment])[j].to in g.nodes
    ensures SegmentsLength(g, dist, segments + [segment]) == SegmentsLength(g, dist, segments) + distance
  {
    assert (segments + [segment])[..|segments|] == segments;
  }

  /** reconstructPath: the route of the path the predecessor map encodes. */
  method ReconstructPath(g: Store, dist: (Point, Point) -> real, endState: State, prev: map<State, Pred>,
                         ghost s0: State, ghost p: seq<Edge>)
    returns (r: PathResult)
    requires ChainFollows(prev, s0, p) && Last(s0, p) == endState && InStore(g, s0, p)
    ensures r == Render(g, dist, s0, p)
  {
    var chain := CollectChain(endState, prev, s0, p);
    r := RenderChain(g, dist, chain, s0, p);
  }

  /** A move as it appears in a route is allowed by the movement rules: a
      teleport goes from a linked translocator to its partner at no
      distance; a walk stays within range, leaves the node it is at, and
      ends at the destination or at a translocator other than the walker's
      own partner. */
  ghost predicate LegalSegment(g: Store, endId: string, cfg: Config, dist: (Point, Point) -> real, s: Segment)
    requires s.from in g.nodes && s.to in g.nodes
  {
    var a, b := g.nodes[s.from], g.nodes[s.to];
    match s.mode
    case Teleport =>
      a.kind == Translocator && HasLink(a) && a.linked.value == s.to && s.distance == 0
    case Walk =>
      && s.from != s.to
      && CalculateDistance(dist, a, b) <= cfg.maxWalkDistance
      && s.distance == Round(CalculateDistance(dist, a, b))
      && (s.to == endId || (b.kind == Translocator && a.linked != Some(s.to)))
  }

  /** The shape of a route from `startId` to `endId`: it starts and ends
      there, reaches the destination only at its end, passes through stored
      nodes, and has one segment between each pair of consecutive nodes. */
  ghost predicate RouteShape(g: Store, startId: string, endId: string, r: PathResult)
  {
    && |r.nodes| == |r.segments| + 1
    && r.nodes[0] == startId && r.nodes[|r.nodes| - 1] == endId
    && (forall i :: 0 <= i < |r.nodes| - 1 ==> r.nodes[i] != endId)
    && (forall i :: 0 <= i < |r.nodes| ==> r.nodes[i] in g.nodes)
    && (forall i :: 0 <= i < |r.segments| ==> r.segments[i].from == r.nodes[i] && r.segments[i].to == r.nodes[i + 1])
  }

  /** Every segment is a legal move, and a walk in the middle of a route is
      followed by a teleport. */
  ghost predicate MovesLegal(g: Store, endId: string, cfg: Config, dist: (Point, Point) -> real, segs: seq<Segment>)
  {
    && (forall i :: 0 <= i < |segs| ==> segs[i].from in g.nodes && segs[i].to in g.nodes)
    && (forall i :: 0 <= i < |segs| ==> LegalSegment(g, endId, cfg, dist, segs[i]))
    && (forall i :: 0 <= i < |segs| - 1 && segs[i].mode == Walk ==> segs[i + 1].mode == Teleport)
  }

  /** What a route from `startId` to `endId` has to look like; the total is
      the rounded sum of the unrounded segment lengths. */
  ghost predicate ValidRoute(g: Store, cfg: Config, dist: (Point, Point) -> real,
                             startId: string, endId: string, r: PathResult)
  {
    && RouteShape(g, startId, endId, r)
    && MovesLegal(g, endId, cfg, dist, r.segments)
    && r.totalDistance == Round(SegmentsLength(g, dist, r.segments))
  }

  /** A legal path stays among the stored nodes when every link resolves. */
  lemma PathInStore(g: Store, endId: string, cfg: Config, dist: (Point, Point) -> real, s0: State, p: seq<Edge>)
    requires Valid(g) && LinksResolve(g) && s0.node in g.nodes
    requires IsPath(Succ(g, endId, cfg, dist), s0, p)
    ensures InStore(g, s0, p)
  {
    forall i | 0 <= i < |p| ensures p[i].target.node in g.nodes {
      var s := StateAt(s0, p, i);
      assert p[i] in Succ(g, endId, cfg, dist)(s);
      MoveTargetStored(g, endId, cfg, dist, s, p[i]);
    }
  }

  /** The rendering of a legal path from the start to the first state at the
      destination is a valid route. */
  lemma RenderIsValidRoute(g: Store, cfg: Config, dist: (Point, Point) -> real,
                           startId: string, endId: string, p: seq<Edge>)
    requires Valid(g) && LinksResolve(g) && startId in g.nodes
    requires IsPath(Succ(g, endId, cfg, dist), State(startId, true), p)
    requires Last(State(startId, true), p).node == endId
    requires forall i :: 0 <= i < |p| ==> StateAt(State(startId, true), p, i).node != endId
    ensures InStore(g, State(startId, true), p)
    ensures ValidRoute(g, cfg, dist, startId, endId, Render(g, dist, State(startId, true), p))
  {
    var s0 := State(startId, true);
    PathInStore(g, endId, cfg, dist, s0, p);
    var r := Render(g, dist, s0, p);
    SegmentModes(g, dist, s0, p, r.segments);
    RenderShape(g, startId, endId, s0, p, r);
    RenderMovesLegal(g, cfg, dist, endId, s0, p);
    assert r.segments == SegmentsOf(g, dist, s0, p);
  }

  lemma RenderShape(g: Store, startId: string, endId: string, s0: State, p: seq<Edge>, r: PathResult)
    requires InStore(g, s0, p) && s0.node == startId
    requires Last(s0, p).node == endId
    requires forall i :: 0 <= i < |p| ==> StateAt(s0, p, i).node != endId
    requires r.nodes == NodesOf(s0, p)
    requires |r.segments| == |p|
    requires forall i :: 0 <= i < |p| ==> r.segments[i].from == StateAt(s0, p, i).node && r.segments[i].to == p[i].target.node
    ensures RouteShape(g, startId, endId, r)
  {
    var nodes, segs := r.nodes, r.segments;
    NodesAt(s0, p);
    assert nodes[|nodes| - 1] == Last(s0, p).node;
    assert forall i :: 0 <= i < |nodes| ==> nodes[i] in g.nodes by {
      forall i | 0 <= i < |nodes| ensures nodes[i] in g.nodes {
        assert nodes[i] == StateAt(s0, p, i).node;
      }
    }
    assert forall i :: 0 <= i < |segs| ==> segs[i].to == nodes[i + 1] by {
      forall i | 0 <= i < |segs| ensures segs[i].to == nodes[i + 1] {
        assert nodes[i + 1] == StateAt(s0, p, i + 1).node;
      }
    }
  }

  /** The i-th segment of a path's rendering is the one of its i-th move. */
  lemma SegmentsAt(g: Store, dist: (Point, Point) -> real, s0: State, p: seq<Edge>)
    requires InStore(g, s0, p)
    ensures |SegmentsOf(g, dist, s0, p)| == |p|
    ensures forall i :: 0 <= i < |p| ==> SegmentsOf(g, dist, s0, p)[i] == SegmentOf(g, dist, s0, p, i)
  {
  }

  /** The i-th node of a path is the node of its i-th state. */
  lemma NodesAt(s0: State, p: seq<Edge>)
    ensures |NodesOf(s0, p)| == |p| + 1
    ensures forall i :: 0 <= i <= |p| ==> NodesOf(s0, p)[i] == StateAt(s0, p, i).node
  {
  }

  lemma RenderMovesLegal(g: Store, cfg: Config, dist: (Point, Point) -> real, endId: string, s0: State, p: seq<Edge>)
    requires Valid(g) && InStore(g, s0, p)
    requires IsPath(Succ(g, endId, cfg, dist), s0, p)
    requires forall i :: 0 <= i < |p| ==> StateAt(s0, p, i).node != endId
    ensures MovesLegal(g, endId, cfg, dist, SegmentsOf(g, dist, s0, p))
  {
    var segs := SegmentsOf(g, dist, s0, p);
    SegmentsAreLegal(g, cfg, dist, endId, s0, p, segs);
    WalksThenTeleport(g, cfg, dist, endId, s0, p, segs);
  }

  lemma SegmentsAreLegal(g: Store, cfg: Config, dist: (Point, Point) -> real, endId: string,
                         s0: State, p: seq<Edge>, segs: seq<Segment>)
    requires Valid(g) && InStore(g, s0, p)
    requires IsPath(Succ(g, endId, cfg, dist), s0, p)
    requires forall i :: 0 <= i < |p| ==> StateAt(s0, p, i).node != endId
    requires segs == SegmentsOf(g, dist, s0, p)
    ensures forall i :: 0 <= i < |segs| ==> segs[i].from in g.nodes && segs[i].to in g.nodes && LegalSegment(g, endId, cfg, dist, segs[i])
  {
    forall i | 0 <= i < |segs| ensures segs[i].from in g.nodes && segs[i].to in g.nodes && LegalSegment(g, endId, cfg, dist, segs[i]) {
      assert segs[i] == SegmentOf(g, dist, s0, p, i);
      SegmentIsLegal(g, cfg, dist, endId, s0, p, i);
    }
  }

  lemma WalksThenTeleport(g: Store, cfg: Config, dist: (Point, Point) -> real, endId: string,
                          s0: State, p: seq<Edge>, segs: seq<Segment>)
    requires Valid(g) && InStore(g, s0, p)
    requires IsPath(Succ(g, endId, cfg, dist), s0, p)
    requires forall i :: 0 <= i < |p| ==> StateAt(s0, p, i).node != endId
    requires segs == SegmentsOf(g, dist, s0, p)
    ensures forall i :: 0 <= i < |segs| - 1 && segs[i].mode == Walk ==> segs[i + 1].mode == Teleport
  {
    PathWalksThenTeleport(g, cfg, dist, endId, s0, p);
    SegmentModes(g, dist, s0, p, segs);
  }

  lemma PathWalksThenTeleport(g: Store, cfg: Config, dist: (Point, Point) -> real, endId: string,
                              s0: State, p: seq<Edge>)
    requires Valid(g) && InStore(g, s0, p)
    requires IsPath(Succ(g, endId, cfg, dist), s0, p)
    requires forall i :: 0 <= i < |p| ==> StateAt(s0, p, i).node != endId
    ensures forall i :: 0 <= i < |p| - 1 && p[i].mode == Walk ==> p[i + 1].mode == Teleport
  {
    forall i | 0 <= i < |p| - 1 && p[i].mode == Walk ensures p[i + 1].mode == Teleport {
      WalkThenTeleport(g, cfg, dist, endId, s0, p, i);
    }
  }

  /** A route's segments follow the path's moves: the i-th goes from the
      i-th state's node to the node the i-th move lands on, in its mode. */
  lemma SegmentModes(g: Store, dist: (Point, Point) -> real, s0: State, p: seq<Edge>, segs: seq<Segment>)
    requires InStore(g, s0, p) && segs == SegmentsOf(g, dist, s0, p)
    ensures |segs| == |p|
    ensures forall i :: 0 <= i < |segs| ==>
              segs[i].from == StateAt(s0, p, i).node && segs[i].to == p[i].target.node && segs[i].mode == p[i].mode
  {
  }

  /** Each step of a path of the search is a move the rules allow. */
  lemma PathStepIsMove(g: Store, cfg: Config, dist: (Point, Point) -> real, endId: string,
                       s0: State, p: seq<Edge>, i: nat)
    requires Valid(g) && IsPath(Succ(g, endId, cfg, dist), s0, p) && i < |p|
    ensures StateAt(s0, p, i).node in g.nodes && IsMove(g, endId, cfg, dist, StateAt(s0, p, i), p[i])
  {
    var s := StateAt(s0, p, i);
    assert p[i] in Succ(g, endId, cfg, dist)(s);
    NeighborsExactlyMoves(g, endId, cfg, dist, s, p[i]);
  }

  lemma SegmentIsLegal(g: Store, cfg: Config, dist: (Point, Point) -> real, endId: string,
                       s0: State, p: seq<Edge>, i: nat)
    requires Valid(g) && InStore(g, s0, p)
    requires IsPath(Succ(g, endId, cfg, dist), s0, p)
    requires i < |p| && StateAt(s0, p, i).node != endId
    ensures LegalSegment(g, endId, cfg, dist, SegmentOf(g, dist, s0, p, i))
  {
    PathStepIsMove(g, cfg, dist, endId, s0, p, i);
  }

  lemma WalkThenTeleport(g: Store, cfg: Config, dist: (Point, Point) -> real, endId: string,
                         s0: State, p: seq<Edge>, i: nat)
    requires Valid(g) && InStore(g, s0, p)
    requires IsPath(Succ(g, endId, cfg, dist), s0, p)
    requires forall j :: 0 <= j < |p| ==> StateAt(s0, p, j).node != endId
    requires i + 1 < |p| && p[i].mode == Walk
    ensures p[i + 1].mode == Teleport
  {
    PathStepIsMove(g, cfg, dist, endId, s0, p, i);
    PathStepIsMove(g, cfg, dist, endId, s0, p, i + 1);
    var t := StateAt(s0, p, i + 1);
    assert t == p[i].target && t.node != endId;
    assert !t.canWalk;
  }
}
