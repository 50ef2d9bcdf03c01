/** The Dijkstra loop of findPath (utils/graph.ts:162-206) over the expanded
    state space, written against an arbitrary successor function so that
    its proof does not depend on how moves are generated.

    The frontier is the source's array of (state, distance) entries. The
    source sorts it stably by distance and shifts the head off; that takes
    the first entry, in insertion order, among those of least distance, which
    is what FirstMinIndex finds. States are keys of the maps directly
    (Paths.StateKeyInjective shows the string keys identify states). */
module Search {
  import opened Wrappers
  import opened Paths

  datatype Entry = Entry(state: State, distance: real)

  /** Every move out of a state of `universe` stays in it and costs no less
      than zero. */
  ghost predicate Closed(succ: State -> seq<Edge>, universe: set<State>)
  {
    forall s, e {:trigger e in succ(s)} :: s in universe && e in succ(s) ==> e.target in universe && e.weight >= 0.0
  }

  /** The index of the entry that `queue.sort(...)` then `queue.shift()`
      removes: the first one of least distance. */
  method FirstMinIndex(queue: seq<Entry>) returns (k: nat)
    requires |queue| > 0
    ensures k < |queue|
    ensures forall i :: 0 <= i < |queue| ==> queue[k].distance <= queue[i].distance
    ensures forall i :: 0 <= i < k ==> queue[i].distance > queue[k].distance
  {
    k := 0;
    var j := 1;
    while j < |queue|
      invariant k < j <= |queue|
      invariant forall i :: 0 <= i < j ==> queue[k].distance <= queue[i].distance
      invariant forall i :: 0 <= i < k ==> queue[i].distance > queue[k].distance
    {
      if queue[j].distance < queue[k].distance {
        k := j;
      }
      j := j + 1;
    }
  }

  function RemoveAt(queue: seq<Entry>, k: nat): (r: seq<Entry>)
    requires k < |queue|
    ensures |r| == |queue| - 1
    ensures forall x :: x in r ==> x in queue
    ensures forall x :: x in queue && x != queue[k] ==> x in r
    ensures forall i :: 0 <= i < |r| ==> r[i] == queue[if i < k then i else i + 1]
  {
    var r := queue[..k] + queue[k + 1..];
    assert forall i :: 0 <= i < |queue| && i != k ==> queue[i] == r[if i < k then i else i - 1];
    r
  }

  /** `p` is a path of the successor function from `start` to `v` of cost `d`. */
  ghost predicate PathTo(succ: State -> seq<Edge>, start: State, p: seq<Edge>, v: State, d: real)
  {
    IsPath(succ, start, p) && Last(start, p) == v && Cost(p) == d
  }

  /** Every state a path leaves from has been expanded. */
  ghost predicate Through(start: State, p: seq<Edge>, expanded: set<State>)
  {
    forall i {:trigger StateAt(start, p, i)} :: 0 <= i < |p| ==> StateAt(start, p, i) in expanded
  }

  /** The witness paths: each state with a tentative distance has a path
      of exactly that cost, which `prev` retraces and which leaves only from
      expanded states. */
  ghost predicate Witnessed(succ: State -> seq<Edge>, start: State, dist: map<State, real>,
                            prev: map<State, Pred>, paths: map<State, seq<Edge>>,
                            expanded: set<State>)
  {
    && paths.Keys == dist.Keys
    && forall v {:trigger paths[v]} :: v in dist ==>
         && PathTo(succ, start, paths[v], v, dist[v])
         && ChainFollows(prev, start, paths[v])
         && Through(start, paths[v], expanded)
  }

  /** Every move out of an expanded state has been relaxed. */
  ghost predicate Relaxed(succ: State -> seq<Edge>, dist: map<State, real>, expanded: set<State>)
  {
    forall u, e {:trigger e in succ(u)} :: u in expanded && u in dist && e in succ(u) ==>
      e.target in dist && dist[e.target] <= dist[u] + e.weight
  }

  /** A path that leaves only from expanded states passes through no
      unexpanded state other than its last one. */
  lemma TargetsAvoid(start: State, p: seq<Edge>, expanded: set<State>, v: State)
    requires Through(start, p, expanded)
    requires v !in expanded && v != Last(start, p)
    ensures forall i :: 0 <= i < |p| ==> p[i].target != v
  {
    forall i | 0 <= i < |p| ensures p[i].target != v {
      assert p[i].target == StateAt(start, p, i + 1);
      if i + 1 < |p| {
        assert StateAt(start, p, i + 1) in expanded;
      }
    }
  }

  /** The witness for a state relaxed through `u`: u's witness plus the edge. */
  lemma ExtendWitness(succ: State -> seq<Edge>, start: State, prev: map<State, Pred>,
                      p: seq<Edge>, u: State, du: real, e: Edge, expanded: set<State>)
    requires PathTo(succ, start, p, u, du) && ChainFollows(prev, start, p)
    requires Through(start, p, expanded)
    requires u in expanded && e in succ(u)
    requires e.target !in expanded && e.target != start
    ensures PathTo(succ, start, p + [e], e.target, du + e.weight)
    ensures ChainFollows(prev[e.target := Pred(u, e.mode)], start, p + [e])
    ensures Through(start, p + [e], expanded)
  {
    var v := e.target;
    var q := p + [e];
    PathExtend(succ, start, p, e);
    TargetsAvoid(start, p, expanded, v);
    ChainFollowsUpdate(prev, start, p, v, Pred(u, e.mode));
    var prev' := prev[v := Pred(u, e.mode)];
    forall i | 0 <= i < |q|
      ensures q[i].target in prev' && prev'[q[i].target] == Pred(StateAt(start, q, i), q[i].mode)
    {
      if i < |p| {
        assert q[i] == p[i];
        assert StateAt(start, q, i) == StateAt(start, p, i);
      } else {
        assert q[i] == e && StateAt(start, q, i) == Last(start, p) == u;
      }
    }
  }

  /** Relaxing `v` to a new distance through the expanded state `u` keeps the
      witness paths, provided `v` is neither the start nor visited. */
  lemma RelaxKeepsWitnessed(succ: State -> seq<Edge>, start: State, dist: map<State, real>,
                            prev: map<State, Pred>, paths: map<State, seq<Edge>>,
                            expanded: set<State>, visited: set<State>, u: State, e: Edge)
    requires Witnessed(succ, start, dist, prev, paths, expanded)
    requires expanded <= visited
    requires u in dist && u in expanded && u in visited && e in succ(u)
    requires e.target !in visited && e.target != start
    ensures Witnessed(succ, start, dist[e.target := dist[u] + e.weight],
                      prev[e.target := Pred(u, e.mode)],
                      paths[e.target := paths[u] + [e]], expanded)
  {
    var v := e.target;
    var dist', prev', paths' := dist[v := dist[u] + e.weight], prev[v := Pred(u, e.mode)],
                                paths[v := paths[u] + [e]];
    forall w | w in dist'
      ensures PathTo(succ, start, paths'[w], w, dist'[w])
      ensures ChainFollows(prev', start, paths'[w])
      ensures Through(start, paths'[w], expanded)
    {
      if w == v {
        ExtendWitness(succ, start, prev, paths[u], u, dist[u], e, expanded);
      } else {
        TargetsAvoid(start, paths[w], expanded, v);
        ChainFollowsUpdate(prev, start, paths[w], v, Pred(u, e.mode));
      }
    }
  }

  /** Every state along a path from a state of a closed universe is in it. */
  lemma {:induction false} PathStaysInUniverse(succ: State -> seq<Edge>, universe: set<State>,
                                               start: State, p: seq<Edge>, k: nat)
    requires Closed(succ, universe) && start in universe && IsPath(succ, start, p)
    requires k <= |p|
    ensures StateAt(start, p, k) in universe
  {
    if k > 0 {
      PathStaysInUniverse(succ, universe, start, p, k - 1);
      assert p[k - 1] in succ(StateAt(start, p, k - 1));
    }
  }

  /** So no edge of such a path has a negative weight. */
  lemma PathWeightsNonNegative(succ: State -> seq<Edge>, universe: set<State>,
                               start: State, p: seq<Edge>)
    requires Closed(succ, universe) && start in universe && IsPath(succ, start, p)
    ensures NonNegativeWeights(p)
  {
    forall i | 0 <= i < |p| ensures p[i].weight >= 0.0 {
      PathStaysInUniverse(succ, universe, start, p, i);
      assert p[i] in succ(StateAt(start, p, i));
    }
  }

  /** Walking a path from an expanded start through relaxed states, the
      first state that is not expanded has a tentative distance no larger
      than the cost of the prefix leading to it. */
  lemma {:induction false} FirstUnexpanded(succ: State -> seq<Edge>, start: State, p: seq<Edge>,
                                           dist: map<State, real>, expanded: set<State>, k: nat)
    returns (j: nat)
    requires IsPath(succ, start, p) && NonNegativeWeights(p)
    requires Relaxed(succ, dist, expanded) && expanded <= dist.Keys
    requires k <= |p| && StateAt(start, p, k) in dist
    requires dist[StateAt(start, p, k)] <= Cost(p[..k])
    requires Last(start, p) !in expanded
    ensures k <= j <= |p|
    ensures StateAt(start, p, j) in dist && StateAt(start, p, j) !in expanded
    ensures dist[StateAt(start, p, j)] <= Cost(p)
    decreases |p| - k
  {
    var s := StateAt(start, p, k);
    if s !in expanded {
      CostPrefixAtMost(p, k);
      j := k;
    } else {
      assert k < |p|;
      assert p[k] in succ(s);
      assert p[k].target == StateAt(start, p, k + 1);
      CostStep(p, k);
      j := FirstUnexpanded(succ, start, p, dist, expanded, k + 1);
    }
  }

  /** When nothing stopped the search, every state on a path from the start
      was expanded. */
  lemma {:induction false} AllExpanded(succ: State -> seq<Edge>, start: State, p: seq<Edge>,
                                       dist: map<State, real>, expanded: set<State>, k: nat)
    requires IsPath(succ, start, p) && start in expanded
    requires Relaxed(succ, dist, expanded) && expanded <= dist.Keys
    requires forall v :: v in dist ==> v in expanded
    requires k <= |p|
    ensures StateAt(start, p, k) in expanded
  {
    if k > 0 {
      AllExpanded(succ, start, p, dist, expanded, k - 1);
      assert p[k - 1] in succ(StateAt(start, p, k - 1));
    }
  }

  /** The variables of the search loop: the frontier array, the `dist` and
      `prev` maps, the `visited` set, and bestEndState with bestEndDist
      (`best.None?` stands for bestEndDist being Infinity). */
  datatype Frontier = Frontier(
    queue: seq<Entry>,
    dist: map<State, real>,
    prev: map<State, Pred>,
    visited: set<State>,
    best: Option<State>,
    bestDist: real)

  /** The loop's state at its start (utils/graph.ts:162-170): only the
      start state, at distance 0, nothing visited and no end state yet. */
  function Initial(start: State): Frontier
  {
    Frontier([Entry(start, 0.0)], map[start := 0.0], map[], {}, None, 0.0)
  }

  /** The frontier holds an entry for every state with a tentative distance
      that is not yet visited, no entry is below its state's tentative
      distance, and visited states are no further than any entry left. */
  ghost predicate QueueInv(queue: seq<Entry>, dist: map<State, real>, visited: set<State>)
  {
    && visited <= dist.Keys
    && (forall v {:trigger dist[v]} :: v in dist ==> dist[v] >= 0.0)
    && (forall x :: x in queue ==> x.state in dist && dist[x.state] <= x.distance)
    && (forall v {:trigger dist[v]} :: v in dist && v !in visited ==> Entry(v, dist[v]) in queue)
    && (forall v, x {:trigger v in visited, x in queue} :: v in visited && x in queue ==> dist[v] <= x.distance)
  }

  /** Visited states that were not expanded were end states or pruned, and
      `best` is the visited end state at the least distance seen. */
  ghost predicate BestInv(endId: string, f: Frontier, expanded: set<State>)
  {
    && f.visited <= f.dist.Keys
    && (forall v :: v in expanded ==> v.node != endId)
    && (forall v :: v in f.visited && v !in expanded ==> f.best.Some? && f.bestDist <= f.dist[v])
    && (f.best.Some? ==> f.best.value in f.visited && f.best.value.node == endId
                         && f.bestDist == f.dist[f.best.value])
  }

  /** The bookkeeping facts the search keeps at every point of its loop.
      `expanded` is the set of visited states whose moves have been (or are
      being) relaxed; the other visited states were either end states or
      pruned because they were no better than the best end state found. */
  ghost predicate Bookkeeping(start: State, endId: string, universe: set<State>,
                              f: Frontier, expanded: set<State>)
  {
    && start in f.dist && f.dist[start] == 0.0
    && f.dist.Keys <= universe
    && expanded <= f.visited
    && QueueInv(f.queue, f.dist, f.visited)
    && BestInv(endId, f, expanded)
  }

  /** The improvement of a neighbour's tentative distance: its new distance
      and predecessor are recorded and it is pushed on the frontier. */
  function Relax(f: Frontier, cur: State, e: Edge, newDist: real): (r: Frontier)
    ensures e.target in r.dist && r.dist[e.target] == newDist
    ensures e.target in r.prev && r.prev[e.target] == Pred(cur, e.mode)
    ensures Entry(e.target, newDist) in r.queue && |r.queue| == |f.queue| + 1
    ensures r.queue == f.queue + [Entry(e.target, newDist)]
    ensures r.dist.Keys == f.dist.Keys + {e.target} && r.prev.Keys == f.prev.Keys + {e.target}
    ensures r.visited == f.visited && r.best == f.best && r.bestDist == f.bestDist
  {
    f.(dist := f.dist[e.target := newDist],
       prev := f.prev[e.target := Pred(cur, e.mode)],
       queue := f.queue + [Entry(e.target, newDist)])
  }

  /** A relaxation touches nothing but its target: every other state keeps
      its distance and predecessor, no other state gains either, and every
      earlier entry stays queued. */
  lemma RelaxFrame(f: Frontier, cur: State, e: Edge, newDist: real)
    ensures forall x :: x in f.queue ==> x in Relax(f, cur, e, newDist).queue
    ensures forall v :: v in f.dist && v != e.target ==>
              v in Relax(f, cur, e, newDist).dist && Relax(f, cur, e, newDist).dist[v] == f.dist[v]
    ensures forall v :: v in f.prev && v != e.target ==>
              v in Relax(f, cur, e, newDist).prev && Relax(f, cur, e, newDist).prev[v] == f.prev[v]
    ensures forall v :: v in Relax(f, cur, e, newDist).dist && v != e.target ==> v in f.dist
    ensures forall v :: v in Relax(f, cur, e, newDist).prev && v != e.target ==> v in f.prev
  {
  }

  /** Handling one move `e` out of `cur`: the relaxation happens exactly when
      the path through `cur` is strictly shorter than the target's
      tentative distance, or the target has none. */
  function Step(f: Frontier, cur: State, d: real, e: Edge): (r: Frontier)
    ensures e.target in r.dist && r.dist[e.target] <= d + e.weight
    ensures e.target in f.dist ==> r.dist[e.target] <= f.dist[e.target]
    ensures r.visited == f.visited && r.best == f.best
    ensures e.target in f.dist && f.dist[e.target] <= d + e.weight ==> r == f
    ensures e.target !in f.dist || d + e.weight < f.dist[e.target] ==> r == Relax(f, cur, e, d + e.weight)
  {
    if e.target !in f.dist || d + e.weight < f.dist[e.target] then Relax(f, cur, e, d + e.weight) else f
  }

  /** The witness paths after the same step. */
  ghost function StepPaths(f: Frontier, paths: map<State, seq<Edge>>, cur: State, d: real, e: Edge)
    : map<State, seq<Edge>>
    requires cur in paths
  {
    if e.target !in f.dist || d + e.weight < f.dist[e.target] then paths[e.target := paths[cur] + [e]] else paths
  }

  /** Lowering (or setting) the tentative distance of an unvisited state
      and pushing the matching entry keeps the frontier facts. */
  lemma RelaxQueueInv(f: Frontier, cur: State, e: Edge, nd: real)
    requires QueueInv(f.queue, f.dist, f.visited)
    requires e.target !in f.visited && nd >= 0.0
    requires forall u :: u in f.visited ==> f.dist[u] <= nd
    requires e.target in f.dist ==> nd < f.dist[e.target]
    ensures var f' := Relax(f, cur, e, nd); QueueInv(f'.queue, f'.dist, f'.visited)
  {
    var f' := Relax(f, cur, e, nd);
    forall x | x in f'.queue ensures x.state in f'.dist && f'.dist[x.state] <= x.distance {
      if x != Entry(e.target, nd) {
        assert x in f.queue;
      }
    }
  }

  /** The same relaxation, taken as a step, keeps the bookkeeping facts. */
  lemma RelaxBookkeeping(start: State, endId: string, universe: set<State>,
                         f: Frontier, expanded: set<State>, cur: State, d: real, e: Edge)
    requires Bookkeeping(start, endId, universe, f, expanded)
    requires e.target in universe && e.target !in f.visited && e.target != start && d + e.weight >= 0.0
    requires forall u :: u in f.visited ==> f.dist[u] <= d + e.weight
    requires e.target !in f.dist || d + e.weight < f.dist[e.target]
    ensures Bookkeeping(start, endId, universe, Step(f, cur, d, e), expanded)
  {
    var nd := d + e.weight;
    assert Step(f, cur, d, e) == Relax(f, cur, e, nd);
    RelaxKeepsBookkeeping(start, endId, universe, f, expanded, cur, e, nd);
  }

  /** The same, stated for the relaxation itself. */
  lemma RelaxKeepsBookkeeping(start: State, endId: string, universe: set<State>,
                              f: Frontier, expanded: set<State>, cur: State, e: Edge, nd: real)
    requires Bookkeeping(start, endId, universe, f, expanded)
    requires e.target in universe && e.target !in f.visited && e.target != start && nd >= 0.0
    requires forall u :: u in f.visited ==> f.dist[u] <= nd
    requires e.target !in f.dist || nd < f.dist[e.target]
    ensures Bookkeeping(start, endId, universe, Relax(f, cur, e, nd), expanded)
  {
    RelaxQueueInv(f, cur, e, nd);
    RelaxBestInv(endId, f, expanded, cur, e, nd);
  }

  /** A relaxation leaves the visited states and the best end state alone. */
  lemma RelaxBestInv(endId: string, f: Frontier, expanded: set<State>, cur: State, e: Edge, nd: real)
    requires BestInv(endId, f, expanded) && e.target !in f.visited
    ensures BestInv(endId, Relax(f, cur, e, nd), expanded)
  {
  }

  /** The invariant of the loop over `moves`, the moves out of `cur`, which
      was popped at distance `d`: the first `j` of them have been relaxed. */
  ghost predicate InnerInv(succ: State -> seq<Edge>, start: State, endId: string, universe: set<State>,
                           f: Frontier, expanded: set<State>, cur: State, d: real,
                           moves: seq<Edge>, j: nat)
  {
    Bookkeeping(start, endId, universe, f, expanded) && InnerProgress(succ, f, expanded, cur, d, moves, j)
  }

  /** The part of that invariant about `cur` and its moves: every visited
      state is no further than `cur`, every other expanded state stays
      relaxed, and the first `j` moves have been relaxed. */
  ghost predicate InnerProgress(succ: State -> seq<Edge>, f: Frontier, expanded: set<State>,
                                cur: State, d: real, moves: seq<Edge>, j: nat)
  {
    && cur in expanded && cur in f.dist && f.dist[cur] == d
    && j <= |moves|
    && (forall v :: v in f.visited && v in f.dist ==> f.dist[v] <= d)
    && Relaxed(succ, f.dist, expanded - {cur})
    && (forall i :: 0 <= i < j ==> moves[i].target in f.dist && f.dist[moves[i].target] <= d + moves[i].weight)
  }

  lemma InitialInv(succ: State -> seq<Edge>, start: State, endId: string, universe: set<State>)
    requires start in universe
    ensures Bookkeeping(start, endId, universe, Initial(start), {})
    ensures Relaxed(succ, Initial(start).dist, {})
    ensures Witnessed(succ, start, Initial(start).dist, Initial(start).prev, map[start := []], {})
  {
    assert PathTo(succ, start, [], start, 0.0);
  }

  /** Popping an entry of an already visited state changes nothing else. */
  lemma PopStale(start: State, endId: string, universe: set<State>,
                 f: Frontier, expanded: set<State>, k: nat)
    requires Bookkeeping(start, endId, universe, f, expanded)
    requires k < |f.queue| && f.queue[k].state in f.visited
    ensures Bookkeeping(start, endId, universe, f.(queue := RemoveAt(f.queue, k)), expanded)
  {
  }

  /** A popped entry of least distance for an unvisited state carries that
      state's tentative distance, which no entry left in the frontier beats. */
  lemma PopFreshDistance(start: State, endId: string, universe: set<State>,
                         f: Frontier, expanded: set<State>, k: nat)
    requires Bookkeeping(start, endId, universe, f, expanded)
    requires k < |f.queue| && f.queue[k].state !in f.visited
    requires forall i :: 0 <= i < |f.queue| ==> f.queue[k].distance <= f.queue[i].distance
    ensures f.queue[k].state in f.dist && f.queue[k].state in universe
    ensures f.queue[k].distance == f.dist[f.queue[k].state]
    ensures forall x :: x in f.queue ==> f.queue[k].distance <= x.distance
  {
    var cur := f.queue[k].state;
    assert Entry(cur, f.dist[cur]) in f.queue;
  }

  /** Visiting the popped state and skipping it (pruned, or an end state)
      keeps the invariant, with bestEnd updated as the source does. */
  lemma SettleSkipped(start: State, endId: string, universe: set<State>,
                      f: Frontier, expanded: set<State>, k: nat)
    requires Bookkeeping(start, endId, universe, f, expanded)
    requires k < |f.queue| && f.queue[k].state !in f.visited
    requires forall i :: 0 <= i < |f.queue| ==> f.queue[k].distance <= f.queue[i].distance
    requires (f.best.Some? && f.queue[k].distance >= f.bestDist) || f.queue[k].state.node == endId
    ensures var cur, d := f.queue[k].state, f.queue[k].distance;
            var f' := f.(queue := RemoveAt(f.queue, k), visited := f.visited + {cur});
            var f'' := if f.best.Some? && d >= f.bestDist then f'
                       else f'.(best := Some(cur), bestDist := d);
            Bookkeeping(start, endId, universe, f'', expanded)
  {
    PopFreshDistance(start, endId, universe, f, expanded, k);
  }

  /** Visiting the popped state and starting to expand it. */
  lemma SettleExpanded(succ: State -> seq<Edge>, start: State, endId: string, universe: set<State>,
                       f: Frontier, expanded: set<State>, k: nat)
    requires Bookkeeping(start, endId, universe, f, expanded) && Relaxed(succ, f.dist, expanded)
    requires k < |f.queue| && f.queue[k].state !in f.visited
    requires forall i :: 0 <= i < |f.queue| ==> f.queue[k].distance <= f.queue[i].distance
    requires !(f.best.Some? && f.queue[k].distance >= f.bestDist) && f.queue[k].state.node != endId
    ensures var cur := f.queue[k].state;
            var f' := f.(queue := RemoveAt(f.queue, k), visited := f.visited + {cur});
            InnerInv(succ, start, endId, universe, f', expanded + {cur}, cur, f.queue[k].distance, succ(cur), 0)
  {
    PopFreshDistance(start, endId, universe, f, expanded, k);
  }

  /** Witness paths that leave only from expanded states still do so when
      one more state is expanded. */
  lemma WitnessedGrow(succ: State -> seq<Edge>, start: State, dist: map<State, real>,
                      prev: map<State, Pred>, paths: map<State, seq<Edge>>,
                      expanded: set<State>, cur: State)
    requires Witnessed(succ, start, dist, prev, paths, expanded)
    ensures Witnessed(succ, start, dist, prev, paths, expanded + {cur})
  {
    forall v | v in dist ensures Through(start, paths[v], expanded + {cur}) {
      assert Through(start, paths[v], expanded);
    }
  }

  /** The facts of the inner loop beyond the bookkeeping survive relaxing
      the j-th move, whose target is not visited. */
  lemma RelaxProgress(succ: State -> seq<Edge>, f: Frontier, expanded: set<State>,
                      cur: State, d: real, moves: seq<Edge>, j: nat)
    requires InnerProgress(succ, f, expanded, cur, d, moves, j) && expanded <= f.visited
    requires j < |moves| && moves[j].target !in f.visited && moves[j].weight >= 0.0
    requires moves[j].target !in f.dist || d + moves[j].weight < f.dist[moves[j].target]
    ensures InnerProgress(succ, Step(f, cur, d, moves[j]), expanded, cur, d, moves, j + 1)
  {
    var v := moves[j].target;
    var f' := Relax(f, cur, moves[j], d + moves[j].weight);
    forall u, e | u in expanded - {cur} && u in f'.dist && e in succ(u)
      ensures e.target in f'.dist && f'.dist[e.target] <= f'.dist[u] + e.weight
    {
      assert u != v;
    }
  }

  /** A target the path through `cur` improves on is neither visited (all
      visited states are no further than `cur`) nor the start (at 0). */
  lemma TakenTargetFresh(start: State, endId: string, universe: set<State>,
                         f: Frontier, expanded: set<State>, d: real, e: Edge)
    requires Bookkeeping(start, endId, universe, f, expanded)
    requires forall v :: v in f.visited ==> f.dist[v] <= d
    requires d >= 0.0 && e.weight >= 0.0
    requires e.target !in f.dist || d + e.weight < f.dist[e.target]
    ensures e.target !in f.visited && e.target != start
  {
  }

  /** The path through `cur` is strictly shorter than the tentative
      distance of the j-th move's target (or it has none): relaxing it keeps
      the invariant, and that target is neither visited nor the start. */
  lemma RelaxTaken(succ: State -> seq<Edge>, start: State, endId: string, universe: set<State>,
                   f: Frontier, expanded: set<State>, cur: State, d: real, moves: seq<Edge>, j: nat)
    requires InnerInv(succ, start, endId, universe, f, expanded, cur, d, moves, j)
    requires j < |moves| && moves[j].target in universe && moves[j].weight >= 0.0
    requires moves[j].target !in f.dist || d + moves[j].weight < f.dist[moves[j].target]
    ensures moves[j].target !in f.visited && moves[j].target != start
    ensures InnerInv(succ, start, endId, universe, Step(f, cur, d, moves[j]), expanded, cur, d, moves, j + 1)
  {
    var e := moves[j];
    TakenTargetFresh(start, endId, universe, f, expanded, d, e);
    RelaxBookkeeping(start, endId, universe, f, expanded, cur, d, e);
    RelaxProgress(succ, f, expanded, cur, d, moves, j);
  }


  /** Otherwise the target is already as close as the path through `cur`. */
  lemma RelaxSkipped(succ: State -> seq<Edge>, start: State, endId: string, universe: set<State>,
                     f: Frontier, expanded: set<State>, cur: State, d: real, moves: seq<Edge>, j: nat)
    requires InnerInv(succ, start, endId, universe, f, expanded, cur, d, moves, j)
    requires j < |moves|
    requires moves[j].target in f.dist && d + moves[j].weight >= f.dist[moves[j].target]
    ensures InnerInv(succ, start, endId, universe, Step(f, cur, d, moves[j]), expanded, cur, d, moves, j + 1)
  {
  }

  /** A relaxation through the expanded state `cur` keeps the witness paths. */
  lemma RelaxWitnessed(succ: State -> seq<Edge>, start: State, f: Frontier, expanded: set<State>,
                       paths: map<State, seq<Edge>>, cur: State, d: real, e: Edge)
    requires Witnessed(succ, start, f.dist, f.prev, paths, expanded)
    requires expanded <= f.visited
    requires cur in f.dist && f.dist[cur] == d && cur in expanded && e in succ(cur)
    requires e.target !in f.visited && e.target != start
    ensures var f', paths' := Step(f, cur, d, e), StepPaths(f, paths, cur, d, e);
            Witnessed(succ, start, f'.dist, f'.prev, paths', expanded)
  {
    RelaxKeepsWitnessed(succ, start, f.dist, f.prev, paths, expanded, f.visited, cur, e);
  }

  /** Either way, handling the j-th move keeps the inner invariant and the
      witness paths. */
  lemma RelaxStep(succ: State -> seq<Edge>, start: State, endId: string, universe: set<State>,
                  f: Frontier, expanded: set<State>, paths: map<State, seq<Edge>>,
                  cur: State, d: real, moves: seq<Edge>, j: nat)
    requires InnerInv(succ, start, endId, universe, f, expanded, cur, d, moves, j)
    requires Witnessed(succ, start, f.dist, f.prev, paths, expanded)
    requires j < |moves| && moves[j] in succ(cur) && moves[j].target in universe && moves[j].weight >= 0.0
    ensures cur in paths
    ensures var f', paths' := Step(f, cur, d, moves[j]), StepPaths(f, paths, cur, d, moves[j]);
            && InnerInv(succ, start, endId, universe, f', expanded, cur, d, moves, j + 1)
            && Witnessed(succ, start, f'.dist, f'.prev, paths', expanded)
  {
    var e := moves[j];
    if e.target !in f.dist || d + e.weight < f.dist[e.target] {
      RelaxStepTaken(succ, start, endId, universe, f, expanded, paths, cur, d, moves, j);
    } else {
      RelaxSkipped(succ, start, endId, universe, f, expanded, cur, d, moves, j);
      assert Step(f, cur, d, e) == f && StepPaths(f, paths, cur, d, e) == paths;
    }
  }

  /** The taken branch of that step. */
  lemma RelaxStepTaken(succ: State -> seq<Edge>, start: State, endId: string, universe: set<State>,
                       f: Frontier, expanded: set<State>, paths: map<State, seq<Edge>>,
                       cur: State, d: real, moves: seq<Edge>, j: nat)
    requires InnerInv(succ, start, endId, universe, f, expanded, cur, d, moves, j)
    requires Witnessed(succ, start, f.dist, f.prev, paths, expanded)
    requires j < |moves| && moves[j] in succ(cur) && moves[j].target in universe && moves[j].weight >= 0.0
    requires moves[j].target !in f.dist || d + moves[j].weight < f.dist[moves[j].target]
    ensures var f', paths' := Step(f, cur, d, moves[j]), StepPaths(f, paths, cur, d, moves[j]);
            && InnerInv(succ, start, endId, universe, f', expanded, cur, d, moves, j + 1)
            && Witnessed(succ, start, f'.dist, f'.prev, paths', expanded)
  {
    var e := moves[j];
    RelaxTaken(succ, start, endId, universe, f, expanded, cur, d, moves, j);
    RelaxWitnessed(succ, start, f, expanded, paths, cur, d, e);
  }

  /** All neighbours relaxed: `cur` joins the relaxed states. */
  lemma InnerDone(succ: State -> seq<Edge>, start: State, endId: string, universe: set<State>,
                  f: Frontier, expanded: set<State>, cur: State, d: real)
    requires InnerInv(succ, start, endId, universe, f, expanded, cur, d, succ(cur), |succ(cur)|)
    ensures Bookkeeping(start, endId, universe, f, expanded) && Relaxed(succ, f.dist, expanded)
  {
    forall u, e | u in expanded && u in f.dist && e in succ(u)
      ensures e.target in f.dist && f.dist[e.target] <= f.dist[u] + e.weight
    {
      if u == cur {
        var i :| 0 <= i < |succ(cur)| && succ(cur)[i] == e;
      }
    }
  }

  /** The search ended with no end state: nothing stopped it early, so every
      state reachable from the start was expanded, and none is at endId. */
  lemma ExhaustedWithoutEnd(succ: State -> seq<Edge>, start: State, endId: string, universe: set<State>,
                            f: Frontier, expanded: set<State>)
    requires Bookkeeping(start, endId, universe, f, expanded) && Relaxed(succ, f.dist, expanded)
    requires f.queue == [] && f.best.None?
    ensures forall p :: IsPath(succ, start, p) ==> Last(start, p).node != endId
  {
    forall p | IsPath(succ, start, p) ensures Last(start, p).node != endId {
      AllExpanded(succ, start, p, f.dist, expanded, |p|);
    }
  }

  /** The search ended with an end state: its witness path is no more
      expensive than any path reaching endId. */
  lemma ExhaustedWithEnd(succ: State -> seq<Edge>, start: State, endId: string, universe: set<State>,
                         f: Frontier, expanded: set<State>, paths: map<State, seq<Edge>>)
    requires Bookkeeping(start, endId, universe, f, expanded) && Relaxed(succ, f.dist, expanded)
    requires Witnessed(succ, start, f.dist, f.prev, paths, expanded)
    requires Closed(succ, universe) && start in universe
    requires f.queue == [] && f.best.Some?
    ensures var bp := paths[f.best.value];
            && IsPath(succ, start, bp)
            && Last(start, bp) == f.best.value
            && ChainFollows(f.prev, start, bp)
            && (forall i :: 0 <= i < |bp| ==> StateAt(start, bp, i).node != endId)
            && (forall p :: IsPath(succ, start, p) && Last(start, p).node == endId ==> Cost(bp) <= Cost(p))
  {
    var b := f.best.value;
    var bp := paths[b];
    assert Through(start, bp, expanded);
    forall i | 0 <= i < |bp| ensures StateAt(start, bp, i).node != endId {
      assert StateAt(start, bp, i) in expanded;
    }
    forall p | IsPath(succ, start, p) && Last(start, p).node == endId
      ensures Cost(bp) <= Cost(p)
    {
      PathWeightsNonNegative(succ, universe, start, p);
      assert p[..0] == [];
      var j := FirstUnexpanded(succ, start, p, f.dist, expanded, 0);
      var s := StateAt(start, p, j);
      assert Entry(s, f.dist[s]) !in f.queue;
    }
  }

  /** The inner loop of findPath: relaxing every move out of `cur`. */
  method RelaxNeighbors(succ: State -> seq<Edge>, start: State, endId: string, ghost universe: set<State>,
                        f0: Frontier, ghost expanded: set<State>, ghost paths0: map<State, seq<Edge>>,
                        cur: State, d: real)
    returns (f: Frontier, ghost paths: map<State, seq<Edge>>)
    requires Closed(succ, universe)
    requires InnerInv(succ, start, endId, universe, f0, expanded, cur, d, succ(cur), 0)
    requires Witnessed(succ, start, f0.dist, f0.prev, paths0, expanded)
    ensures Bookkeeping(start, endId, universe, f, expanded) && Relaxed(succ, f.dist, expanded)
    ensures Witnessed(succ, start, f.dist, f.prev, paths, expanded)
    ensures f.visited == f0.visited
  {
    f, paths := f0, paths0;
    var neighbors := succ(cur);
    var j := 0;
    while j < |neighbors|
      invariant j <= |neighbors|
      invariant InnerInv(succ, start, endId, universe, f, expanded, cur, d, neighbors, j)
      invariant Witnessed(succ, start, f.dist, f.prev, paths, expanded)
      invariant f.visited == f0.visited
    {
      assert neighbors[j] in succ(cur);
      RelaxStep(succ, start, endId, universe, f, expanded, paths, cur, d, neighbors, j);
      paths := StepPaths(f, paths, cur, d, neighbors[j]);
      f := Step(f, cur, d, neighbors[j]);
      j := j + 1;
    }
    InnerDone(succ, start, endId, universe, f, expanded, cur, d);
  }

  /** Visiting a new state of the universe leaves fewer states unvisited. */
  lemma FewerUnvisited(universe: set<State>, visited: set<State>, s: State)
    requires s in universe && s !in visited
    ensures |universe - (visited + {s})| < |universe - visited|
  {
    var rest := universe - (visited + {s});
    assert universe - visited == rest + {s} && s !in rest;
  }

  /** One turn of findPath's loop: pop the first entry of least distance,
      then skip it (already visited), prune it, record it as an end state,
      or expand it. Each turn visits a new state or shortens the frontier. */
  method Visit(succ: State -> seq<Edge>, start: State, endId: string, ghost universe: set<State>,
               f0: Frontier, ghost expanded0: set<State>, ghost paths0: map<State, seq<Edge>>)
    returns (f: Frontier, ghost expanded: set<State>, ghost paths: map<State, seq<Edge>>)
    requires Closed(succ, universe) && |f0.queue| > 0
    requires Bookkeeping(start, endId, universe, f0, expanded0) && Relaxed(succ, f0.dist, expanded0)
    requires Witnessed(succ, start, f0.dist, f0.prev, paths0, expanded0)
    ensures Bookkeeping(start, endId, universe, f, expanded) && Relaxed(succ, f.dist, expanded)
    ensures Witnessed(succ, start, f.dist, f.prev, paths, expanded)
    ensures || (f.visited == f0.visited && |f.queue| < |f0.queue|)
            || |universe - f.visited| < |universe - f0.visited|
  {
    var k := FirstMinIndex(f0.queue);
    var current := f0.queue[k];
    var cur := current.state;
    var d := current.distance;
    expanded, paths := expanded0, paths0;

    if cur in f0.visited {
      PopStale(start, endId, universe, f0, expanded, k);
      f := f0.(queue := RemoveAt(f0.queue, k));
      return;
    }
    PopFreshDistance(start, endId, universe, f0, expanded, k);

    if (f0.best.Some? && d >= f0.bestDist) || cur.node == endId {
      SettleSkipped(start, endId, universe, f0, expanded, k);
      FewerUnvisited(universe, f0.visited, cur);
      var pruned := f0.best.Some? && d >= f0.bestDist;
      f := f0.(queue := RemoveAt(f0.queue, k), visited := f0.visited + {cur});
      if !pruned {
        // The end check: d is below bestEndDist here.
        f := f.(best := Some(cur), bestDist := d);
      }
      return;
    }

    SettleExpanded(succ, start, endId, universe, f0, expanded, k);
    FewerUnvisited(universe, f0.visited, cur);
    WitnessedGrow(succ, start, f0.dist, f0.prev, paths, expanded, cur);
    f := f0.(queue := RemoveAt(f0.queue, k), visited := f0.visited + {cur});
    expanded := expanded + {cur};
    f, paths := RelaxNeighbors(succ, start, endId, universe, f, expanded, paths, cur, d);
  }

  /** findPath's search loop. With no negative edge weight it returns the
      end state reached by a cheapest path to any state at `endId`, together
      with a `prev` map that retraces that path, or None exactly when no path
      reaches `endId`. */
  method Search(succ: State -> seq<Edge>, start: State, endId: string, ghost universe: set<State>)
    returns (best: Option<State>, prev: map<State, Pred>, ghost bestPath: seq<Edge>)
    requires start in universe && Closed(succ, universe)
    ensures best.None? ==> forall p :: IsPath(succ, start, p) ==> Last(start, p).node != endId
    ensures best.Some? ==>
              && IsPath(succ, start, bestPath)
              && Last(start, bestPath) == best.value
              && best.value.node == endId
              && ChainFollows(prev, start, bestPath)
              && (forall i :: 0 <= i < |bestPath| ==> StateAt(start, bestPath, i).node != endId)
              && (forall p :: IsPath(succ, start, p) && Last(start, p).node == endId ==>
                    Cost(bestPath) <= Cost(p))
  {
    var f := Initial(start);
    ghost var expanded: set<State> := {};
    ghost var paths: map<State, seq<Edge>> := map[start := []];
    InitialInv(succ, start, endId, universe);

    while |f.queue| > 0
      invariant Bookkeeping(start, endId, universe, f, expanded) && Relaxed(succ, f.dist, expanded)
      invariant Witnessed(succ, start, f.dist, f.prev, paths, expanded)
      decreases |universe - f.visited|, |f.queue|
    {
      f, expanded, paths := Visit(succ, start, endId, universe, f, expanded, paths);
    }

    best := f.best;
    prev := f.prev;
    if best.None? {
      bestPath := [];
      ExhaustedWithoutEnd(succ, start, endId, universe, f, expanded);
    } else {
      bestPath := paths[best.value];
      ExhaustedWithEnd(succ, start, endId, universe, f, expanded, paths);
    }
  }
}
