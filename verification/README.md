# Navigation graph engine of tof-map, in Dafny

This project models the route planner of the tof-map application. The
planner works over a game world of landmarks and translocators: pairs of
linked teleporters. Given a start and an end point, it finds the cheapest
route that alternates walks (each within a maximum range) with teleport
hops.

The model covers the graph store (`POIGraph` in `utils/graph.ts`), the
planner (`findPath`, `getNeighbors`, `reconstructPath`, `stateKey`,
`calculateDistance`, `DEFAULT_CONFIG`) and the coordinate helpers of
`utils/game.ts`. It proves properties of each.

Modules, one per concern:

- `Geometry` (`geometry.dfy`): the POI point and `convertToLeafletCoords`.
  - Dafny has no square root, so the distance function is a parameter `dist`.
  - `IsBlockMetric(dist)` pins it down to the one function `calculateBlockDistance` computes: the non-negative `d` with `d * d == dx*dx + dz*dz`.
  - Coordinates are integers.
- `GraphStore` (`graph_store.dfy`): the node store, as a map plus the Map's insertion order.
  - Every mutation is a function from the old store to the new one.
  - A thrown `Error` is a `Failure` value.
  - `Valid` is the representation invariant; `Consistent` is the pairing invariant between linked translocators.
- `Paths` (`paths.dfy`): search states `(node, canWalk)`, moves, paths, their cost, and `stateKey`.
- `Search` (`search.dfy`): the Dijkstra loop of `findPath`.
  - It is written against an arbitrary successor function.
  - It proves soundness, optimality, completeness and termination of the loop as the source writes it: first-minimum pop, skip of visited states, pruning against the best end distance, and strict-improvement relaxation.
- `Moves` (`moves.dfy`): the configuration and `getNeighbors`.
  - `getNeighbors` is modelled in the source's order of moves and of Map iteration.
  - A declarative statement of the movement rules (`IsMove`) is proved to describe exactly the moves it lists.
- `Route` (`route.dfy`): `reconstructPath` as its two loops.
  - They are proved to produce the rendering of the path that the predecessor map encodes.
  - A declarative `ValidRoute` states what every returned route looks like.
- `Planner` (`planner.dfy`): `findPath` itself, combining the above.

Requirements the model states where the source silently relies on them:

- `findPath` requires `LinksResolve`: every truthy link names a stored node. With a dangling link, `getNeighbors` may throw a `TypeError`: line 224 fetches `undefined` and line 227 reads its `type` (`utils/graph.ts:224-227`). That happens only if the teleport onto the missing id is relaxed and its state is later popped while neither visited nor pruned.
- `findPath` requires a non-negative walk multiplier and teleport weight.
  - The search loop always ends, whatever the weights: every state is expanded at most once, because of the `visited` check (`utils/graph.ts:179-180`).
  - Relaxation does not check `visited` (`utils/graph.ts:198-200`). A negative weight can therefore rewrite the predecessor of an already settled state and close a cycle in `prev`.
  - `reconstructPath`'s `while (current)` loop (`utils/graph.ts:291-296`) then never ends.
- The landmark-confinement property ("landmarks are only start or end") holds when every resolving link names a translocator (`PartnersAreTranslocators`).
  - `Consistent` stores have this property.
  - `addNode` overwriting a linked translocator with a landmark breaks it (see Findings). That is why `AddPreservesConsistent` excludes overwriting a linked node.
  - `AddNodeReleasing` is the corrected `addNode`: it clears the old partner's back-link first, and it keeps the property for every input.

Behaviour the model keeps as written:

- The search does not stop when it first settles an end state (utils/graph.ts:184-189). It keeps popping until the frontier is empty, and skips every entry no better than the best end distance (utils/graph.ts:182).
- `linkTranslocators` does not refuse to relink an already linked node (utils/graph.ts:101-102; see Findings).
- `addNode` replaces an existing record wholesale, links included, and leaves the old partner's link in place (utils/graph.ts:78-84; see Findings). A landmark can then appear inside a route, against the landmark constraint of utils/graph.ts:65.

## Model

| member | source | states |
|---|---|---|
| `Geometry.ToLeaflet` | utils/game.ts:4-10 | the converted point has the same x and y and the opposite z, and equals the original exactly when z is zero |
| `Geometry.ToLeafletInvolution` | utils/game.ts:4-10 | converting twice gives back the original point |
| `Geometry.BlockDistanceUnique` | utils/game.ts:12-16 | two non-negative roots of dx*dx + dz*dz are equal, so the block distance is a single well-defined value |
| `Geometry.MetricIsNonNegative` | utils/game.ts:12-16 | the block distance is never negative |
| `Geometry.BlockDistanceSymmetric` | utils/game.ts:12-16 | distance(a, b) equals distance(b, a) |
| `Geometry.BlockDistanceIgnoresY` | utils/game.ts:12-16 | changing the y of either point leaves the distance unchanged |
| `Geometry.BlockDistanceZeroIff` | utils/game.ts:12-16 | the distance is non-negative, and zero exactly when the points share x and z |
| `Geometry.BlockDistanceLeafletInvariant` | utils/game.ts:4-16 | converting both points to map coordinates leaves their distance unchanged |
| `Geometry.WithinRangeIff` | utils/graph.ts:240-241 | a distance is within a range exactly when the range is non-negative and dx*dx + dz*dz is at most its square, which is the range test stated without a square root |
| `GraphStore.Empty` | utils/graph.ts:71 | a fresh graph has no nodes and no iteration order, and meets the representation and pairing invariants |
| `GraphStore.Clear` | utils/graph.ts:329-332 | after clear no id is found, getAllNodes is empty, and the pairing invariant holds |
| `GraphStore.Without` | utils/graph.ts:120 | deleting a key from the iteration order keeps exactly the other keys in their original relative order, still without duplicates, and does nothing for an absent key |
| `GraphStore.AddNode` | utils/graph.ts:77-85 | the id is stored with a fresh unlinked record, with its description defaulting to the empty string; every other id is untouched; a new id goes last in iteration order and an existing one keeps its place; the representation invariant is kept |
| `GraphStore.LinkTranslocators` | utils/graph.ts:90-105 | it fails exactly when an id is missing (NodeNotFound) or a node is not a translocator (NotTranslocators); on success A links to B, B links to A, and no other node or key changes |
| `GraphStore.RemoveNode` | utils/graph.ts:110-121 | the id disappears; the remaining ids keep their insertion order; the partner named by its truthy link, if stored, loses its link; every other node is unchanged; an unknown id changes nothing |
| `GraphStore.GetNode` | utils/graph.ts:126-128 | a node is returned exactly when the id is stored, and it is the stored record |
| `GraphStore.GetNodeColor` | utils/graph.ts:140-143 | an unknown id has no colour; a stored id has the colour of the record getNode returns |
| `GraphStore.GetAllNodes` | utils/graph.ts:133-135 | the stored nodes, in insertion order |
| `GraphStore.AllNodesExactlyOnce` | utils/graph.ts:133-135 | getAllNodes lists every stored node exactly once |
| `GraphStore.ConsistentResolves` | utils/graph.ts:90-105 | in a store where every link is symmetric, every link names a stored translocator |
| `GraphStore.AddPreservesConsistent` | utils/graph.ts:77-85 | adding a node keeps links symmetric unless it overwrites a linked node |
| `GraphStore.LinkPreservesConsistent` | utils/graph.ts:90-105 | linking two unlinked (or already mutually linked) translocators succeeds and keeps links symmetric |
| `GraphStore.RemovePreservesConsistent` | utils/graph.ts:110-121 | removing a node keeps links symmetric, and no remaining node links to the removed id |
| `GraphStore.GetNodeAfterAdd` | utils/graph.ts:77-85 | getNode and getNodeColor right after addNode return the fresh record and its colour |
| `GraphStore.LinkThenRemoveClearsPartner` | utils/graph.ts:90-121 | linking A with B and then removing A leaves B stored and unlinked |
| `GraphStore.LinkWithLandmarkFails` | utils/graph.ts:97-99 | linking when either node is a landmark fails with NotTranslocators |
| `GraphStore.RelinkThenRemoveDangles` | utils/graph.ts:90-121 | link A-B, then B-C, then remove B: A is left linked to the removed B, so not every link resolves |
| `GraphStore.LinkTranslocatorsExclusive` | utils/graph.ts:90-105 | the same checks and failures as linkTranslocators; on success the two nodes are linked to each other and every other link that named either of them is cleared |
| `GraphStore.ExclusiveLinkPreservesConsistent` | utils/graph.ts:90-105 | with the exclusive link, linking any two translocators keeps links symmetric, whatever they were linked to before |
| `GraphStore.OverwriteOrphansPartner` | utils/graph.ts:77-85 | overwriting a linked translocator with a landmark leaves its old partner a translocator still linked to the id, so every link resolves but not every link names a translocator |
| `GraphStore.AddNodeReleasing` | utils/graph.ts:77-85 | the same store, order and fresh record as addNode, except that the old partner of an overwritten linked node loses its link; every other node is unchanged |
| `GraphStore.ReleasingAddPreservesConsistent` | utils/graph.ts:77-85 | adding any node with the partner released keeps links symmetric, including an overwrite of a linked node |
| `GraphStore.ExclusiveRelinkThenRemoveResolves` | utils/graph.ts:90-121 | the relink-then-remove sequence that leaves a dangling link leaves every link resolving when the exclusive link is used |
| `Paths.StateKey` | utils/graph.ts:211-213 | the key is the node id, a colon, then "true" exactly when the state may walk and "false" exactly when it may not |
| `Paths.StateKeyInjective` | utils/graph.ts:211-213 | two states have the same key exactly when they are the same state, so keying the maps by state is faithful |
| `Paths.CostPrefixAtMost` | utils/graph.ts:182 | with non-negative weights no prefix of a path costs more than the path, which is why pruning states no better than the best end distance loses nothing |
| `Search.FirstMinIndex` | utils/graph.ts:175-176 | the index of the entry that the stable sort then shift removes: of least distance, and before it only entries of greater distance |
| `Search.RemoveAt` | utils/graph.ts:176 | removing that entry leaves one entry fewer, and the remaining entries are the others in their original order |
| `Search.FewerUnvisited` | utils/graph.ts:179-180 | marking a new state visited shrinks the set of unvisited states, which bounds the number of loop iterations |
| `Search.ExhaustedWithoutEnd` | utils/graph.ts:174-206 | when the frontier empties with no end state recorded, no path of moves from the start reaches the end node |
| `Search.ExhaustedWithEnd` | utils/graph.ts:174-208 | when the frontier empties with an end state recorded, the recorded predecessors spell out a path to it that is no costlier than any path to the end node |
| `Search.Relax` | utils/graph.ts:199-201 | the target gets the new distance and the current state as predecessor with the move's kind; its entry is appended at the end of the queue; the target is the only state that may gain a distance or predecessor; visited and the best end state are untouched |
| `Search.RelaxFrame` | utils/graph.ts:199-201 | a relaxation changes no other state's distance or predecessor, gives no other state a distance or predecessor it lacked, and drops no queued entry |
| `Search.Step` | utils/graph.ts:195-202 | a move whose path through the current state is not strictly shorter than the target's distance changes nothing; otherwise the step is exactly the relaxation of the target to that distance; either way the target ends at most that distance, never higher than before |
| `Search.RelaxNeighbors` | utils/graph.ts:192-203 | relaxing every move of a settled state keeps the search invariants and records, for every state with a distance, a path of exactly that cost that the predecessor map follows |
| `Search.Visit` | utils/graph.ts:175-203 | one loop iteration keeps the invariants and either shrinks the frontier or settles a new state |
| `Search.Search` | utils/graph.ts:162-206 | no end state is found exactly when no path reaches the end node; otherwise the end state found is reached by a path that follows the predecessor map, meets the end node only at its end, and costs no more than any path to the end node |
| `Moves.ResolveConfig` | utils/graph.ts:154 | each field given by the caller replaces its default, and only that field |
| `Moves.ResolveConfigDefaults` | utils/graph.ts:45-49 | with no overrides the configuration is 500 / 1.0 / 0.1; giving every field yields exactly the given values |
| `Moves.CalculateDistanceIsBlockDistance` | utils/graph.ts:53-57 | calculateDistance on two nodes is calculateBlockDistance on their locations, and symmetric |
| `Moves.CalculateDistance` | utils/graph.ts:53-57 | under the block metric, the result is the non-negative square root of dx*dx + dz*dz of the two locations |
| `Moves.WalkTargets` | utils/graph.ts:251-267 | every walk the loop offers goes to a listed translocator other than the walker and its own partner, within range, and arrives unable to walk; there are no more walks than ids |
| `Moves.Neighbors` | utils/graph.ts:218-271 | from a state that may not walk only teleports are offered, and there are at most two more moves than stored nodes |
| `Moves.WalkTargetsExactly` | utils/graph.ts:251-267 | the loop over the store offers exactly the walks to other in-range translocators, other than the walker's own partner, that arrive unable to walk |
| `Moves.NeighborsExactlyMoves` | utils/graph.ts:218-271 | getNeighbors lists a move exactly when the movement rules allow it: the teleport of a linked translocator, the in-range walk to the destination, or an in-range walk to another translocator that is not the walker's own partner |
| `Moves.MoveTargetStored` | utils/graph.ts:224-233 | only stored nodes have moves, and when every link resolves every move lands on a stored node |
| `Moves.MovesStayInStore` | utils/graph.ts:218-271 | with links resolving and non-negative weights, every move lands on a stored node and has a non-negative weight |
| `Moves.MovesAvoidLandmarks` | utils/graph.ts:226-267 | when every resolving link names a translocator, every move not to the destination lands on a translocator |
| `Moves.DanglingLinkLeavesStore` | utils/graph.ts:224-233 | a link naming an unstored node still yields a teleport, to a node getNeighbors cannot look up |
| `Route.Round` | utils/graph.ts:312 | Math.round: the result is within half a unit, halves rounded up |
| `Route.RoundIsNearest` | utils/graph.ts:312 | the rounding is the one integer in [x - 1/2, x + 1/2), and whole numbers are unchanged |
| `Route.CollectChain` | utils/graph.ts:288-296 | following the predecessor map back from the end state lists the states of the encoded path from its start, each with the kind of move into it |
| `Route.RenderChain` | utils/graph.ts:298-323 | reading that chain front to back yields the nodes of the path, one segment per move with its rounded length, and the rounded sum of the unrounded lengths |
| `Route.ReconstructPath` | utils/graph.ts:276-324 | the result is the rendering of the path the predecessor map encodes |
| `Route.PathInStore` | utils/graph.ts:224-233 | with links resolving, a legal path from a stored node passes only through stored nodes |
| `Route.RenderIsValidRoute` | utils/graph.ts:291-322 | the rendering of a legal path that meets the destination only at its end is a valid route: right endpoints, one segment per pair of consecutive nodes, legal moves, walks followed by teleports, and the total as the rounded sum |
| `Route.RenderShape` | utils/graph.ts:298-322 | the rendered nodes start at the start and end at the destination, all stored, with segment i going from node i to node i+1 |
| `Route.RenderMovesLegal` | utils/graph.ts:226-267 | every rendered segment is a legal move, and a walk that is not last is followed by a teleport |
| `Route.SegmentIsLegal` | utils/graph.ts:226-267 | a teleport segment joins a linked translocator to its partner at distance 0; a walk segment stays in range, leaves its node, reports its rounded distance, and ends at the destination or at a translocator that is not the walker's partner |
| `Route.WalkThenTeleport` | utils/graph.ts:258-266 | a walk that is not the last move of such a path is followed by a teleport |
| `Planner.MovesClosed` | utils/graph.ts:218-271 | the states over stored nodes are closed under the moves, and every move's weight is non-negative |
| `Planner.InteriorIsTranslocators` | utils/graph.ts:226-267 | when every resolving link names a translocator, every node strictly inside such a path is a translocator |
| `Planner.RouteThroughPartner` | utils/graph.ts:226-247 | a translocator linked to any node within walking range of the destination has a legal two-move route: teleport onto that node, then walk to the destination |
| `Planner.OverwriteLeavesLandmarkInside` | utils/graph.ts:77-85 | after addNode overwrites a linked translocator with a landmark, the store still meets findPath's requirements, and a legal route passes through the landmark strictly inside |
| `Planner.ReleasingAddKeepsLandmarksAtEnds` | utils/graph.ts:77-85 | after the corrected addNode every link resolves to a translocator, so landmarks can only be a route's endpoints |
| `Planner.Conclude` | utils/graph.ts:206-208 | the route rebuilt from the best end state is the best route, has only translocators inside when partners are translocators, and is the single node when start and end coincide |
| `Planner.FindPath` | utils/graph.ts:153-209 | no route when either endpoint is missing; with both present, no route exactly when no legal path reaches the end; otherwise a valid route of least total weight among all legal paths; the single-node route with total 0 when start and end coincide; only translocators inside when every link names a translocator |

## Left out

- The `translocatorLinks` map (utils/graph.ts:72, 103-104, 117-118) is written and never read, so it is not modelled.
- Floating-point arithmetic:
  - distances, weights and sums are exact reals, and the square root is characterised, not computed;
  - `Math.round` is modelled on reals as the nearest integer with halves rounded up;
  - floating-point rounding of the sums is not modelled.
- Non-integer coordinates: points have integer x, y and z.
- A `config` object whose field is present but `undefined`: the spread would copy the `undefined`. `Overrides` has only absent or given fields.
- Moves.Neighbors: requires the node to be stored, so the `TypeError` that `getNeighbors` throws on an unstored node is not modelled. `Moves.Succ` offers no moves from an unstored node, and `Planner.FindPath` requires every link to resolve, under which the case cannot arise.
- Planner.FindPath: requires a non-negative walk multiplier and teleport weight. With a negative weight the search still ends, but `prev` can become cyclic, and then `reconstructPath`'s chain loop (utils/graph.ts:291-296) never ends.
- Planner.FindPath: requires `LinksResolve`, which excludes stores with a dangling link. The source runs normally on such a store as long as no state at the missing id is popped unvisited and unpruned; that case is not modelled.
- The `POIGraph` class's mutable identity: the store is a value, and each mutation returns the new store.
- Everything outside the engine: React and Leaflet components, YAML loading, the navigation context and the UI filters.

## Findings

| source | as written | input that shows it | evidently intended | confidence | as-written member | corrected member |
|---|---|---|---|---|---|---|
| utils/graph.ts:77-85 | addNode over a linked translocator replaces its record, landmark kind included, but leaves the old partner linked to the id | translocators A and B linked, and a destination D within walking range of A's new location: addNode(A, …, landmark), then findPath(B, D) may return B, A, D, a route with the landmark A strictly inside | overwriting a node releases its old partner's link, as removeNode does, so landmarks stay at the ends of routes | medium, not executed | `Planner.OverwriteLeavesLandmarkInside` | `GraphStore.AddNodeReleasing` |
| utils/graph.ts:90-105 | linking a node that is already linked overwrites its link but leaves its old partner pointing at it | three stored translocators A, B, C: link A with B, link B with C, remove B; A still links to the removed B, and a later findPath that expands B's state throws in getNeighbors | links stay a symmetric one-to-one pairing, so relinking clears the old partner's link | medium, not executed | `GraphStore.RelinkThenRemoveDangles` | `GraphStore.LinkTranslocatorsExclusive` |
