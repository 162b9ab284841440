# dijkstra.php: potentials, back-pointers and the printed route

This project models the core of `dijkstra.php`, a small PHP route finder.
`printShortestPath` turns a list of priced routes into a `Graph` of `Node`s.
Each route adds its endpoints once and connects origin to destination, and a later route for the same pair overwrites the price.
It then runs `Dijkstra`:

- `solve` calls `calculatePotentials` on the starting node.
  That method relaxes every outgoing edge in insertion order. A node gets a new potential and back-pointer when it has none, or when the candidate is smaller.
  It also records every partial path that ends in the current node, extended by the target.
- It then marks the node passed and recurses into the unpassed neighbours.
  The order is that of `array_flip` followed by `krsort`: descending price, and only the last neighbour of each price.
- `getShortestPath` follows back-pointers from the end node to the start and reverses the walk.
- `getDistance` reports the end node's potential once a solve has succeeded.

How the model is laid out:

- A `Node` is a value: `Nodes.Node` has id, edges, potential, origin and passed flag.
- The node table is the field `nodes` of the class `Graphs.Graph`.
- PHP updates a node object shared with the table. The model writes the updated node back into `graph.nodes`.
- `PathFinder.Dijkstra` is a class whose methods change the graph and their own fields.
- Each loop of the source is a `while` loop with invariants, proved equal to a specification function:
  - `Routes.BuildGraph` (the route loop of `printShortestPath`) to `Routes.Built`;
  - `PathFinder.Dijkstra.ExtendPaths` (the loop over the recorded paths) to `Propagation.Extensions`;
  - `RelaxNeighbours` and `ExpandNeighbours` (the two loops of `calculatePotentials`) to `Propagation.RelaxEdges` and `Propagation.Visit`, and `CalculatePotentials` itself to `Propagation.Expand`;
  - `GetShortestPath` (the back-pointer loop) to `Reconstruction.Walk`.
- PHP's `null` potential is `None`, and PHP's "falsy" potential is `None` or `Some(0)`.
  Arithmetic on an unset potential treats it as 0, because `null + w` is `w`.
- Thrown exceptions become the `Err`/`Fail` cases of `Outcomes.Error`.
  Dereferencing the null origin of an unreachable end node becomes `Unreachable`.

What is proved:

- Graph building yields a table keyed by exactly the route ids.
  It is well formed and closed (no edge leads out of the table), and every edge carries the price of the last route for its pair.
- Propagation never fails on such a table.
- It keeps the back-pointer invariant `BackPointers.PotInv`:
  - a set potential is positive and comes with an origin;
  - the origin has an edge to the node;
  - the node's potential is at least the origin's plus that edge's price (the start's own potential counts as 0, since it may be set later through a cycle).
- The invariant makes `getShortestPath` terminate, because potentials fall strictly along the chain.
- Every node is expanded at most once, and after expansion it and its surviving neighbours are passed.
- The reconstructed route starts at the start, ends at the end and uses only given routes.
- The route's total price is at most the reported distance.
  The code does not make them equal (see "Left out"), so equality is not claimed.
- Under the back-pointer invariant the walk back from the end succeeds exactly when the end is the start or has a potential.
  An end without a potential is reported as `Unreachable`. This happens even when a route exists: with routes S->B (1), S->C (1) and B->D (1), `array_flip` keeps only the later edge S->C of weight 1, so B is never expanded and D never gets a potential (`Flip.FlippedTie`).

## Model

| member | source | states |
|---|---|---|
| Nodes.Node.New | dijkstra.php:60-69 | A new node has the given id, no connections, no potential, no origin and is not passed. |
| Nodes.Distance | dijkstra.php:77-79 | There is a weight for a target iff some edge leads to it; with distinct targets it is that edge's weight. |
| Nodes.Node.Connect | dijkstra.php:72-74 | After connecting, the distance to the target is the new weight. Every other target keeps its distance. The edge list grows only for a new target, earlier positions keep their targets, targets stay distinct, and the other fields are unchanged. |
| Nodes.Upsert | dijkstra.php:73 | After assigning into the connections array there is an edge to the target with the new weight, and at most one edge was added. |
| Nodes.UpsertSpec | dijkstra.php:73 | Assigning into the connections array sets that target's weight, keeps every other distance, appends only a new key and keeps the keys' order. |
| Nodes.UpsertDistinct | dijkstra.php:73 | Assigning into the connections array keeps the targets distinct. |
| Nodes.Node.SetPotential | dijkstra.php:112-120 | The flag is true iff the node has no truthy potential or the candidate is smaller. Then potential and origin are the candidate and the source, otherwise the node is unchanged. Id, edges and passed flag never change, and a truthy potential never increases. |
| Nodes.Node.MarkPassed | dijkstra.php:107-109 | The node becomes passed, nothing else changes, and marking twice changes nothing. |
| Graphs.Graph.constructor | dijkstra.php:33 | A new graph has no nodes. |
| Graphs.Graph.Add | dijkstra.php:36-42 | Adding a present id fails with DuplicateId and leaves the table alone; otherwise the node is stored under its id. |
| Graphs.Graph.GetNode | dijkstra.php:45-51 | The lookup succeeds iff the id is present, returns the stored node, and otherwise fails with NodeNotFound for that id. |
| Routes.Step | dijkstra.php:240-255 | One pass of the loop adds exactly the route's two ids to the table. Every node other than the origin stays as it was, and a new destination is a fresh node. The origin's distance to the destination becomes the price, and its other distances are unchanged (none for a new origin). |
| Routes.Built | dijkstra.php:239-256 | No routes give an empty table. Otherwise both ids of the last route are in the table, and the origin's distance to the destination is the last route's price. |
| Routes.BuiltKeys | dijkstra.php:239-256 | The built table holds exactly the ids named by the routes. |
| Routes.BuiltWellFormed | dijkstra.php:239-256 | Every built node sits under its own id, has distinct targets and has no search state. |
| Routes.BuiltWeights | dijkstra.php:239-256 | The distance from a to b in the built table is the price of the last route from a to b, or none. |
| Routes.BuiltClosed | dijkstra.php:239-256 | Every edge of the built table leads to a node of the table. |
| Routes.AddRoute | dijkstra.php:240-255 | One pass of the building loop adds the missing endpoints and then connects the origin to the destination. |
| Routes.BuildGraph | dijkstra.php:238-256 | The loop's table is the built table of all routes, in order. |
| Flip.Survivors | dijkstra.php:199 | array_flip keeps only edges of the list, and no more than the list has. |
| Flip.Insert | dijkstra.php:200 | Inserting adds exactly the new edge to the multiset of edges. |
| Flip.SortDescending | dijkstra.php:200 | krsort permutes the edges: the result has the same multiset. |
| Flip.Flipped | dijkstra.php:198-200 | The recursion list holds only edges of the node, and no more than it has. |
| Flip.SurvivorsSpec | dijkstra.php:199 | array_flip keeps exactly the edges that are last of their weight, and no two kept edges share a weight. |
| Flip.InsertSpec | dijkstra.php:200 | Inserting into a strictly descending list keeps it strictly descending and adds exactly the new edge. |
| Flip.SortSpec | dijkstra.php:200 | krsort of edges with distinct weights is strictly descending and keeps exactly the same edges. |
| Flip.FlippedOrder | dijkstra.php:198-200 | The recursion order is strictly descending by weight and holds exactly the last edge of each weight. |
| Flip.FlippedTie | dijkstra.php:198-200 | Of two edges with the same weight, only the later one is recursed into. |
| Propagation.Extensions | dijkstra.php:204-209 | The loop appends at most one path per recorded path. |
| Propagation.ExtensionsSpec | dijkstra.php:204-209 | Every appended path is a recorded path that ends in the node, followed by the target. |
| Propagation.ExtensionsComplete | dijkstra.php:204-209 | Every recorded path that ends in the node is appended, followed by the target. |
| Propagation.RelaxEdge | dijkstra.php:202-209 | Relaxing an edge fails with NodeNotFound iff its target is missing; otherwise ids, edges, passed flags and the log are unchanged. |
| Propagation.RelaxEdges | dijkstra.php:201-210 | The relaxation loop changes no id, edge, passed flag or log entry. |
| Propagation.Marked | dijkstra.php:211 | Marking keeps the ids. The node becomes passed and is otherwise unchanged, every other node is unchanged, the paths are unchanged, and the node is appended to the expansion log. |
| Propagation.Expand | dijkstra.php:197-219 | Propagation keeps ids and edges and never unmarks a node. |
| Propagation.Visit | dijkstra.php:213-218 | The recursion loop keeps ids and edges and never unmarks a node. |
| Propagation.MarkedUnpassed | dijkstra.php:211 | Marking the node after its relaxation loop removes exactly that node from the unpassed ones. |
| BackPointers.FreshPotInv | dijkstra.php:60-69 | A table of fresh nodes satisfies the back-pointer invariant for any start. |
| Invariants.RelaxedKeepsPotInv | dijkstra.php:203 | One setPotential along an edge keeps the back-pointer invariant, keeps every set potential set and leaves the target with a potential. |
| Invariants.RelaxEdgeKeepsPotInv | dijkstra.php:202-203 | One relaxation from the start or from a node with a potential keeps the invariant and gives the target a potential. |
| Invariants.RelaxEdgesKeepsPotInv | dijkstra.php:201-210 | The relaxation loop keeps the invariant and gives every target a potential. |
| Invariants.MarkKeepsPotInv | dijkstra.php:211 | Marking the node passed keeps the table well formed and the invariant intact. |
| Invariants.ExpandKeepsPotInv | dijkstra.php:197-219 | Propagation from the start keeps the back-pointer invariant and never unsets a potential. |
| Invariants.VisitKeepsPotInv | dijkstra.php:213-218 | The recursion loop keeps the invariant and never unsets a potential. |
| Expansion.ExpandOnce | dijkstra.php:211-218 | Expanding an unpassed node appends it to the expansion log before anything else. The log lists each passed node exactly once, so no node is expanded twice. |
| Expansion.VisitOnce | dijkstra.php:213-218 | The recursion loop only extends the log and keeps each passed node in it exactly once. |
| Expansion.ExpandReaches | dijkstra.php:211-218 | After propagation from a node, it and every neighbour kept by the flip are passed. |
| Expansion.VisitReaches | dijkstra.php:213-218 | After the recursion loop, the target of every edge visited is passed. |
| Expansion.ExpandTotal | dijkstra.php:197-219 | On a closed table propagation never fails. |
| Expansion.RelaxEdgesTotal | dijkstra.php:201-210 | The relaxation loop never fails when every target exists. |
| Expansion.VisitTotal | dijkstra.php:213-218 | The recursion loop never fails on a closed table whose visited targets exist. |
| Reconstruction.Walk | dijkstra.php:159-168 | The walk back from the end either fails with Unreachable or yields a path from the start to the end with at least one node. |
| Reconstruction.Reverse | dijkstra.php:167 | array_reverse keeps the length and puts the element at position i at position length-1-i. |
| Reconstruction.WalkReaches | dijkstra.php:159-168 | Under the back-pointer invariant, the walk succeeds iff the end is the start or has a potential. |
| Reconstruction.WalkShape | dijkstra.php:159-168 | A reconstructed path starts at the start and ends at the end node, all inside the table. Every later node is not the start, has its predecessor as origin and is reached from it by an edge. The only failure is Unreachable. |
| Reconstruction.WalkWeight | dijkstra.php:159-168 | The reconstructed path weighs at most the end node's potential, and a path of more than one node ends at a node with a potential. |
| PathFinder.Dijkstra.constructor | dijkstra.php:124-133 | A new solver holds the graph, has no endpoints, paths or solution, and is valid on a well-formed table. |
| PathFinder.Dijkstra.SetStartingNode | dijkstra.php:181-184 | The start is set and the single-node path to it is appended to the recorded paths. |
| PathFinder.Dijkstra.SetEndingNode | dijkstra.php:176-178 | The end is set. |
| PathFinder.Dijkstra.GetDistance | dijkstra.php:136-141 | The distance fails with NotSolved iff there is no solution yet; otherwise it is the end node's potential. |
| PathFinder.Dijkstra.ExtendPaths | dijkstra.php:204-209 | Every recorded path ending in the node is appended once more, extended by the target, in the order of the recorded paths. |
| PathFinder.Dijkstra.RelaxEdgeOf | dijkstra.php:202-209 | One pass of the relaxation loop yields the state RelaxEdge computes, or its NodeNotFound failure. |
| PathFinder.Dijkstra.RelaxNeighbours | dijkstra.php:201-210 | The relaxation loop yields the state RelaxEdges computes, or its first failure. |
| PathFinder.Dijkstra.ExpandNeighbours | dijkstra.php:213-218 | The recursion loop yields the state Visit computes, or its first failure. |
| PathFinder.Dijkstra.CalculatePotentials | dijkstra.php:197-219 | The new graph, paths and log are those Expand computes from the old ones, and a dangling edge fails with NodeNotFound. |
| PathFinder.Dijkstra.GetShortestPath | dijkstra.php:159-168 | The loop returns the back-pointer walk from the start to the end, reversed into start-to-end order. |
| PathFinder.Dijkstra.Solve | dijkstra.php:187-194 | Without both endpoints it fails with MissingEndpoint and changes nothing. Otherwise the state is Expand's, the solver stays valid, and the result is the back-pointer walk, remembered as the solution on success. |
| Query.SolvedPath | dijkstra.php:258-266 | On a table built from the routes and then solved, the walk to the end is a valid answer. It runs from start to end, every step is a given route, and its total price is at most the reported distance. |
| Query.Prepare | dijkstra.php:258-262 | The new solver holds the graph, has both endpoints set and is valid. Its recorded paths are just the start, and its log and solution are empty. |
| Query.Solved | dijkstra.php:187-194 | The table that propagation from the start leaves on a closed table keeps the ids and edges and never unmarks a node. |
| Query.SolvedBuilt | dijkstra.php:237-262 | The table propagated from the start over the table built from the routes has exactly the route ids as keys and keeps the back-pointer invariant. |
| Query.SolveOn | dijkstra.php:258-265 | After solve on a fresh, closed table, the solver is still valid and the table is exactly `Query.Solved` of the old one: Expand's result from the start. The result is the back-pointer walk, and a successful walk is stored as the solution. |
| Query.Run | dijkstra.php:258-266 | Solving a fresh, closed table yields exactly `Query.Solved` of it and keeps the invariant. It fails only as Unreachable, and it fails exactly when the end is not the start and has no potential. Otherwise the answer is the walk with the end node's potential. |
| Query.ShortestPath | dijkstra.php:237-267 | A start id missing from the routes fails with NodeNotFound for it, then likewise the end. Otherwise the result is Unreachable exactly when the end is not the start and propagation over the built table leaves the end without a potential (`Query.Unreached`). An answer is exactly the back-pointer walk of that propagated table (`Query.SolvedBuilt`) with the end node's potential as its total; it runs from start to end along given routes, and its price is at most that total. |

## Left out

- Reading `graf.json`, `$_POST`, `json_decode` and the `echo` output of `printShortestPath` are outside the model. The query returns the route as a list of ids and the total as an optional integer.
- `getLiteralShortestPath` only formats ids into a string (with `substr`/`count` on a string). The model returns the ids themselves, and `Query.ShortestPath` calls `Solve` directly.
- `getConnections`, `getId`, `getPotential`, `getPotentialFrom`, `isPassed`, `getNodes`, `getEndingNode`, `getStartingNode`, `getGraph`, `getPaths` and `isSolved` are reads of a datatype or class field. The interfaces `NodeInterface` and `GraphInterface` are not modelled.
- Node identity and aliasing: a node is a value owned by the table, and an update is written back under its id. A `Node` object that is not in the graph cannot be given to the solver.
- PHP integer overflow: a potential plus a price past `PHP_INT_MAX` becomes a float before the `(int)` cast at dijkstra.php:113. Dafny's `int` is unbounded, so this is not modelled.
- The default `$distance = 1` of `connect` (dijkstra.php:72) is not modelled: the core always passes the route's price.
- Prices are positive integers. Float, zero, negative and string prices are not modelled, and the `(int)` cast in `setPotential` is the identity here.
- PHP's numeric-string array keys and the loose `!=` comparison of ids in `getShortestPath` are not modelled; ids are compared exactly.
- Exception messages are not modelled, only which error occurs.
- PathFinder.Dijkstra.SetStartingNode: requires the start to be in the table and the back-pointer invariant to hold for it. The source accepts any node, but a loop over an arbitrary chain of origins need not end.
- PathFinder.Dijkstra.GetShortestPath: requires the back-pointer invariant. On a table without it, the source can loop forever.
- PathFinder.Dijkstra.Solve: on a failed propagation (a dangling edge), the ensures says nothing about `graph.nodes`, the recorded paths or `Valid()`. Like the source, the model keeps the relaxations made before the failure.
- PathFinder.Dijkstra.CalculatePotentials: on `Fail` (a dangling edge) the ensures gives only the error, not `graph.nodes` or the recorded paths. Like the source, it keeps the relaxations made before the failing `getNode`.
- PathFinder.Dijkstra.RelaxNeighbours: on `Fail` (a dangling edge) the ensures gives only the error, not `graph.nodes` or the recorded paths. Like the source, it keeps the relaxations made before the failing `getNode`.
- PathFinder.Dijkstra.ExpandNeighbours: on `Fail` (a dangling edge) the ensures gives only the error, not `graph.nodes` or the recorded paths. Like the source, it keeps the relaxations made before the failing `getNode`.
- Query.ShortestPath: states that the answer is the walk of the propagated table and the total is the end's potential, and that the route's price is at most that total, not equal to it.
  The routes are meant to be shortest, with the total as their price, but the code does not guarantee this. A node marked passed is never expanded again, so a smaller potential found for it later does not reach the nodes behind it. Its successors then keep a back-pointer whose edge is cheaper than their potential says.
  Neither shortest-ness nor equality is claimed.
  For example, with routes S->X (10), S->A (1), A->X (1) and X->Y (1), X is expanded first at potential 10 and gives Y the potential 11. A then lowers X to 2, but X is already passed, so the reported distance to Y stays 11 while the route S, A, X, Y costs 3. No lemma computes this run: it is an example, not a proved statement.
- The recorded `paths` list is modelled and proved to grow as the source grows it, but nothing reads it, as in the source.
