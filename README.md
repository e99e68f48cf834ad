# Maximum matching by branch and bound: a Dafny model

MCM_BranchAndBound finds a maximum matching of an undirected graph. It searches
a tree of partial decisions: in a search state each edge is included,
excluded or still free. The bound of a state is half the number of nodes that
still have an edge that is not excluded. A max-priority queue orders the states
by that bound. The search takes the state with the largest bound and discards it
when its bound is strictly below the best leaf found so far. A state with no free
edge is a leaf; otherwise each of its free edges gives one child, which includes
that edge and excludes every free edge that touches it.

The model covers:

- the search state `MCMGraph` (graph.py);
- the queue `MaxPriorityQueue` and the engine `BranchAndBound` (branchbound.py);
- the scenario of the unit test in test_graph.py.

Modules, one per file:

- `Edges` (edges.dfy): edges as node pairs with the smaller node first, endpoints,
  degree, neighbours, matchings and maximum matchings.
- `StateSpec` (state_spec.dfy): the abstract value of a search state, a `State`
  with `edges`, `included`, `excluded` and `free`. It also defines the functions
  `Include`, `Exclude`, `Propagate` and `Child` and the bound `RawScore`.
- `SearchTree` (search_tree.dfy): `Opt(s)`, the best leaf below `s`. It is proved
  to be the size of a largest matching that `s` can still be completed to, and
  never more than the bound.
- `Graph` (graph.dfy): the class `MCMGraph`. Its fields are the source's edge
  sets, the per-node `score` attribute and `_score`. Its methods change them in
  place and are proved against `StateSpec` through `View()`. `Valid()` says five
  things: the endpoints of every edge are nodes and only nodes carry a score,
  the edge sets partition the graph, `not_excluded_edges` is included plus free,
  `_score` is the sum of the node scores, and every node score is current.
- `BranchBound` (branch_bound.dfy): the queue over a sequence of
  (negated key, value) entries, and the class `BranchAndBound`. `FindBest` is
  proved to return a leaf whose included edges form a largest completion of the
  original state. When the original state is the root, that is a maximum
  matching of the graph. The loop ends because the total of a bound on the
  states each queued entry can still expand goes down at every pass.
- `GraphExample` (graph_example.dfy): the unit test's graph and steps, with the
  bound they produce.

Bounds are kept as `_score`, twice the source's `score`. The incumbent
`global_best` is kept doubled too. Every comparison the search makes is
therefore the same comparison as in the source.

Some points of the code that the model follows as written:

- `get_next_states` branches only by inclusion, one child per free edge
  (graph.py:100-108).
- The search keeps no record of the states it has seen (branchbound.py:28-36).
- `worst_than` prunes only when the bound is strictly below the incumbent
  (graph.py:72-75).
- `add_exclude_edge` refreshes no node score (graph.py:57-63).

## Model

| member | source | states |
|---|---|---|
| Edges.MkEdge | graph.py:51-53 | an undirected edge is the same value whichever way round its endpoints are given |
| Edges.DegreeCovers | graph.py:77-78 | a node has degree at least 1 in an edge set exactly when some edge of the set touches it |
| Edges.NeighbourEdge | graph.py:89 | `w` is a neighbour of `n` exactly when `w != n` and the edge (n, w) is in the graph |
| Edges.EndpointsMonotone | graph.py:44-46 | fewer edges cover no more nodes |
| Edges.MatchingEndpoints | graph.py:44-46 | a matching covers exactly twice as many nodes as it has edges |
| Edges.MatchingWithin | graph.py:44-46 | a matching inside an edge set has at most half as many edges as the set covers nodes |
| StateSpec.ExcludeKeepsPartition | graph.py:57-63 | excluding keeps the partition and the included edges, and takes the edge out of the not-excluded edges when it was free |
| StateSpec.ExcludeIdempotent | graph.py:57-59 | excluding an edge that is not free changes nothing, so excluding twice is excluding once |
| StateSpec.PropagateIdempotent | graph.py:87-93 | propagating the same edge a second time changes nothing |
| StateSpec.ChildEffect | graph.py:51-55 | a child includes its edge, excludes the free edges touching it and leaves every other edge's status alone |
| StateSpec.ChildPartitioned | graph.py:100-108 | a child's edge sets still partition the same graph |
| StateSpec.ChildFewerFree | graph.py:100-108 | a child has strictly fewer free edges than its parent |
| StateSpec.ChildPropagated | graph.py:87-93 | after inclusion and propagation the included edges are a matching, no free edge touches a matched node, and every excluded edge touches an included one |
| StateSpec.ChildScore | graph.py:44-46 | a child keeps a subset of its parent's not-excluded edges, so its bound is no larger |
| StateSpec.ExcludeScore | graph.py:57-63 | excluding never raises the bound |
| StateSpec.CompletionWithinBound | graph.py:40-46 | the bound is at least the size of every matching drawn from the not-excluded edges |
| StateSpec.LeafScore | graph.py:40-46 | at a propagated leaf the bound equals the number of included edges |
| StateSpec.LeafMaximal | graph.py:100-108 | a leaf reached by propagation holds a maximal matching: every other edge touches an included edge |
| StateSpec.RootCompletions | graph.py:35-38 | the initial state is partitioned and propagated, and its completions are exactly the matchings of the graph |
| SearchTree.BestChildIsMax | graph.py:100-108 | the best of the children for a set of free edges is at least each of them and attained by one |
| SearchTree.ExpandKeepsOpt | graph.py:100-108 | no child's best leaf beats its parent's, and some child's equals it |
| SearchTree.ChildReady | graph.py:100-108 | a child of a consistent, propagated state is consistent and propagated, with fewer free edges |
| SearchTree.ChildCompletion | graph.py:100-108 | a completion of a child is a completion of its parent |
| SearchTree.OptAttained | branchbound.py:25-37 | some completion of a state has as many edges as the best leaf below it |
| SearchTree.ChildKeepsCompletion | graph.py:100-108 | including an edge of a completion keeps that completion reachable |
| SearchTree.ChildExtendsIncluded | graph.py:100-108 | including any free edge yields a completion one edge larger than the included edges |
| SearchTree.OptAboveChild | graph.py:100-108 | a lower bound on a child's best leaf is a lower bound on its parent's |
| SearchTree.OptViaChild | graph.py:100-108 | a completion of any child has no more edges than the best leaf below the parent |
| SearchTree.OptDominates | branchbound.py:25-37 | no completion of a state is larger than the best leaf below it |
| SearchTree.Admissible | graph.py:40-46 | the bound never falls below the best leaf reachable from the state |
| SearchTree.LeafOpt | graph.py:40-46 | at a leaf the best leaf is the leaf itself and the bound is exact |
| SearchTree.RootOpt | graph.py:35-38 | from the initial state the best leaf is at least as large as every matching of the graph |
| Graph.AroundBoth | graph.py:87-93 | the passes over both endpoints of the edge together exclude exactly the free edges that touch it |
| Graph.CutAdvance | graph.py:89-92 | visiting one more neighbour excludes its edge unless it is the propagated edge itself |
| Graph.CutClose | graph.py:89 | once all neighbours of a node are visited, every free edge at that node other than the propagated one is excluded |
| Graph.EndpointsWithout | graph.py:80-85 | removing edges that do not touch a node leaves that node covered or uncovered as before |
| Graph.CoverKept | graph.py:89-93 | excluding the edge to the far end leaves the score of every node other than the far end current |
| Graph.OnesAdd | graph.py:65-70 | adding a node with score 0 or 1 raises the count of scored nodes by that score |
| Graph.OnesSet | graph.py:80-85 | changing one node's score changes the sum by the difference |
| Graph.AllChildrenSnoc | graph.py:107 | appending a child keeps every collected state a child of the parent for its edge |
| Graph.MCMGraph.FromEdges | graph.py:10-16 | a new graph has the given edges and their endpoints as nodes, empty edge sets and `_score` 0 |
| Graph.MCMGraph.Copy | graph.py:103 | the deep copy has every field equal to the original's and shares no object with it |
| Graph.MCMGraph.Initialize | graph.py:35-38 | every edge becomes free and not excluded, node scores are current, and a fresh graph becomes the root state with `_score` the number of covered nodes |
| Graph.MCMGraph.InitializedIsRoot | graph.py:35-38 | an initialized graph with no decisions yet is the root state and `_score` counts every node an edge touches |
| Graph.MCMGraph.GetNodeScore | graph.py:77-78 | a node scores 1 exactly when a not-excluded edge touches it, else 0 |
| Graph.MCMGraph.ScoreNode | graph.py:68-70 | one pass of the scoring loop stores the node's current score and `_score` then counts the scored nodes visited so far |
| Graph.MCMGraph.InitScore | graph.py:65-70 | every node's stored score is recomputed and `_score` becomes their sum |
| Graph.MCMGraph.CountedIsCovered | graph.py:65-70 | with current scores, the nodes counted in `_score` are exactly the nodes covered by not-excluded edges |
| Graph.MCMGraph.Score | graph.py:40-46 | `_score` (twice `score` and `local_best`) is the number of nodes covered by not-excluded edges |
| Graph.MCMGraph.BoundAdmissible | graph.py:40-46 | the bound is at least twice the size of every completion of the state |
| Graph.MCMGraph.IsMatched | graph.py:48-49 | a node is matched exactly when an included edge touches it; a matched node scores 1 and, once propagated, touches no free edge |
| Graph.MCMGraph.WorstThan | graph.py:72-75 | true exactly when there is an incumbent and the bound is strictly below it; false with no incumbent |
| Graph.MCMGraph.PruneSafe | graph.py:72-75 | a state that fails the test has no completion that reaches the incumbent |
| Graph.MCMGraph.AddExcludeEdge | graph.py:57-63 | a free edge moves to excluded and out of the not-excluded edges; any other edge leaves the state unchanged |
| Graph.MCMGraph.UpdateScore | graph.py:80-85 | the node's stored score becomes current and `_score` changes by the difference |
| Graph.MCMGraph.VisitNeighbour | graph.py:89-93 | one inner pass: skips an endpoint of the edge, otherwise excludes the edge to the neighbour, keeping the state valid |
| Graph.MCMGraph.PropagateAt | graph.py:88-93 | the pass over one endpoint excludes every free edge at that endpoint other than the propagated edge |
| Graph.MCMGraph.PropagateConstraints | graph.py:87-93 | excludes exactly the free edges that share an endpoint with the edge, keeping scores current |
| Graph.MCMGraph.AddIncludeEdge | graph.py:51-55 | the free edge moves to included and the constraints it imposes are propagated: the state becomes the child for that edge |
| Graph.MCMGraph.NextState | graph.py:103-105 | returns a new valid state that is the child for the edge, leaving this state alone |
| Graph.MCMGraph.AppendChild | graph.py:103-107 | one pass of the branching loop adds one more state that is the child for its edge |
| Graph.MCMGraph.GetNextStates | graph.py:100-108 | one child per free edge, each the child for its own edge; the edges branched on are the free edges, each exactly once |
| Graph.MCMGraph.IsSetEdgeAsWritten | graph.py:95-98 | as written, an edge counts as set exactly when it is excluded |
| Graph.MCMGraph.IsSetEdge | graph.py:95-98 | corrected: an edge of the graph is set exactly when it is not free |
| Graph.MCMGraph.IsSetEdgeMissesIncluded | graph.py:95-98 | the two disagree on every included edge |
| GraphExample.ForcedExample | test_graph.py:5-10 | in the test graph, including (1, 2) forces out (2, 3) and (2, 4) |
| GraphExample.PropagateExample | test_graph.py:5-10 | propagation then leaves only (4, 5) free |
| GraphExample.IncludeRootExample | test_graph.py:5-9 | including (1, 2) at the root before propagation |
| GraphExample.ScoreExample | test_graph.py:11 | the resulting state covers nodes 1, 2, 4 and 5, so `_score` is 4 |
| GraphExample.IncludeExampleState | test_graph.py:5-11 | the child for (1, 2) is that state and its bound is 4 |
| GraphExample.IncludeExample | test_graph.py:5-11 | the test's calls on the class give a valid state equal to that child, with `score` 2 (`_score` 4) |
| BranchBound.LeastKey | branchbound.py:13-16 | an index of a smallest stored key, the entry the underlying min-queue hands out |
| BranchBound.MaxPriorityQueue.constructor | branchbound.py:26 | a new queue is empty |
| BranchBound.MaxPriorityQueue.Empty | branchbound.py:28 | true exactly when the queue holds no entry |
| BranchBound.MaxPriorityQueue.Put | branchbound.py:9-11 | the entry is stored with its key negated |
| BranchBound.MaxPriorityQueue.Get | branchbound.py:13-16 | removes exactly one stored entry, leaving the others in order, and returns its key restored, which is at least every stored key |
| BranchBound.TrackAdd | branchbound.py:35-36 | starting to track a consistent state keeps every tracked state's record |
| BranchBound.BoundStep | branchbound.py:28-36 | the bound on the remaining work grows with the number of free edges |
| BranchBound.BoundMonotone | branchbound.py:28-36 | the bound on the remaining work is monotone in the number of free edges |
| BranchBound.WorkAtMost | branchbound.py:35-36 | queued states with fewer than `n` free edges weigh at most that many times the bound for `n - 1` |
| BranchBound.ChildrenWeighLess | branchbound.py:32-36 | the children of a state weigh less together than the state itself |
| BranchBound.WorkAppend | branchbound.py:35-36 | the work in a queue is the sum of the work in its parts |
| BranchBound.WorkExtend | branchbound.py:35-36 | tracking more states leaves the records and the work of a queue unchanged |
| BranchBound.PopKeyed | branchbound.py:29 | the taken entry is tracked and keyed by its bound, and the rest of the queue stays so |
| BranchBound.PopWork | branchbound.py:29 | taking an entry lowers the work by that entry's weight |
| BranchBound.PopHolds | branchbound.py:29 | when a queued state could reach `M`, the taken one can or one left in the queue can |
| BranchBound.PushKeyed | branchbound.py:36 | queuing a state keyed by its bound keeps the queue keyed |
| BranchBound.PushHolds | branchbound.py:36 | queuing never loses a state that could reach `M`, and adds one when the new state can |
| BranchBound.PushEntry | branchbound.py:36 | queuing and tracking a state keeps the queue keyed and every state that could reach `M` |
| BranchBound.HoldsExtend | branchbound.py:35-36 | tracking more states keeps every state that could reach `M` |
| BranchBound.ChildrenKnown | branchbound.py:32 | every child of a consistent propagated state is consistent, propagated, below the original state and has fewer free edges |
| BranchBound.ChildKnown | graph.py:100-108 | one child is consistent, propagated, below the original state and has fewer free edges |
| BranchBound.LargestExists | branchbound.py:25-37 | every consistent, propagated state has a largest completion |
| BranchBound.ChildHolds | branchbound.py:32-36 | branching loses no largest completion of the original state: some child can still reach it |
| BranchBound.PruneSound | branchbound.py:30-31 | a state whose bound is below the incumbent can reach no matching as large as the incumbent |
| BranchBound.LeafReaches | branchbound.py:33-34 | a leaf's only completion is its included edges, and its bound is twice their number |
| BranchBound.LeafFound | branchbound.py:33-34 | a leaf found below the original state is a completion of it with bound twice its size |
| BranchBound.TakeBest | branchbound.py:29 | takes out exactly one entry, whose state's bound is at least that of every queued state, leaving the others in order; the work left drops by its weight and a reachable `M` stays reachable |
| BranchBound.Expand | branchbound.py:32 | one child per free edge, each free edge branched on exactly once, each child tracked as its parent with that edge included and with fewer free edges; one can still reach `M` when the parent can |
| BranchBound.Pruned | branchbound.py:30-31 | true exactly when the bound is strictly below the incumbent, and then `M` was out of the state's reach or no larger than the incumbent |
| BranchBound.IncumbentLargest | branchbound.py:37 | an incumbent at least as large as a largest completion is itself a largest completion |
| BranchBound.LargestAtRoot | branchbound.py:37 | from the initial state a largest completion is a maximum matching of the graph |
| BranchBound.BranchAndBound.constructor | branchbound.py:20-23 | no incumbent yet, and the original state is kept |
| BranchBound.BranchAndBound.UpdateBest | branchbound.py:39-45 | the leaf becomes the incumbent when there is none or its bound is strictly larger; the incumbent never decreases and is at least the leaf's bound |
| BranchBound.BranchAndBound.Enqueue | branchbound.py:36 | the state is queued keyed by its bound negated, is tracked, and nothing that could reach `M` is lost |
| BranchBound.ChildrenAppended | branchbound.py:35-36 | children queued in order, each keyed by its bound negated, make the queue the old entries followed by one entry per branched edge |
| BranchBound.PushedStep | branchbound.py:36 | queuing one more child keeps the queue the old entries followed by the children queued so far |
| BranchBound.PushedWeighLess | branchbound.py:35-36 | the queued children add less work than their parent's weight |
| BranchBound.BranchAndBound.PushChild | branchbound.py:36 | one pass of the queuing loop appends one entry for the child, keyed by its bound negated, and loses nothing that could reach `M` |
| BranchBound.BranchAndBound.PushChildren | branchbound.py:35-36 | the new queue is the old entries followed by one entry (bound negated, child) per child, in order; the work grows by less than the parent's weight and `M` stays reachable |
| BranchBound.BranchAndBound.RecordLeaf | branchbound.py:33-34 | `update_best`'s rule: the leaf becomes the incumbent when there is none or its bound is strictly larger, otherwise the incumbent is unchanged; the incumbent then reaches `M` if the leaf could |
| BranchBound.BranchAndBound.Step | branchbound.py:29-36 | takes out one entry of largest bound; when its bound is strictly below the incumbent only that entry leaves the queue and the incumbent is unchanged; otherwise a leaf is offered to the incumbent under the strict rule and one child per free edge is appended to the rest of the queue; the work in the queue drops and `M` stays reachable from the queue or reached by the incumbent |
| BranchBound.BranchAndBound.Branch | branchbound.py:32-36 | a leaf is offered to the incumbent under the strict rule and the queue is unchanged; otherwise the incumbent is unchanged and the children, one per free edge, are appended to the queue; less work is added than the state weighed |
| BranchBound.BranchAndBound.Settle | branchbound.py:33-36 | once the children are known: a leaf is offered to the incumbent and every child is appended to the queue in order |
| BranchBound.BranchAndBound.FindBest | branchbound.py:25-37 | returns a leaf that is a largest completion of the original state, a maximum matching of the graph when starting from the root |
| BranchBound.BranchAndBound.Search | branchbound.py:26-37 | the loop ends with an incumbent at least as large as a largest completion |

## Left out

- Graph library: `MCMGraph` subclasses a networkx graph and holds four more graphs. The model keeps nodes, edges and the four edge sets as sets of integer pairs.
- Edge labels ("Included", "F"), `draw`, the `__main__` block with its random graph, and logging (helper.py) are not modelled. They only display or record.
- `__hash__`, `__lt__`, `__eq__`, `__str__` and `__repr__` are not modelled. Their one effect on the search is in the Graph.MCMGraph.GetNextStates and BranchBound.MaxPriorityQueue.Get items below.
- Self-loops are not modelled: an edge joins two distinct nodes.
- Graph.MCMGraph.Score: returns `_score`, twice the float `score`. `global_best` is likewise held doubled, which orders every state the same way. No float division is modelled.
- Graph.MCMGraph.GetNextStates: returns a sequence where the source returns a set. Each state's `not_excluded_edges` is itself a deep copy of an `MCMGraph` (graph.py:36), so `__hash__` (graph.py:18-19) recurses into it and ends at the identity hash of the plain networkx graph nested inside the copy. `__eq__` (graph.py:24-27) compares plain networkx graphs, which compare by identity, so separate copies never compare equal either. The set therefore never merges two states and holds one state per free edge. Iteration order is not modelled.
- BranchBound.MaxPriorityQueue.Get: which of several entries with equal keys comes out first is not modelled; the model takes the first in insertion order. Blocking on an empty queue is not modelled: the search only calls it on a non-empty queue.
- BranchBound.MaxPriorityQueue: the heap layout of the underlying queue is not modelled; it is a sequence of entries.
- The `find_max` argument of `BranchAndBound` is unused in the source and is left out.
- Graph.MCMGraph.PropagateConstraints: requires that the edge is not excluded. The source only calls it right after including the edge. Its score refresh relies on the edge keeping both endpoints covered.
- BranchBound.BranchAndBound.FindBest: requires a consistent, propagated original state (what `initialize` produces). Its optimality is proved against completions of that state.
- Graph.MCMGraph.AddIncludeEdge: requires the edge to be free. On an edge that is not free the source first adds it to `included_edges` (graph.py:52) and then raises at `free_edges.remove_edge` (graph.py:53), leaving the included set changed; that error path is not modelled. The source only includes free edges (graph.py:102-104).
- Graph.MCMGraph.UpdateScore: requires `node` to be a node of the graph. For any other node the source raises at graph.py:81, in its call to `get_node_score`, whose `degree` lookup (graph.py:78) fails on a node outside the graph; that error path is not modelled. Propagation only refreshes neighbours, which are nodes.
- Graph.MCMGraph.GetNodeScore: for a node outside the graph the source raises at the `degree` lookup (graph.py:78), where the model returns 0. Every call site passes a node of the graph: `init_score` iterates the nodes (graph.py:67) and `propagate_constraints` iterates neighbours (graph.py:89).
- Graph.MCMGraph.AddExcludeEdge: refreshes no node score, as in the source. Called alone it leaves the cache stale, so its contract keeps only the edge-set invariant. Inside propagation the caller refreshes the far end's score.

## Findings

| source | as written | input that shows it | evidently intended | confidence | as-written member | corrected member |
|---|---|---|---|---|---|---|
| graph.py:95-98 | `is_set_edge` returns `is_excluded or is_excluded`, so it reports an included edge as not set | any included edge, e.g. (1, 2) after `add_include_edge(1, 2)` | `is_included or is_excluded`: set exactly when the edge is no longer free | high, not executed | Graph.MCMGraph.IsSetEdgeAsWritten, Graph.MCMGraph.IsSetEdgeMissesIncluded | Graph.MCMGraph.IsSetEdge |
