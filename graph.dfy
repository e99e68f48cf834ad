/** The search state of the matching search (graph.py): a graph together with
    its included, excluded, free and not-excluded edge sets and a cached bound.
    The class is proved against the abstract `State` of module StateSpec. */
module Graph {
  import opened Edges
  import opened StateSpec

  datatype Option<T> = None | Some(value: T)

  /** The free edges other than `e` that touch `node`. */
  ghost function Around(free: set<Edge>, e: Edge, node: int): set<Edge> {
    set f | f in free && f != e && Touches(f, node)
  }

  /** Excluding every free edge other than `e` at `node`: what one pass of the
      propagation over the neighbours of `node` does to the edge sets. */
  ghost function ExcludeAround(s: State, e: Edge, node: int): State {
    MoveOut(s, Around(s.free, e, node))
  }

  /** Moving the edges `C` from free to excluded. */
  ghost function MoveOut(s: State, C: set<Edge>): State {
    s.(excluded := s.excluded + C, free := s.free - C)
  }

  /** The passes over both endpoints of `e` together exclude what `Propagate` does. */
  lemma AroundBoth(s: State, u: int, v: int)
    requires u != v
    ensures ExcludeAround(ExcludeAround(s, MkEdge(u, v), u), MkEdge(u, v), v) == Propagate(s, MkEdge(u, v))
  {
    var e := MkEdge(u, v);
    var t := ExcludeAround(s, e, u);
    assert Around(s.free, e, u) + Around(t.free, e, v) == Forced(s, e);
  }

  /** The part of `Around(free, e, node)` whose far end is in `seen`: what one pass
      has excluded once it has visited the neighbours in `seen`. */
  ghost function Cut(free: set<Edge>, e: Edge, node: int, seen: set<int>): set<Edge> {
    set f | f in free && f != e && Touches(f, node) && (f.lo in seen || f.hi in seen)
  }

  /** Visiting a neighbour `w` of `node` extends the cut by the edge (node, w) when
      that edge is free and is not `e`; excluding it has that effect on the state. */
  lemma CutAdvance(s0: State, e: Edge, node: int, seen: set<int>, w: int)
    requires w != node
    ensures MkEdge(node, w) == e ==> Cut(s0.free, e, node, seen + {w}) == Cut(s0.free, e, node, seen)
    ensures MkEdge(node, w) != e ==>
      Exclude(MoveOut(s0, Cut(s0.free, e, node, seen)), MkEdge(node, w))
        == MoveOut(s0, Cut(s0.free, e, node, seen + {w}))
  {
    var f := MkEdge(node, w);
    var C, C' := Cut(s0.free, e, node, seen), Cut(s0.free, e, node, seen + {w});
    forall g | g in C' && g !in C
      ensures g == f
    {
    }
    if f != e {
      assert C' == C + (s0.free * {f});
    }
  }

  /** Once every neighbour of `node` is visited, every free edge at `node` is cut. */
  lemma CutClose(E: set<Edge>, free: set<Edge>, e: Edge, node: int)
    requires free <= E
    ensures Cut(free, e, node, Neighbours(E, node)) == Around(free, e, node)
  {
    forall f | f in free && Touches(f, node)
      ensures f.lo in Neighbours(E, node) || f.hi in Neighbours(E, node)
    {
      var w := if f.lo == node then f.hi else f.lo;
      NeighbourEdge(E, node, w);
      assert f == MkEdge(node, w);
    }
  }

  /** Removing edges that do not touch `n` keeps `n` covered or uncovered. */
  lemma EndpointsWithout(E: set<Edge>, X: set<Edge>, n: int)
    requires forall f :: f in X ==> !Touches(f, n)
    ensures n in Endpoints(E - X) <==> n in Endpoints(E)
  {
    if n in Endpoints(E) {
      var g :| g in E && Touches(g, n);
      assert g in E - X;
    }
  }

  /** Removing edges at `w` from a set that keeps an edge at `node` leaves every node
      other than `w` covered exactly as before. */
  lemma CoverKept(ne: set<Edge>, X: set<Edge>, e: Edge, node: int, w: int, n: int)
    requires node != w && X <= {MkEdge(node, w)}
    requires e in ne - X && Touches(e, node) && n != w
    ensures n in Endpoints(ne - X) <==> n in Endpoints(ne)
  {
    if n == node {
      assert e in ne;
      if e.lo == n {
        assert n in Endpoints(ne - X) && n in Endpoints(ne);
      } else {
        assert n in Endpoints(ne - X) && n in Endpoints(ne);
      }
    } else {
      EndpointsWithout(ne, X, n);
    }
  }

  /** The nodes among `D` whose score in `m` is 1. */
  ghost function Ones(m: map<int, int>, D: set<int>): set<int> {
    set n | n in D && n in m && m[n] == 1
  }

  lemma OnesAdd(m: map<int, int>, D: set<int>, x: int, v: int)
    requires x !in D && (v == 0 || v == 1)
    ensures |Ones(m[x := v], D + {x})| == |Ones(m, D)| + v
  {
    var m' := m[x := v];
    assert Ones(m', D) == Ones(m, D);
    if v == 1 {
      assert Ones(m', D + {x}) == Ones(m, D) + {x};
    } else {
      assert Ones(m', D + {x}) == Ones(m, D);
    }
  }

  lemma OnesSet(m: map<int, int>, D: set<int>, x: int, v: int)
    requires x in D && x in m && (m[x] == 0 || m[x] == 1) && (v == 0 || v == 1)
    ensures |Ones(m[x := v], D)| == |Ones(m, D)| + v - m[x]
  {
    var m' := m[x := v];
    var rest := D - {x};
    assert Ones(m', rest) == Ones(m, rest);
    OnesAdd(m, rest, x, m[x]);
    OnesAdd(m', rest, x, v);
    assert m[x := m[x]] == m && m'[x := v] == m' && rest + {x} == D;
  }

  /** A set of nodes is empty or has an element (what a choice from it relies on). */
  lemma EmptyOrHasElement(s: set<int>)
    ensures s == {} || exists x :: x in s
  {
    if forall x: int :: x !in s {
      assert s == {};
    }
  }

  /** `g` is a consistent state whose edge sets are those of the child of `parent`
      for the free edge `e`. */
  ghost predicate IsChild(g: MCMGraph, parent: State, e: Edge)
    reads g
  {
    e in parent.free && g.Valid() && g.View() == Child(parent, e)
  }

  /** Every `states[i]` is the child of `parent` for `branched[i]`. */
  ghost predicate AllChildren(states: seq<MCMGraph>, parent: State, branched: seq<Edge>)
    reads set i | 0 <= i < |states| :: states[i]
  {
    |states| == |branched| && forall i :: 0 <= i < |states| ==> IsChild(states[i], parent, branched[i])
  }

  lemma AllChildrenSnoc(states: seq<MCMGraph>, parent: State, branched: seq<Edge>, g: MCMGraph, e: Edge)
    requires AllChildren(states, parent, branched) && IsChild(g, parent, e)
    ensures AllChildren(states + [g], parent, branched + [e])
  {
  }

  /** `branched` lists, once each, exactly the edges of `F` outside `todo`. */
  ghost predicate Listed(branched: seq<Edge>, todo: set<Edge>, F: set<Edge>) {
    && |branched| + |todo| == |F|
    && (forall f :: f in F && f !in todo ==> f in branched)
    && (forall i :: 0 <= i < |branched| ==> branched[i] in F && branched[i] !in todo)
    && (forall i, j :: 0 <= i < j < |branched| ==> branched[i] != branched[j])
  }

  /** Moving one edge from `todo` to the end of `branched` keeps the listing. */
  lemma ListedStep(branched: seq<Edge>, todo: set<Edge>, F: set<Edge>, e: Edge)
    requires Listed(branched, todo, F) && e in todo && todo <= F
    ensures Listed(branched + [e], todo - {e}, F)
  {
    var b := branched + [e];
    forall i, j | 0 <= i < j < |b| ensures b[i] != b[j] {
      if j == |branched| {
        assert b[i] == branched[i] && branched[i] !in todo;
      }
    }
    forall f | f in F && f !in todo - {e} ensures f in b {
      if f != e {
        assert f in branched;
        var i :| 0 <= i < |branched| && branched[i] == f;
        assert b[i] == f;
      } else {
        assert b[|branched|] == e;
      }
    }
  }

  class MCMGraph {
    /** The graph itself: its nodes and (undirected) edges. */
    var nodes: set<int>
    var edges: set<Edge>
    /** The search state: a split of `edges`, and `notExcludedEdges` = included + free. */
    var includedEdges: set<Edge>
    var excludedEdges: set<Edge>
    var freeEdges: set<Edge>
    var notExcludedEdges: set<Edge>
    /** The per-node score attribute and `_score`, their sum: twice the bound. */
    var nodeScore: map<int, int>
    var rawScore: int

    ghost function View(): State
      reads this
    {
      State(edges, includedEdges, excludedEdges, freeEdges)
    }

    /** Every edge joins two nodes of the graph, and only nodes carry a score. */
    ghost predicate GraphOk()
      reads this
    {
      Endpoints(edges) <= nodes && nodeScore.Keys <= nodes
    }

    ghost predicate EdgeSetsOk()
      reads this
    {
      Partitioned(View()) && notExcludedEdges == includedEdges + freeEdges
    }

    /** Every node stores a score of 0 or 1, and `rawScore` is their sum. */
    ghost predicate ScoreSumOk()
      reads this
    {
      && nodeScore.Keys == nodes
      && (forall n :: n in nodeScore ==> nodeScore[n] == 0 || nodeScore[n] == 1)
      && rawScore == |Ones(nodeScore, nodes)|
    }

    /** Every stored node score is the one the not-excluded edges give. */
    ghost predicate CacheOk()
      reads this
    {
      forall n :: n in nodes ==> n in nodeScore && nodeScore[n] == GetNodeScore(n)
    }

    ghost predicate Valid()
      reads this
    {
      GraphOk() && EdgeSetsOk() && ScoreSumOk() && CacheOk()
    }

    /** A graph with the given edges (and their endpoints as nodes) and no search
        state yet: all four edge sets empty, no node scores, `_score` 0. */
    constructor FromEdges(E: set<Edge>)
      ensures nodes == Endpoints(E) && edges == E
      ensures includedEdges == {} && excludedEdges == {} && freeEdges == {} && notExcludedEdges == {}
      ensures nodeScore == map[] && rawScore == 0
      ensures GraphOk()
    {
      nodes := Endpoints(E);
      edges := E;
      includedEdges := {};
      excludedEdges := {};
      freeEdges := {};
      notExcludedEdges := {};
      nodeScore := map[];
      rawScore := 0;
    }

    /** A copy sharing nothing with `g`. */
    constructor Copy(g: MCMGraph)
      ensures nodes == g.nodes && edges == g.edges
      ensures includedEdges == g.includedEdges && excludedEdges == g.excludedEdges
      ensures freeEdges == g.freeEdges && notExcludedEdges == g.notExcludedEdges
      ensures nodeScore == g.nodeScore && rawScore == g.rawScore
      ensures View() == g.View()
    {
      nodes := g.nodes;
      edges := g.edges;
      includedEdges := g.includedEdges;
      excludedEdges := g.excludedEdges;
      freeEdges := g.freeEdges;
      notExcludedEdges := g.notExcludedEdges;
      nodeScore := g.nodeScore;
      rawScore := g.rawScore;
    }

    /** Makes every edge free and not excluded and computes the node scores. */
    method Initialize()
      requires GraphOk()
      modifies this`freeEdges, this`notExcludedEdges, this`nodeScore, this`rawScore
      ensures GraphOk() && ScoreSumOk() && CacheOk()
      ensures freeEdges == edges && notExcludedEdges == edges
      ensures old(includedEdges) == {} && old(excludedEdges) == {} ==>
        Valid() && View() == Root(edges) && rawScore == |Endpoints(edges)|
    {
      notExcludedEdges := edges;
      freeEdges := edges;
      InitScore();
      if includedEdges == {} && excludedEdges == {} {
        InitializedIsRoot();
      }
    }

    /** A graph with no decisions yet, every edge free and current scores is the
        root state, and `_score` counts every node that an edge touches. */
    lemma InitializedIsRoot()
      requires GraphOk() && ScoreSumOk() && CacheOk()
      requires includedEdges == {} && excludedEdges == {} && freeEdges == edges && notExcludedEdges == edges
      ensures Valid() && View() == Root(edges) && rawScore == |Endpoints(edges)|
    {
      assert View() == Root(edges);
      RootCompletions(edges, {});
      CountedIsCovered();
      assert View().NotExcluded() == edges;
    }

    /** 1 when `node` still has a not-excluded edge, else 0. */
    function GetNodeScore(node: int): (r: int)
      reads this`notExcludedEdges
      ensures r == 0 || r == 1
      ensures r == 1 <==> node in Endpoints(notExcludedEdges)
    {
      DegreeCovers(notExcludedEdges, node);
      if Degree(notExcludedEdges, node) >= 1 then 1 else 0
    }

    /** One pass of the scoring loop: stores the score of `node` and adds it to `_score`,
        which then counts the scored nodes among `done` and `node`. */
    method ScoreNode(node: int, ghost done: set<int>)
      requires node in nodes && node !in done && rawScore == |Ones(nodeScore, done)|
      modifies this`nodeScore, this`rawScore
      ensures nodeScore == old(nodeScore)[node := GetNodeScore(node)]
      ensures rawScore == |Ones(nodeScore, done + {node})|
    {
      var nodeScoreNow := GetNodeScore(node);
      OnesAdd(nodeScore, done, node, nodeScoreNow);
      rawScore := rawScore + nodeScoreNow;
      nodeScore := nodeScore[node := nodeScoreNow];
    }

    /** Recomputes every node score from scratch and sums them into `_score`. */
    method InitScore()
      requires GraphOk()
      modifies this`nodeScore, this`rawScore
      ensures GraphOk() && ScoreSumOk() && CacheOk()
    {
      rawScore := 0;
      var todo := nodes;
      ghost var done: set<int> := {};
      while todo != {}
        invariant done + todo == nodes && done !! todo && nodeScore.Keys <= nodes
        invariant forall n :: n in done ==> n in nodeScore && nodeScore[n] == GetNodeScore(n)
        invariant rawScore == |Ones(nodeScore, done)|
        decreases todo
      {
        EmptyOrHasElement(todo);
        var node: int :| node in todo;
        ScoreNode(node, done);
        todo := todo - {node};
        done := done + {node};
      }
      assert done == nodes;
      forall n | n in nodes ensures n in nodeScore.Keys {
        assert n in done;
      }
    }

    /** With a current cache, the counted nodes are the nodes that a not-excluded
        edge touches, so `_score` is `RawScore` of the abstract state. */
    lemma CountedIsCovered()
      requires Valid()
      ensures Ones(nodeScore, nodes) == Endpoints(notExcludedEdges)
      ensures rawScore == RawScore(View())
    {
      EndpointsMonotone(notExcludedEdges, edges);
      forall n | n in Endpoints(notExcludedEdges) ensures n in Ones(nodeScore, nodes) {
        assert n in nodes;
        assert GetNodeScore(n) == 1;
      }
      forall n | n in Ones(nodeScore, nodes) ensures n in Endpoints(notExcludedEdges) {
        assert GetNodeScore(n) == 1;
      }
    }

    /** Twice the bound `score` (and `local_best`): the cached `_score`, which is the
        number of nodes with a not-excluded edge. */
    function Score(): (r: int)
      reads this
      requires Valid()
      ensures r == RawScore(View())
    {
      CountedIsCovered();
      rawScore
    }

    /** The bound is at least twice the size of every matching the state can still
        be completed to. */
    lemma BoundAdmissible()
      requires Valid()
      ensures forall M :: Completion(View(), M) ==> 2 * |M| <= RawScore(View())
    {
      forall M | Completion(View(), M) ensures 2 * |M| <= RawScore(View()) {
        CompletionWithinBound(View(), M);
      }
    }

    /** `node` is an endpoint of an included edge. A matched node keeps a score of
        1, and once constraints are propagated no free edge touches it. */
    function IsMatched(node: int): (r: bool)
      reads this
      requires Valid()
      ensures r <==> exists f :: f in includedEdges && Touches(f, node)
      ensures r ==> GetNodeScore(node) == 1
      ensures r && Propagated(View()) ==> forall f :: f in freeEdges ==> !Touches(f, node)
    {
      if node in Endpoints(includedEdges) then
        var g :| g in includedEdges && Touches(g, node);
        assert g in notExcludedEdges;
        true
      else
        false
    }

    /** The pruning test: the state's bound is strictly below the incumbent. */
    function WorstThan(globalBest: Option<int>): (r: bool)
      reads this
      requires Valid()
      ensures r <==> globalBest.Some? && RawScore(View()) < globalBest.value
    {
      CountedIsCovered();
      if globalBest == None then false else rawScore < globalBest.value
    }

    /** When the pruning test holds, no completion of the state reaches the incumbent. */
    lemma PruneSafe(globalBest: Option<int>)
      requires Valid() && WorstThan(globalBest)
      ensures forall M :: Completion(View(), M) ==> 2 * |M| < globalBest.value
    {
      BoundAdmissible();
    }

    /** Moves a free edge to excluded; does nothing unless the edge is free. The
        node scores and `_score` are left as they are. */
    method AddExcludeEdge(u: int, v: int)
      requires EdgeSetsOk()
      modifies this`excludedEdges, this`freeEdges, this`notExcludedEdges
      ensures EdgeSetsOk()
      ensures u == v ==> View() == old(View())
      ensures u != v ==> View() == Exclude(old(View()), MkEdge(u, v))
      ensures u != v ==> notExcludedEdges == old(notExcludedEdges) - (old(freeEdges) * {MkEdge(u, v)})
    {
      if u == v || MkEdge(u, v) !in freeEdges {
        return;
      }
      var e := MkEdge(u, v);
      excludedEdges := excludedEdges + {e};
      freeEdges := freeEdges - {e};
      notExcludedEdges := notExcludedEdges - {e};
    }

    /** Refreshes the stored score of `node` and adjusts `_score` by the difference. */
    method UpdateScore(node: int)
      requires ScoreSumOk() && node in nodes
      modifies this`nodeScore, this`rawScore
      ensures ScoreSumOk()
      ensures nodeScore == old(nodeScore)[node := GetNodeScore(node)]
      ensures rawScore == old(rawScore) + GetNodeScore(node) - old(nodeScore[node])
    {
      var newScore := GetNodeScore(node);
      var diff := newScore - nodeScore[node];
      OnesSet(nodeScore, nodes, node, newScore);
      rawScore := rawScore + diff;
      nodeScore := nodeScore[node := newScore];
    }

    /** One pass of the inner loop of the propagation: skips the neighbour
        `otherEnd` of `node` when it is an endpoint of (u, v); otherwise excludes the
        edge (node, otherEnd) and refreshes the score of `otherEnd`. The edge (u, v)
        stays not excluded, so the score of every node other than `otherEnd` stays. */
    method VisitNeighbour(node: int, otherEnd: int, u: int, v: int)
      requires Valid() && u != v && MkEdge(u, v) in notExcludedEdges && (node == u || node == v)
      requires node != otherEnd && MkEdge(node, otherEnd) in edges
      modifies this`excludedEdges, this`freeEdges, this`notExcludedEdges, this`nodeScore, this`rawScore
      ensures Valid() && MkEdge(u, v) in notExcludedEdges
      ensures MkEdge(node, otherEnd) == MkEdge(u, v) ==> View() == old(View())
      ensures MkEdge(node, otherEnd) != MkEdge(u, v) ==> View() == Exclude(old(View()), MkEdge(node, otherEnd))
    {
      var edge := [u, v];
      if otherEnd in edge {
        return;
      }
      ghost var e := MkEdge(u, v);
      ghost var ne, fe := notExcludedEdges, freeEdges;
      assert otherEnd in Endpoints(edges);
      AddExcludeEdge(node, otherEnd);
      forall n | n in nodes && n != otherEnd
        ensures n in nodeScore && nodeScore[n] == GetNodeScore(n)
      {
        CoverKept(ne, fe * {MkEdge(node, otherEnd)}, e, node, otherEnd, n);
      }
      UpdateScore(otherEnd);
    }

    /** The inner loop of the propagation: visits every neighbour of `node` (an
        endpoint of (u, v)) and excludes its edge unless that edge is (u, v). */
    method PropagateAt(node: int, u: int, v: int)
      requires Valid() && u != v && MkEdge(u, v) in notExcludedEdges && (node == u || node == v)
      modifies this`excludedEdges, this`freeEdges, this`notExcludedEdges, this`nodeScore, this`rawScore
      ensures Valid() && MkEdge(u, v) in notExcludedEdges
      ensures View() == ExcludeAround(old(View()), MkEdge(u, v), node)
    {
      ghost var e := MkEdge(u, v);
      ghost var s0 := View();
      var others := Neighbours(edges, node);
      ghost var all, seen: set<int> := others, {};
      while others != {}
        invariant Valid() && e in notExcludedEdges
        invariant seen + others == all
        invariant View() == MoveOut(s0, Cut(s0.free, e, node, seen))
        decreases others
      {
        EmptyOrHasElement(others);
        var otherEnd: int :| otherEnd in others;
        others := others - {otherEnd};
        NeighbourEdge(edges, node, otherEnd);
        VisitNeighbour(node, otherEnd, u, v);
        CutAdvance(s0, e, node, seen, otherEnd);
        seen := seen + {otherEnd};
      }
      assert all == Neighbours(s0.edges, node);
      CutClose(s0.edges, s0.free, e, node);
    }

    /** Excludes every free edge other than (u, v) that touches u or v, refreshing the
        score of each such edge's far end. Relies on (u, v) staying not excluded, so
        that u and v keep a score of 1. */
    method PropagateConstraints(u: int, v: int)
      requires Valid() && u != v && MkEdge(u, v) in notExcludedEdges
      modifies this`excludedEdges, this`freeEdges, this`notExcludedEdges, this`nodeScore, this`rawScore
      ensures Valid()
      ensures View() == Propagate(old(View()), MkEdge(u, v))
    {
      ghost var e := MkEdge(u, v);
      ghost var s0 := View();
      var edge := [u, v];
      for i := 0 to 2
        invariant Valid() && e in notExcludedEdges
        invariant View() == if i == 0 then s0 else if i == 1 then ExcludeAround(s0, e, u)
                            else ExcludeAround(ExcludeAround(s0, e, u), e, v)
      {
        PropagateAt(edge[i], u, v);
      }
      AroundBoth(s0, u, v);
    }

    /** Includes the free edge (u, v) and propagates the constraints it imposes. */
    method AddIncludeEdge(u: int, v: int)
      requires Valid() && u != v && MkEdge(u, v) in freeEdges
      modifies this`includedEdges, this`excludedEdges, this`freeEdges, this`notExcludedEdges,
        this`nodeScore, this`rawScore
      ensures Valid()
      ensures View() == Propagate(Include(old(View()), MkEdge(u, v)), MkEdge(u, v))
      ensures View() == Child(old(View()), MkEdge(u, v))
    {
      var e := MkEdge(u, v);
      includedEdges := includedEdges + {e};
      freeEdges := freeEdges - {e};
      PropagateConstraints(u, v);
      PropagateIdempotent(Include(old(View()), e), e);
    }

    /** The body of the branching loop: a deep copy of this state with the free edge
        `edge` included and its constraints propagated (a second time, as the branching
        step does; the second pass changes nothing). This state is left unchanged. */
    method NextState(edge: Edge) returns (next: MCMGraph)
      requires Valid() && edge in freeEdges
      ensures fresh(next) && next.Valid() && next.View() == Child(View(), edge)
      ensures IsChild(next, View(), edge)
    {
      next := new MCMGraph.Copy(this);
      next.AddIncludeEdge(edge.lo, edge.hi);
      assert MkEdge(edge.lo, edge.hi) == edge;
      next.PropagateConstraints(edge.lo, edge.hi);
      PropagateIdempotent(Child(View(), edge), edge);
    }

    /** Appends the child for `edge` to the children collected so far. */
    method AppendChild(states: seq<MCMGraph>, ghost branched: seq<Edge>, edge: Edge) returns (states2: seq<MCMGraph>)
      requires Valid() && edge in freeEdges && AllChildren(states, View(), branched)
      ensures |states2| == |states| + 1 && AllChildren(states2, View(), branched + [edge])
    {
      var nextState := NextState(edge);
      AllChildrenSnoc(states, View(), branched, nextState, edge);
      states2 := states + [nextState];
    }

    /** One child per free edge: a copy of this state with that edge included. This
        state itself is left unchanged. */
    method GetNextStates() returns (states: seq<MCMGraph>, ghost branched: seq<Edge>)
      requires Valid()
      ensures |states| == |freeEdges|
      ensures |branched| == |freeEdges|
      ensures forall f :: f in freeEdges <==> f in branched
      ensures forall i, j :: 0 <= i < j < |branched| ==> branched[i] != branched[j]
      ensures AllChildren(states, View(), branched)
    {
      states, branched := [], [];
      var todo := freeEdges;
      while todo != {}
        invariant todo <= freeEdges && Listed(branched, todo, freeEdges)
        invariant AllChildren(states, View(), branched)
        decreases todo
      {
        var edge :| edge in todo;
        states := AppendChild(states, branched, edge);
        ListedStep(branched, todo, freeEdges, edge);
        branched := branched + [edge];
        todo := todo - {edge};
      }
    }

    /** As written: the test reads `is_excluded or is_excluded`, so an included edge
        is reported as not set. */
    function IsSetEdgeAsWritten(edge: Edge): (r: bool)
      reads this
      ensures r <==> edge in excludedEdges
    {
      var isIncluded := edge in includedEdges;
      var isExcluded := edge in excludedEdges;
      isExcluded || isExcluded
    }

    /** Corrected: an edge is set when it is included or excluded, that is, when it
        is no longer free. */
    function IsSetEdge(edge: Edge): (r: bool)
      reads this
      requires EdgeSetsOk()
      ensures edge in edges ==> (r <==> edge !in freeEdges)
      ensures r ==> edge in edges
    {
      var isIncluded := edge in includedEdges;
      var isExcluded := edge in excludedEdges;
      isIncluded || isExcluded
    }

    /** The two differ on every included edge. */
    lemma IsSetEdgeMissesIncluded(edge: Edge)
      requires EdgeSetsOk() && edge in includedEdges
      ensures !IsSetEdgeAsWritten(edge) && IsSetEdge(edge)
    {
    }
  }
}
