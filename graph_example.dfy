/** The scenario of the unit test in test_graph.py, stated over the model: a small
    graph, one edge included, and the bound that results. */
module GraphExample {
  import opened Edges
  import opened StateSpec
  import opened Graph

  const E12: Edge := NodePair(1, 2)
  const E23: Edge := NodePair(2, 3)
  const E24: Edge := NodePair(2, 4)
  const E45: Edge := NodePair(4, 5)

  /** The graph of the test: 1-2, 2-3, 2-4, 4-5. */
  function TestEdges(): set<Edge> {
    {E12, E23, E24, E45}
  }

  /** The state after moving (1, 2) to included, before propagation. */
  function Included12(): State {
    State(TestEdges(), {E12}, {}, {E23, E24, E45})
  }

  /** The free edges that share an endpoint with (1, 2) are (2, 3) and (2, 4). */
  lemma ForcedExample()
    ensures Forced(Included12(), E12) == {E23, E24}
  {
    var F := Forced(Included12(), E12);
    forall f | f in F ensures f == E23 || f == E24 {
      assert f in {E23, E24, E45} && f != E12;
    }
    assert Adjacent(E23, E12) && Adjacent(E24, E12);
  }

  /** The state after propagating the inclusion of (1, 2). */
  function Child12(): State {
    State(TestEdges(), {E12}, {E23, E24}, {E45})
  }

  /** Propagation excludes (2, 3) and (2, 4) and leaves (4, 5) free. */
  lemma PropagateExample()
    ensures Propagate(Included12(), E12) == Child12()
  {
    ForcedExample();
    assert {E23, E24, E45} - {E23, E24} == {E45};
  }

  /** Including (1, 2) at the root, before propagation. */
  lemma IncludeRootExample()
    ensures Include(Root(TestEdges()), E12) == Included12()
  {
    assert TestEdges() - {E12} == {E23, E24, E45};
  }

  /** Nodes 1, 2, 4 and 5 keep a not-excluded edge (node 3 does not), so `_score` is 4. */
  lemma ScoreExample()
    ensures RawScore(Child12()) == 4
  {
    var N := {E12, E45};
    assert Child12().NotExcluded() == N;
    assert (set f | f in N :: f.lo) == {1, 4};
    assert (set f | f in N :: f.hi) == {2, 5};
    assert Endpoints(N) == {1, 2, 4, 5};
  }

  /** Including (1, 2) at the root excludes (2, 3) and (2, 4) and leaves (4, 5)
      free, and the bound is then 4. */
  lemma IncludeExampleState()
    ensures Child(Root(TestEdges()), E12) == Child12()
    ensures RawScore(Child(Root(TestEdges()), E12)) == 4
  {
    IncludeRootExample();
    PropagateExample();
    PropagateIdempotent(Included12(), E12);
    ScoreExample();
  }

  /** The steps of the test on the class: after including (1, 2) and propagating
      once more, the bound `score` is 2 (`_score` is 4). */
  method IncludeExample() returns (g: MCMGraph, score: int)
    ensures g.Valid() && g.View() == Child12() && score == 4
  {
    var E := TestEdges();
    g := new MCMGraph.FromEdges(E);
    g.Initialize();
    g.AddIncludeEdge(1, 2);
    g.PropagateConstraints(1, 2);
    PropagateIdempotent(Child(Root(E), E12), E12);
    IncludeExampleState();
    score := g.Score();
  }
}
