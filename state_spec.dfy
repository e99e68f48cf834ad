/** The abstract value of one search state of the matching search: the graph's
    edges split three ways into included, excluded and free edges, and the
    operations that move edges between the three parts. The class `MCMGraph`
    (module Graph) keeps these sets as fields and is proved against the
    functions here. */
module StateSpec {
  import opened Edges

  datatype State = State(edges: set<Edge>, included: set<Edge>, excluded: set<Edge>, free: set<Edge>)
  {
    /** The edges that may still end up in the matching. */
    function NotExcluded(): set<Edge> {
      included + free
    }
  }

  /** The three parts are pairwise disjoint and together make up the graph. */
  ghost predicate Partitioned(s: State) {
    && s.included !! s.excluded
    && s.included !! s.free
    && s.excluded !! s.free
    && s.included + s.excluded + s.free == s.edges
  }

  /** What constraint propagation keeps true: the included edges form a matching,
      and no free edge touches a node that is already matched. */
  ghost predicate Propagated(s: State) {
    && IsMatching(s.included)
    && forall f, g :: f in s.free && g in s.included ==> !Adjacent(f, g)
  }

  /** Every excluded edge was excluded because it touches an included edge
      (true when exclusion only happens through propagation). */
  ghost predicate Explained(s: State) {
    forall f :: f in s.excluded ==> exists g :: g in s.included && Adjacent(f, g)
  }

  /** Twice the bound: the number of nodes that still have a not-excluded edge. */
  function RawScore(s: State): nat {
    |Endpoints(s.NotExcluded())|
  }

  /** The state before any decision: every edge free. */
  function Root(E: set<Edge>): State {
    State(E, {}, {}, E)
  }

  /** Moving `e` from free to included, before propagation. */
  function Include(s: State, e: Edge): State
    requires e in s.free
  {
    s.(included := s.included + {e}, free := s.free - {e})
  }

  /** Moving `e` from free to excluded; nothing happens when `e` is not free. */
  function Exclude(s: State, e: Edge): State {
    if e in s.free then s.(excluded := s.excluded + {e}, free := s.free - {e}) else s
  }

  /** The free edges, other than `e`, that share an endpoint with `e`. */
  function Forced(s: State, e: Edge): set<Edge> {
    set f | f in s.free && f != e && Adjacent(f, e)
  }

  /** Excluding every free edge that shares an endpoint with `e`. */
  function Propagate(s: State, e: Edge): State {
    var moved := Forced(s, e);
    s.(excluded := s.excluded + moved, free := s.free - moved)
  }

  /** The child state for free edge `e`: `e` is included and the constraints it
      imposes are propagated (twice, as the branching step does). */
  function Child(s: State, e: Edge): State
    requires e in s.free
  {
    Propagate(Propagate(Include(s, e), e), e)
  }

  /** `M` is a matching that the state can still be completed to. */
  ghost predicate Completion(s: State, M: set<Edge>) {
    IsMatching(M) && s.included <= M <= s.NotExcluded()
  }

  lemma ExcludeKeepsPartition(s: State, e: Edge)
    requires Partitioned(s)
    ensures Partitioned(Exclude(s, e)) && Exclude(s, e).edges == s.edges
    ensures Exclude(s, e).included == s.included
    ensures Exclude(s, e).NotExcluded() == if e in s.free then s.NotExcluded() - {e} else s.NotExcluded()
    ensures e !in Exclude(s, e).free
  {
  }

  /** Excluding an edge that is not free changes nothing, so excluding twice is excluding once. */
  lemma ExcludeIdempotent(s: State, e: Edge)
    ensures e !in s.free ==> Exclude(s, e) == s
    ensures Exclude(Exclude(s, e), e) == Exclude(s, e)
  {
  }

  lemma PropagateIdempotent(s: State, e: Edge)
    ensures Propagate(Propagate(s, e), e) == Propagate(s, e)
  {
    var t := Propagate(s, e);
    assert Forced(t, e) == {};
  }

  /** What including `e` does, edge by edge: `e` is included, every other free edge
      touching an endpoint of `e` is excluded, and every other edge keeps its status. */
  lemma ChildEffect(s: State, e: Edge)
    requires Partitioned(s) && e in s.free
    ensures Partitioned(Child(s, e)) && Child(s, e).edges == s.edges
    ensures Child(s, e).included == s.included + {e}
    ensures Child(s, e).excluded == s.excluded + Forced(s, e)
    ensures Child(s, e).free == s.free - {e} - Forced(s, e)
    ensures forall f :: f in s.edges && f != e && !Adjacent(f, e) ==>
      (f in Child(s, e).included <==> f in s.included) &&
      (f in Child(s, e).excluded <==> f in s.excluded) &&
      (f in Child(s, e).free <==> f in s.free)
  {
    var t := Include(s, e);
    PropagateIdempotent(t, e);
    assert Forced(t, e) == Forced(s, e);
  }

  lemma ChildPartitioned(s: State, e: Edge)
    requires Partitioned(s) && e in s.free
    ensures Partitioned(Child(s, e)) && Child(s, e).edges == s.edges
  {
    ChildEffect(s, e);
  }

  /** Each child has strictly fewer free edges than its parent. */
  lemma ChildFewerFree(s: State, e: Edge)
    requires e in s.free
    ensures Child(s, e).free < s.free
    ensures |Child(s, e).free| < |s.free|
  {
    var c := Child(s, e);
    assert c.free <= s.free - {e};
    SubsetCard(c.free, s.free - {e});
  }

  /** Including an edge keeps the matching property and the reason for every exclusion. */
  lemma ChildPropagated(s: State, e: Edge)
    requires Partitioned(s) && Propagated(s) && e in s.free
    ensures Propagated(Child(s, e))
    ensures Explained(s) ==> Explained(Child(s, e))
  {
    ChildEffect(s, e);
    var c := Child(s, e);
    forall f, g | f in c.included && g in c.included && f != g
      ensures !Adjacent(f, g)
    {
      if f == e {
        assert !Adjacent(g, e);
      } else if g == e {
        assert !Adjacent(f, e);
      }
    }
    forall f, g | f in c.free && g in c.included
      ensures !Adjacent(f, g)
    {
      if g == e {
        assert f !in Forced(s, e);
      }
    }
    if Explained(s) {
      forall f | f in c.excluded
        ensures exists g :: g in c.included && Adjacent(f, g)
      {
        if f in Forced(s, e) {
          assert e in c.included && Adjacent(f, e);
        } else {
          var g :| g in s.included && Adjacent(f, g);
          assert g in c.included;
        }
      }
    }
  }

  /** The bound never grows: a child keeps a subset of its parent's not-excluded edges. */
  lemma ChildScore(s: State, e: Edge)
    requires Partitioned(s) && e in s.free
    ensures Child(s, e).NotExcluded() <= s.NotExcluded()
    ensures RawScore(Child(s, e)) <= RawScore(s)
  {
    ChildEffect(s, e);
    EndpointsMonotone(Child(s, e).NotExcluded(), s.NotExcluded());
  }

  lemma ExcludeScore(s: State, e: Edge)
    ensures RawScore(Exclude(s, e)) <= RawScore(s)
  {
    EndpointsMonotone(Exclude(s, e).NotExcluded(), s.NotExcluded());
  }

  /** Any matching drawn from the not-excluded edges has at most `RawScore / 2` edges. */
  lemma CompletionWithinBound(s: State, M: set<Edge>)
    requires IsMatching(M) && M <= s.NotExcluded()
    ensures 2 * |M| <= RawScore(s)
  {
    MatchingWithin(M, s.NotExcluded());
  }

  /** At a leaf the bound is exact: twice the number of included edges. */
  lemma LeafScore(s: State)
    requires Propagated(s) && s.free == {}
    ensures RawScore(s) == 2 * |s.included|
  {
    assert s.NotExcluded() == s.included;
    MatchingEndpoints(s.included);
  }

  /** A leaf built by propagation alone holds a maximal matching: every edge of the
      graph is included or shares an endpoint with an included edge. */
  lemma LeafMaximal(s: State)
    requires Partitioned(s) && Propagated(s) && Explained(s) && s.free == {}
    ensures IsMatching(s.included) && s.included <= s.edges
    ensures forall f :: f in s.edges && f !in s.included ==>
      exists g :: g in s.included && Adjacent(f, g)
  {
  }

  /** The root state is partitioned and propagated, and its completions are exactly
      the matchings of the graph. */
  lemma RootCompletions(E: set<Edge>, M: set<Edge>)
    ensures Partitioned(Root(E)) && Propagated(Root(E)) && Explained(Root(E))
    ensures Completion(Root(E), M) <==> IsMatching(M) && M <= E
  {
  }
}
