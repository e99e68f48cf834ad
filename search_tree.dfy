/** The search tree below a state: the children of a state are its free edges
    included one at a time, and the leaves are the states without free edges.
    `Opt(s)` is the best leaf reachable from `s`; it equals the size of the largest
    matching that `s` can still be completed to, and the bound never falls below it. */
module SearchTree {
  import opened Edges
  import opened StateSpec

  function Max(a: nat, b: nat): nat {
    if a >= b then a else b
  }

  /** Some element of a non-empty set (which one does not matter to anything below). */
  ghost function Pick(F: set<Edge>): (e: Edge)
    requires F != {}
    ensures e in F
  {
    var e :| e in F; e
  }

  /** The largest number of included edges among the leaves below `s`. */
  ghost function Opt(s: State): nat
    decreases |s.free|, 1, 0
  {
    if s.free == {} then |s.included| else BestChild(s, s.free)
  }

  /** The largest `Opt` among the children of `s` for the free edges in `F`. */
  ghost function BestChild(s: State, F: set<Edge>): nat
    requires F != {} && F <= s.free
    decreases |s.free|, 0, |F|
  {
    var e := Pick(F);
    ChildFewerFree(s, e);
    if F == {e} then Opt(Child(s, e)) else Max(Opt(Child(s, e)), BestChild(s, F - {e}))
  }

  lemma {:induction false} BestChildIsMax(s: State, F: set<Edge>)
    requires F != {} && F <= s.free
    ensures forall e :: e in F ==> Opt(Child(s, e)) <= BestChild(s, F)
    ensures exists e :: e in F && Opt(Child(s, e)) == BestChild(s, F)
    decreases |F|
  {
    var e := Pick(F);
    if F != {e} {
      BestChildIsMax(s, F - {e});
    }
  }

  /** Expanding a state loses nothing: no child is better than its parent, and some
      child is as good. */
  lemma ExpandKeepsOpt(s: State)
    requires s.free != {}
    ensures forall e :: e in s.free ==> Opt(Child(s, e)) <= Opt(s)
    ensures exists e :: e in s.free && Opt(Child(s, e)) == Opt(s)
  {
    BestChildIsMax(s, s.free);
  }

  /** A child of a consistent, propagated state is one too, with fewer free edges. */
  lemma ChildReady(s: State, e: Edge)
    requires Partitioned(s) && Propagated(s) && e in s.free
    ensures Partitioned(Child(s, e)) && Propagated(Child(s, e)) && |Child(s, e).free| < |s.free|
  {
    ChildPartitioned(s, e);
    ChildPropagated(s, e);
    ChildFewerFree(s, e);
  }

  /** A completion of a child is a completion of its parent. */
  lemma ChildCompletion(s: State, e: Edge, M: set<Edge>)
    requires Partitioned(s) && e in s.free && Completion(Child(s, e), M)
    ensures Completion(s, M)
  {
    ChildEffect(s, e);
  }

  /** Some completion of `s` has `Opt(s)` edges: the best leaf below `s`. */
  lemma {:induction false} OptAttained(s: State) returns (M: set<Edge>)
    requires Partitioned(s) && Propagated(s)
    ensures Completion(s, M) && |M| == Opt(s)
    decreases |s.free|
  {
    if s.free == {} {
      M := s.included;
    } else {
      ExpandKeepsOpt(s);
      var e :| e in s.free && Opt(Child(s, e)) == Opt(s);
      ChildReady(s, e);
      M := OptAttained(Child(s, e));
      ChildCompletion(s, e, M);
    }
  }

  /** Including an edge of a completion keeps that completion within reach. */
  lemma ChildKeepsCompletion(s: State, e: Edge, M: set<Edge>)
    requires Partitioned(s) && Completion(s, M) && e in M && e !in s.included
    ensures e in s.free && Completion(Child(s, e), M)
  {
    ChildEffect(s, e);
    var c := Child(s, e);
    forall f | f in M ensures f in c.NotExcluded() {
      if f != e && f !in s.included {
        assert !Adjacent(f, e);
      }
    }
  }

  /** Including any free edge grows the included matching by one. */
  lemma ChildExtendsIncluded(s: State, e: Edge)
    requires Partitioned(s) && Propagated(s) && e in s.free
    ensures Completion(Child(s, e), s.included + {e})
  {
    ChildEffect(s, e);
    var M := s.included + {e};
    forall f, g | f in M && g in M && f != g ensures !Adjacent(f, g) {
      if f == e {
        assert !Adjacent(e, g);
      } else if g == e {
        assert !Adjacent(e, f);
      }
    }
  }

  lemma OptAboveChild(s: State, e: Edge, k: nat)
    requires e in s.free && k <= Opt(Child(s, e))
    ensures k <= Opt(s)
  {
    ExpandKeepsOpt(s);
  }

  /** No completion of `s` has more than `Opt(s)` edges. */
  lemma {:induction false} OptDominates(s: State, M: set<Edge>)
    requires Partitioned(s) && Propagated(s) && Completion(s, M)
    ensures |M| <= Opt(s)
    decreases |s.free|, 1
  {
    if s.free == {} {
      assert M == s.included;
    } else if M == s.included {
      var e :| e in s.free;
      ChildExtendsIncluded(s, e);
      OptViaChild(s, e, M + {e});
      assert |M + {e}| == |M| + 1;
    } else {
      var e :| e in M && e !in s.included;
      ChildKeepsCompletion(s, e, M);
      OptViaChild(s, e, M);
    }
  }

  /** A completion of a child has at most `Opt(s)` edges. */
  lemma {:induction false} OptViaChild(s: State, e: Edge, M: set<Edge>)
    requires Partitioned(s) && Propagated(s) && e in s.free && Completion(Child(s, e), M)
    ensures |M| <= Opt(s)
    decreases |s.free|, 0
  {
    ChildReady(s, e);
    OptDominates(Child(s, e), M);
    OptAboveChild(s, e, |M|);
  }

  /** The bound is admissible: no leaf below `s` has more than `RawScore(s) / 2` edges. */
  lemma Admissible(s: State)
    requires Partitioned(s) && Propagated(s)
    ensures 2 * Opt(s) <= RawScore(s)
  {
    var M := OptAttained(s);
    CompletionWithinBound(s, M);
  }

  /** At a leaf the bound is exact and equals the best leaf below it, itself. */
  lemma LeafOpt(s: State)
    requires Propagated(s) && s.free == {}
    ensures Opt(s) == |s.included| && RawScore(s) == 2 * Opt(s)
  {
    LeafScore(s);
  }

  /** From the root, `Opt` is the size of a maximum matching of the graph. */
  lemma RootOpt(E: set<Edge>, M: set<Edge>)
    requires IsMatching(M) && M <= E
    ensures |M| <= Opt(Root(E))
  {
    RootCompletions(E, M);
    OptDominates(Root(E), M);
  }
}
