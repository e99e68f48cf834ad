/** Undirected simple graphs given by their edge sets, and matchings in them.
    Nodes are integers; an edge is stored with its smaller endpoint first, so that
    the two orientations of an undirected edge are one value. */
module Edges {

  datatype NodePair = NodePair(lo: int, hi: int)

  /** An undirected edge between two distinct nodes (no self-loops). */
  type Edge = p: NodePair | p.lo < p.hi witness NodePair(0, 1)

  /** The edge between `a` and `b`, whichever way round they are given. */
  function MkEdge(a: int, b: int): (e: Edge)
    requires a != b
    ensures (e.lo == a && e.hi == b) || (e.lo == b && e.hi == a)
  {
    if a < b then NodePair(a, b) else NodePair(b, a)
  }

  predicate Touches(e: Edge, n: int) {
    e.lo == n || e.hi == n
  }

  /** `e` and `f` share an endpoint. */
  predicate Adjacent(e: Edge, f: Edge) {
    Touches(e, f.lo) || Touches(e, f.hi)
  }

  /** The nodes that some edge of `E` touches. */
  function Endpoints(E: set<Edge>): set<int> {
    (set e | e in E :: e.lo) + (set e | e in E :: e.hi)
  }

  /** The edges of `E` that touch `n`. */
  function Incident(E: set<Edge>, n: int): set<Edge> {
    set e | e in E && Touches(e, n)
  }

  function Degree(E: set<Edge>, n: int): nat {
    |Incident(E, n)|
  }

  /** The nodes joined to `n` by an edge of `E`. */
  function Neighbours(E: set<Edge>, n: int): set<int> {
    set e | e in E && Touches(e, n) :: if e.lo == n then e.hi else e.lo
  }

  /** No two distinct edges of `M` share an endpoint. */
  predicate IsMatching(M: set<Edge>) {
    forall e, f {:trigger Adjacent(e, f)} :: e in M && f in M && e != f ==> !Adjacent(e, f)
  }

  /** A matching of the graph with edge set `E` that no matching of it outnumbers. */
  ghost predicate IsMaximumMatching(M: set<Edge>, E: set<Edge>) {
    IsMatching(M) && M <= E &&
    forall M' :: IsMatching(M') && M' <= E ==> |M'| <= |M|
  }

  lemma DegreeCovers(E: set<Edge>, n: int)
    ensures Degree(E, n) >= 1 <==> n in Endpoints(E)
  {
    if n in Endpoints(E) {
      var e :| e in E && Touches(e, n);
      assert e in Incident(E, n);
    }
  }

  lemma NeighbourEdge(E: set<Edge>, n: int, w: int)
    ensures w in Neighbours(E, n) <==> w != n && MkEdge(n, w) in E
  {
    if w in Neighbours(E, n) {
      var e :| e in E && Touches(e, n) && w == (if e.lo == n then e.hi else e.lo);
      assert e == MkEdge(n, w);
    }
    if w != n && MkEdge(n, w) in E {
      var e := MkEdge(n, w);
      assert w == (if e.lo == n then e.hi else e.lo);
    }
  }

  lemma EndpointsMonotone(A: set<Edge>, B: set<Edge>)
    requires A <= B
    ensures Endpoints(A) <= Endpoints(B)
    ensures |Endpoints(A)| <= |Endpoints(B)|
  {
    assert Endpoints(A) <= Endpoints(B);
    SubsetCard(Endpoints(A), Endpoints(B));
  }

  lemma {:induction false} SubsetCard<T>(A: set<T>, B: set<T>)
    requires A <= B
    ensures |A| <= |B|
    decreases B
  {
    if A != {} {
      var x :| x in A;
      SubsetCard(A - {x}, B - {x});
    }
  }

  /** A matching of `k` edges touches exactly `2 * k` nodes. */
  lemma {:induction false} MatchingEndpoints(M: set<Edge>)
    requires IsMatching(M)
    ensures |Endpoints(M)| == 2 * |M|
    decreases M
  {
    if M != {} {
      var e :| e in M;
      var rest := M - {e};
      assert M == rest + {e};
      MatchingSplit(rest, e);
      MatchingEndpoints(rest);
      EndpointsAdd(rest, e);
      CardAddTwo(Endpoints(rest), e.lo, e.hi);
    }
  }

  /** Taking an edge out of a matching leaves a matching that does not touch it. */
  lemma MatchingSplit(rest: set<Edge>, e: Edge)
    requires IsMatching(rest + {e}) && e !in rest
    ensures IsMatching(rest) && e.lo !in Endpoints(rest) && e.hi !in Endpoints(rest)
  {
    var M := rest + {e};
    forall f, g | f in rest && g in rest && f != g ensures !Adjacent(f, g) {
      assert f in M && g in M;
    }
    forall f | f in rest ensures !Touches(f, e.lo) && !Touches(f, e.hi) {
      assert f in M && !Adjacent(f, e);
    }
  }

  /** Adding an edge adds its two endpoints. */
  lemma EndpointsAdd(E: set<Edge>, e: Edge)
    ensures Endpoints(E + {e}) == (Endpoints(E) + {e.lo}) + {e.hi}
  {
  }

  lemma CardAddTwo(R: set<int>, x: int, y: int)
    requires x !in R && y !in R && x != y
    ensures |(R + {x}) + {y}| == |R| + 2
  {
    assert y !in R + {x};
  }

  /** A matching inside `E` has at most half as many edges as `E` touches nodes. */
  lemma MatchingWithin(M: set<Edge>, E: set<Edge>)
    requires IsMatching(M) && M <= E
    ensures 2 * |M| <= |Endpoints(E)|
  {
    MatchingEndpoints(M);
    EndpointsMonotone(M, E);
  }
}
