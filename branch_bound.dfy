/** The best-first branch-and-bound search (branchbound.py): a max-priority queue
    of search states ordered by their bound, expanded until no state is left, with
    states pruned when their bound falls strictly below the best leaf found so far.
    The search is proved to end with a maximum matching of what the original state
    can still be completed to. Bounds and the incumbent are kept as twice the
    source's values (the integer `_score` rather than `score`), which orders every
    state the same way. */
module BranchBound {
  import opened Edges
  import opened StateSpec
  import opened SearchTree
  import opened Graph

  /** The first index of a least key in `h`: the entry a min-queue hands out next
      (among entries with equal keys, which one comes first is not modelled). */
  function LeastKey<T>(h: seq<(int, T)>): (k: nat)
    requires h != []
    ensures k < |h|
    ensures forall j :: 0 <= j < |h| ==> h[k].0 <= h[j].0
  {
    if |h| == 1 then 0
    else
      var k := LeastKey(h[1..]);
      if h[0].0 <= h[1..][k].0 then 0 else k + 1
  }

  /** `h` without its entry at `k`. */
  function Removed<T>(h: seq<T>, k: nat): (r: seq<T>)
    requires k < |h|
    ensures |r| == |h| - 1
  {
    h[..k] + h[k + 1..]
  }

  /** A max-priority queue built on a min-priority queue by storing every key
      negated. */
  class MaxPriorityQueue<T> {
    /** The entries of the underlying min-queue: (negated key, value). */
    var heap: seq<(int, T)>

    constructor ()
      ensures heap == []
    {
      heap := [];
    }

    /** The queue holds no entry (`empty`). */
    predicate Empty(): (r: bool)
      reads this
      ensures r <==> |heap| == 0
    {
      heap == []
    }

    method Put(key: int, value: T)
      modifies this
      ensures heap == old(heap) + [(-key, value)]
    {
      heap := heap + [(-key, value)];
    }

    /** Removes an entry whose key is largest and returns it with its key restored. */
    method Get() returns (key: int, value: T)
      requires heap != []
      modifies this
      ensures exists k ::
        0 <= k < |old(heap)| && old(heap)[k] == (-key, value) && heap == Removed(old(heap), k)
      ensures forall j :: 0 <= j < |old(heap)| ==> -old(heap)[j].0 <= key
    {
      var k := LeastKey(heap);
      var item := heap[k];
      heap := heap[..k] + heap[k + 1..];
      key, value := -item.0, item.1;
    }
  }

  /** `s` lies in the search tree below `t`: it includes every edge `t` includes
      and keeps only edges that `t` keeps. */
  ghost predicate Below(s: State, t: State) {
    s.edges == t.edges && t.included <= s.included && s.NotExcluded() <= t.NotExcluded()
  }

  /** `g` is consistent, propagated, below `root`, and holds the abstract state `s`. */
  ghost predicate Known(g: MCMGraph, s: State, root: State)
    reads g
  {
    g.Valid() && g.View() == s && Propagated(s) && Below(s, root)
  }

  /** The abstract state the search knows each queued object to hold. Queued objects
      are never changed, so the map stays true as the search goes on. (The trigger
      keeps the solver from unfolding every tracked object's invariant unasked.) */
  ghost predicate Tracked(views: map<MCMGraph, State>, root: State)
    reads views.Keys
  {
    forall g {:trigger Known(g, views[g], root)} :: g in views ==> Known(g, views[g], root)
  }

  /** `views2` knows every object `views` knows, and the same state for it. */
  ghost predicate Extends(views2: map<MCMGraph, State>, views: map<MCMGraph, State>) {
    forall g :: g in views ==> g in views2 && views2[g] == views[g]
  }

  /** Starting to track a consistent, propagated state below `root`. */
  lemma TrackAdd(views: map<MCMGraph, State>, g: MCMGraph, root: State)
    requires Tracked(views, root) && Known(g, g.View(), root)
    ensures Tracked(views[g := g.View()], root) && Extends(views[g := g.View()], views)
  {
    var views2 := views[g := g.View()];
    if g in views {
      assert Known(g, views[g], root);
    }
    forall g' | g' in views2 ensures Known(g', views2[g'], root) {
      if g' != g {
        assert Known(g', views[g'], root);
      }
    }
  }

  /** Every queue entry is a tracked state keyed by its bound negated. */
  ghost predicate Keyed(h: seq<(int, MCMGraph)>, views: map<MCMGraph, State>) {
    forall i :: 0 <= i < |h| ==> h[i].1 in views && h[i].0 == -(RawScore(views[h[i].1]) as int)
  }

  /** `branched` lists every free edge of `p` exactly once. */
  ghost predicate EachFreeOnce(p: State, branched: seq<Edge>) {
    && |branched| == |p.free|
    && (forall f :: f in p.free <==> f in branched)
    && (forall i, j :: 0 <= i < j < |branched| ==> branched[i] != branched[j])
  }

  /** `h` is `h0` followed by one entry per edge of `branched`: a state tracked as the
      child of `p` for that edge, keyed by that child's bound negated. */
  ghost predicate Appended(h: seq<(int, MCMGraph)>, h0: seq<(int, MCMGraph)>, views: map<MCMGraph, State>,
                           p: State, branched: seq<Edge>) {
    && |h| == |h0| + |branched| && h[..|h0|] == h0
    && forall i :: 0 <= i < |branched| ==>
         && branched[i] in p.free && h[|h0| + i].1 in views && views[h[|h0| + i].1] == Child(p, branched[i])
         && h[|h0| + i].0 == -(RawScore(Child(p, branched[i])) as int)
  }

  /** `M` lies between what `s` includes and what it has not excluded: when `M` is
      a matching, `s` can still be completed to it. */
  ghost predicate Within(s: State, M: set<Edge>) {
    s.included <= M <= s.NotExcluded()
  }

  /** Entry `i` of the queue is a tracked state that can still be completed to `M`. */
  ghost predicate HoldsAt(h: seq<(int, MCMGraph)>, views: map<MCMGraph, State>, M: set<Edge>, i: int) {
    0 <= i < |h| && h[i].1 in views && Within(views[h[i].1], M)
  }

  /** Some queued state can still be completed to `M`. (Stated through `HoldsAt` so
      that the solver only looks at the entries a proof names.) */
  ghost predicate Holds(h: seq<(int, MCMGraph)>, views: map<MCMGraph, State>, M: set<Edge>) {
    exists i :: HoldsAt(h, views, M, i)
  }

  /** A leaf found by the search: consistent, propagated, without free edges and
      below `root`. */
  ghost predicate Incumbent(g: MCMGraph, root: State)
    reads g
  {
    g.Valid() && Propagated(g.View()) && g.freeEdges == {} && Below(g.View(), root)
  }

  /** `k` copies of `x` added up (the bound below is written with it, so that it
      stays within linear arithmetic). */
  function Times(k: nat, x: nat): nat {
    if k == 0 then 0 else x + Times(k - 1, x)
  }

  /** An upper bound on the number of states the search can still expand below a
      state with `n` free edges: itself, plus at most `n` children with fewer. */
  function Bound(n: nat): (r: nat)
    ensures r >= 1
  {
    if n == 0 then 1 else 1 + Times(n, Bound(n - 1))
  }

  /** The bound on the work below one entry (untracked entries weigh nothing). */
  ghost function Weight(en: (int, MCMGraph), views: map<MCMGraph, State>): nat {
    if en.1 in views then Bound(|views[en.1].free|) else 0
  }

  /** The work left in a queue: the sum of the weights of its entries. */
  ghost function Work(h: seq<(int, MCMGraph)>, views: map<MCMGraph, State>): nat {
    if h == [] then 0 else Weight(h[0], views) + Work(h[1..], views)
  }

  lemma BoundStep(n: nat)
    requires n >= 1
    ensures Bound(n - 1) < Bound(n)
  {
    assert Times(n, Bound(n - 1)) == Bound(n - 1) + Times(n - 1, Bound(n - 1));
  }

  lemma {:induction false} BoundMonotone(a: nat, b: nat)
    requires a <= b
    ensures Bound(a) <= Bound(b)
    decreases b
  {
    if a < b {
      BoundMonotone(a, b - 1);
      BoundStep(b);
    }
  }

  lemma {:induction false} TimesMonotone(j: nat, n: nat, x: nat)
    requires j <= n
    ensures Times(j, x) <= Times(n, x)
    decreases n
  {
    if j < n {
      TimesMonotone(j, n - 1, x);
    }
  }

  /** Entries for states with fewer than `n` free edges weigh at most
      `Bound(n - 1)` each. */
  lemma {:induction false} WorkAtMost(h: seq<(int, MCMGraph)>, views: map<MCMGraph, State>, n: nat)
    requires 1 <= n && forall i :: 0 <= i < |h| ==> h[i].1 in views && |views[h[i].1].free| < n
    ensures Work(h, views) <= Times(|h|, Bound(n - 1))
    decreases |h|
  {
    if h != [] {
      BoundMonotone(|views[h[0].1].free|, n - 1);
      assert forall i :: 0 <= i < |h[1..]| ==> h[1..][i] == h[i + 1];
      WorkAtMost(h[1..], views, n);
    }
  }

  /** At most `n` children, each with fewer than `n` free edges, weigh less than
      their parent. */
  lemma ChildrenWeighLess(h: seq<(int, MCMGraph)>, views: map<MCMGraph, State>, n: nat)
    requires |h| <= n && forall i :: 0 <= i < |h| ==> h[i].1 in views && |views[h[i].1].free| < n
    ensures Work(h, views) < Bound(n)
  {
    if n > 0 {
      WorkAtMost(h, views, n);
      TimesMonotone(|h|, n, Bound(n - 1));
    }
  }

  lemma {:induction false} WorkAppend(a: seq<(int, MCMGraph)>, b: seq<(int, MCMGraph)>, views: map<MCMGraph, State>)
    ensures Work(a + b, views) == Work(a, views) + Work(b, views)
    decreases |a|
  {
    if a != [] {
      assert (a + b)[0] == a[0] && (a + b)[1..] == a[1..] + b;
      WorkAppend(a[1..], b, views);
    } else {
      assert a + b == b;
    }
  }

  /** Learning about more objects does not change the work of a tracked queue. */
  lemma {:induction false} WorkExtend(h: seq<(int, MCMGraph)>, views: map<MCMGraph, State>, views2: map<MCMGraph, State>)
    requires Keyed(h, views) && Extends(views2, views)
    ensures Keyed(h, views2) && Work(h, views2) == Work(h, views)
    decreases |h|
  {
    if h != [] {
      WorkExtend(h[1..], views, views2);
    }
  }

  /** Taking entry `k` out of the queue keeps the rest keyed. */
  lemma PopKeyed(h: seq<(int, MCMGraph)>, k: nat, views: map<MCMGraph, State>)
    requires k < |h| && Keyed(h, views)
    ensures h[k].1 in views && h[k].0 == -(RawScore(views[h[k].1]) as int)
    ensures Keyed(h[..k] + h[k + 1..], views)
  {
    var rest := h[..k] + h[k + 1..];
    forall i | 0 <= i < |rest|
      ensures rest[i].1 in views && rest[i].0 == -(RawScore(views[rest[i].1]) as int)
    {
      if i < k { assert rest[i] == h[i]; } else { assert rest[i] == h[i + 1]; }
    }
  }

  /** Taking entry `k` out of the queue lowers the work by the entry's weight. */
  lemma PopWork(h: seq<(int, MCMGraph)>, k: nat, views: map<MCMGraph, State>)
    requires k < |h|
    ensures Work(h, views) == Work(h[..k] + h[k + 1..], views) + Weight(h[k], views)
  {
    assert h == h[..k] + [h[k]] + h[k + 1..];
    WorkAppend(h[..k] + [h[k]], h[k + 1..], views);
    WorkAppend(h[..k], [h[k]], views);
    WorkAppend(h[..k], h[k + 1..], views);
    assert Work([h[k]], views) == Weight(h[k], views) + Work([], views);
  }

  /** After entry `k` is taken out, some remaining entry can still be completed to
      `M`, unless entry `k` was the one. */
  lemma PopHolds(h: seq<(int, MCMGraph)>, k: nat, views: map<MCMGraph, State>, M: set<Edge>)
    requires k < |h| && Holds(h, views, M)
    ensures (h[k].1 in views && Within(views[h[k].1], M)) || Holds(h[..k] + h[k + 1..], views, M)
  {
    var rest := h[..k] + h[k + 1..];
    var i :| HoldsAt(h, views, M, i);
    if i < k {
      assert rest[i] == h[i] && HoldsAt(rest, views, M, i);
    } else if i > k {
      assert rest[i - 1] == h[i] && HoldsAt(rest, views, M, i - 1);
    }
  }

  /** Appending a tracked entry keyed by its bound keeps the queue keyed. */
  lemma PushKeyed(h: seq<(int, MCMGraph)>, en: (int, MCMGraph), views: map<MCMGraph, State>)
    requires Keyed(h, views) && en.1 in views && en.0 == -(RawScore(views[en.1]) as int)
    ensures Keyed(h + [en], views)
  {
    forall i | 0 <= i < |h| + 1
      ensures (h + [en])[i].1 in views && (h + [en])[i].0 == -(RawScore(views[(h + [en])[i].1]) as int)
    {
      if i < |h| { assert (h + [en])[i] == h[i]; }
    }
  }

  /** Appending keeps an entry that can be completed to `M`, and adds one when the
      new entry can. */
  lemma PushHolds(h: seq<(int, MCMGraph)>, en: (int, MCMGraph), views: map<MCMGraph, State>, M: set<Edge>)
    requires Holds(h, views, M) || (en.1 in views && Within(views[en.1], M))
    ensures Holds(h + [en], views, M)
  {
    if Holds(h, views, M) {
      var i :| HoldsAt(h, views, M, i);
      assert (h + [en])[i] == h[i] && HoldsAt(h + [en], views, M, i);
    } else {
      assert (h + [en])[|h|] == en && HoldsAt(h + [en], views, M, |h|);
    }
  }

  /** Appending an entry for a newly tracked state `s`, keyed by its bound: the queue
      stays keyed, its work grows by the state's weight, and it can be completed to
      `M` if it could before or `s` can. */
  lemma PushEntry(h: seq<(int, MCMGraph)>, en: (int, MCMGraph), s: State, M: set<Edge>, views: map<MCMGraph, State>)
    requires Keyed(h, views) && Extends(views[en.1 := s], views) && en.0 == -(RawScore(s) as int)
    ensures Keyed(h + [en], views[en.1 := s])
    ensures Holds(h, views, M) || Within(s, M) ==> Holds(h + [en], views[en.1 := s], M)
  {
    var views2 := views[en.1 := s];
    WorkExtend(h, views, views2);
    PushKeyed(h, en, views2);
    if Holds(h, views, M) {
      HoldsExtend(h, views, views2, M);
    }
    if Holds(h, views2, M) || Within(s, M) {
      PushHolds(h, en, views2, M);
    }
  }

  /** Learning about more objects keeps a queue that can be completed to `M` so. */
  lemma HoldsExtend(h: seq<(int, MCMGraph)>, views: map<MCMGraph, State>, views2: map<MCMGraph, State>, M: set<Edge>)
    requires Holds(h, views, M) && Extends(views2, views)
    ensures Holds(h, views2, M)
  {
    var i :| HoldsAt(h, views, M, i);
    assert h[i].1 in views2 && HoldsAt(h, views2, M, i);
  }

  /** The children of a consistent, propagated state below `root` are consistent,
      propagated and below `root` too, each with fewer free edges than their parent:
      `views` maps each child to the state it holds. */
  lemma ChildrenKnown(states: seq<MCMGraph>, p: State, branched: seq<Edge>, root: State)
    returns (views: map<MCMGraph, State>)
    requires AllChildren(states, p, branched) && Partitioned(p) && Propagated(p) && Below(p, root)
    ensures Tracked(views, root)
    ensures forall i :: 0 <= i < |states| ==>
      states[i] in views && views[states[i]] == states[i].View() && |views[states[i]].free| < |p.free|
    ensures forall i :: 0 <= i < |states| ==> branched[i] in p.free && views[states[i]] == Child(p, branched[i])
  {
    views := map g | g in states :: g.View();
    forall i | 0 <= i < |states|
      ensures Known(states[i], states[i].View(), root) && |states[i].freeEdges| < |p.free|
    {
      assert IsChild(states[i], p, branched[i]);
      ChildKnown(states[i], p, branched[i], root);
    }
    forall g | g in views ensures Known(g, views[g], root) {
      var i :| 0 <= i < |states| && states[i] == g;
    }
  }

  lemma ChildKnown(g: MCMGraph, p: State, e: Edge, root: State)
    requires IsChild(g, p, e) && Partitioned(p) && Propagated(p) && Below(p, root)
    ensures Known(g, g.View(), root) && |g.freeEdges| < |p.free|
  {
    ChildPropagated(p, e);
    ChildEffect(p, e);
    ChildScore(p, e);
    ChildFewerFree(p, e);
  }

  /** `M` is a completion of `s` that no completion of `s` outnumbers. */
  ghost predicate Largest(s: State, M: set<Edge>) {
    Completion(s, M) && forall M' :: Completion(s, M') ==> |M'| <= |M|
  }

  /** `M` is a largest completion of `root`. The quantifier over the single state
      `s == root` means exactly `Largest(root, M)`, but its trigger lets the solver
      use it only where a proof writes `Largest(root, M)` itself: the search steps,
      which only pass the fact on, never unfold it. */
  ghost predicate Aim(root: State, M: set<Edge>) {
    forall s {:trigger Largest(s, M)} :: s == root ==> Largest(s, M)
  }

  /** Every consistent, propagated state has a largest completion: the best leaf
      below it. */
  lemma LargestExists(s: State) returns (M: set<Edge>)
    requires Partitioned(s) && Propagated(s)
    ensures Largest(s, M)
  {
    M := OptAttained(s);
    forall M' | Completion(s, M') ensures |M'| <= |M| {
      OptDominates(s, M');
    }
  }

  /** Branching loses no largest completion: when a state below `root` with free
      edges can be completed to a largest completion `M` of `root`, one of its
      children can too. (Were `M` only the included edges, including any free edge
      would give a larger completion of `root`.) */
  lemma ChildHolds(states: seq<MCMGraph>, p: State, branched: seq<Edge>, root: State, M: set<Edge>)
    returns (c: int)
    requires AllChildren(states, p, branched) && (forall f :: f in p.free <==> f in branched)
    requires Partitioned(p) && Propagated(p) && p.free != {} && Below(p, root)
    requires Within(p, M) && Largest(root, M)
    ensures 0 <= c < |states| && Within(states[c].View(), M)
  {
    if M == p.included {
      var e :| e in p.free;
      ChildExtendsIncluded(p, e);
      ChildEffect(p, e);
      assert |p.included + {e}| == |M| + 1;
      assert Completion(root, p.included + {e});
      assert false;
    }
    var e :| e in M && e !in p.included;
    ChildKeepsCompletion(p, e, M);
    c :| 0 <= c < |branched| && branched[c] == e;
    assert IsChild(states[c], p, branched[c]);
  }

  /** A pruned state, whose bound is below the incumbent, has no completion as large
      as the incumbent. */
  lemma PruneSound(s: State, best: int, M: set<Edge>)
    requires RawScore(s) < best && IsMatching(M) && Within(s, M)
    ensures 2 * |M| < best
  {
    CompletionWithinBound(s, M);
  }

  /** A leaf's only completion is its included edges, and its bound is exactly twice
      their number. */
  lemma LeafReaches(s: State, M: set<Edge>)
    requires Propagated(s) && s.free == {} && Within(s, M)
    ensures M == s.included && RawScore(s) == 2 * |M|
  {
    LeafScore(s);
  }

  /** A leaf reached from `root` carries a completion of `root`, and its bound is
      twice its size. */
  lemma LeafFound(g: MCMGraph, root: State)
    requires Incumbent(g, root)
    ensures Completion(root, g.includedEdges)
    ensures RawScore(g.View()) == 2 * |g.includedEdges|
  {
    LeafScore(g.View());
  }

  /** Takes a queued state of largest bound out of a keyed queue: the state is
      tracked, the work left drops by its weight, and if some queued state could be
      completed to `M`, either this one can or one still queued can. */
  method TakeBest(pq: MaxPriorityQueue<MCMGraph>, ghost root: State, ghost M: set<Edge>,
                  ghost views: map<MCMGraph, State>) returns (g: MCMGraph, ghost s: State, ghost k: int)
    requires pq.heap != [] && Tracked(views, root) && Keyed(pq.heap, views)
    modifies pq
    ensures 0 <= k < |old(pq.heap)| && old(pq.heap)[k].1 == g && pq.heap == Removed(old(pq.heap), k)
    ensures forall j :: 0 <= j < |old(pq.heap)| ==> RawScore(views[old(pq.heap)[j].1]) <= RawScore(s)
    ensures g in views && views[g] == s && Tracked(views, root) && Keyed(pq.heap, views)
    ensures Work(pq.heap, views) + Bound(|s.free|) == Work(old(pq.heap), views)
    ensures Holds(old(pq.heap), views, M) ==> Within(s, M) || Holds(pq.heap, views, M)
  {
    ghost var h := pq.heap;
    var key;
    key, g := pq.Get();
    k :| 0 <= k < |h| && h[k] == (-key, g) && pq.heap == h[..k] + h[k + 1..];
    PopKeyed(h, k, views);
    PopWork(h, k, views);
    s := views[g];
    if Holds(h, views, M) {
      PopHolds(h, k, views, M);
    }
  }

  /** The children of a state taken from the queue, with what the search knows of
      them: one per free edge, each tracked as the child for its edge, with fewer free
      edges than its parent; and when the parent can be completed to `M` and has
      children, child `w` can be too. */
  method Expand(g: MCMGraph, ghost s: State, ghost root: State, ghost M: set<Edge>, ghost views: map<MCMGraph, State>)
    returns (nextStates: seq<MCMGraph>, ghost children: map<MCMGraph, State>, ghost branched: seq<Edge>, ghost w: int)
    requires Tracked(views, root) && g in views && views[g] == s && Aim(root, M)
    ensures |nextStates| == |s.free| && Tracked(children, root) && EachFreeOnce(s, branched)
    ensures forall i :: 0 <= i < |nextStates| ==>
      && nextStates[i] in children && |children[nextStates[i]].free| < |s.free|
      && branched[i] in s.free && children[nextStates[i]] == Child(s, branched[i])
    ensures Within(s, M) && nextStates != [] ==> 0 <= w < |nextStates|
    ensures 0 <= w < |nextStates| ==> Within(children[nextStates[w]], M)
  {
    assert Known(g, s, root);
    nextStates, branched := g.GetNextStates();
    children := ChildrenKnown(nextStates, s, branched, root);
    w := -1;
    if |nextStates| != 0 && Within(s, M) {
      assert Largest(root, M);  // the fact `Aim(root, M)` holds back
      w := ChildHolds(nextStates, s, branched, root, M);
    }
  }

  /** The pruning test of one search step: the state's bound is below the
      incumbent's. A pruned state has no completion as large as the incumbent, so
      when `M` was within its reach the incumbent is already as large as `M`. */
  method Pruned(g: MCMGraph, best: Option<int>, ghost s: State, ghost root: State, ghost M: set<Edge>,
                ghost views: map<MCMGraph, State>) returns (r: bool)
    requires Tracked(views, root) && g in views && views[g] == s && Aim(root, M)
    ensures r <==> best.Some? && RawScore(s) < best.value
    ensures r && Within(s, M) ==> 2 * |M| < best.value
  {
    assert Known(g, s, root);
    r := g.WorstThan(best);
    if r && Within(s, M) {
      assert Largest(root, M);  // the fact `Aim(root, M)` holds back
      PruneSound(s, best.value, M);
    }
  }

  /** An incumbent whose bound is at least twice the size of a largest completion
      `M` of `root` carries a largest completion of `root` itself. */
  lemma IncumbentLargest(g: MCMGraph, root: State, M: set<Edge>, best: int)
    requires Incumbent(g, root) && Largest(root, M)
    requires best == RawScore(g.View()) && 2 * |M| <= best
    ensures g.freeEdges == {} && Completion(root, g.includedEdges)
    ensures forall M' :: Completion(root, M') ==> |M'| <= |g.includedEdges|
  {
    LeafFound(g, root);
  }

  /** From the root, a completion that no completion outnumbers is a maximum
      matching of the graph. */
  lemma LargestAtRoot(E: set<Edge>, B: set<Edge>)
    requires Completion(Root(E), B) && forall M :: Completion(Root(E), M) ==> |M| <= |B|
    ensures IsMaximumMatching(B, E)
  {
    RootCompletions(E, B);
    forall M | IsMatching(M) && M <= E ensures |M| <= |B| {
      RootCompletions(E, M);
    }
  }

  /** Queue `h` is `h0` followed by the objects `nextStates`, in order, each keyed by
      its state's bound negated and tracked by `views2` with that state. */
  ghost predicate Pushed(h: seq<(int, MCMGraph)>, h0: seq<(int, MCMGraph)>, nextStates: seq<MCMGraph>,
                         children: map<MCMGraph, State>, views2: map<MCMGraph, State>) {
    && |h| == |h0| + |nextStates| && h[..|h0|] == h0
    && forall i :: 0 <= i < |nextStates| ==>
         && nextStates[i] in children && h[|h0| + i] == (-(RawScore(children[nextStates[i]]) as int), nextStates[i])
         && nextStates[i] in views2 && views2[nextStates[i]] == children[nextStates[i]]
  }

  lemma PrefixStep<T>(s: seq<T>, j: nat)
    requires j < |s|
    ensures s[..j + 1] == s[..j] + [s[j]]
  {
  }

  lemma PrefixAll<T>(s: seq<T>)
    ensures s[..|s|] == s
  {
  }

  /** A queue with nothing appended. */
  lemma NothingAppended(h: seq<(int, MCMGraph)>, views: map<MCMGraph, State>, p: State)
    ensures Appended(h, h, views, p, [])
  {
    PrefixAll(h);
  }

  /** Queuing one more object keeps the queue pushed. */
  lemma PushedStep(h: seq<(int, MCMGraph)>, h0: seq<(int, MCMGraph)>, nextStates: seq<MCMGraph>,
                   children: map<MCMGraph, State>, views: map<MCMGraph, State>, g: MCMGraph)
    requires Pushed(h, h0, nextStates, children, views) && g in children
    ensures Pushed(h + [(-(RawScore(children[g]) as int), g)], h0, nextStates + [g], children, views[g := children[g]])
  {
    var h' := h + [(-(RawScore(children[g]) as int), g)];
    assert h'[..|h0|] == h[..|h0|];
  }

  /** The objects pushed, at most `n` of them and each with fewer than `n` free
      edges, add less work than `Bound(n)`. */
  lemma PushedWeighLess(h: seq<(int, MCMGraph)>, h0: seq<(int, MCMGraph)>, nextStates: seq<MCMGraph>,
                        children: map<MCMGraph, State>, views2: map<MCMGraph, State>, n: nat)
    requires Pushed(h, h0, nextStates, children, views2) && |nextStates| <= n
    requires forall i :: 0 <= i < |nextStates| ==> nextStates[i] in children && |children[nextStates[i]].free| < n
    ensures Work(h, views2) < Work(h0, views2) + Bound(n)
  {
    var pushed := h[|h0|..];
    assert h == h0 + pushed;
    forall i | 0 <= i < |pushed|
      ensures pushed[i].1 in views2 && |views2[pushed[i].1].free| < n
    {
      assert pushed[i] == h[|h0| + i] && pushed[i].1 == nextStates[i];
    }
    WorkAppend(h0, pushed, views2);
    ChildrenWeighLess(pushed, views2, n);
  }

  /** Queue `h` is `h0` followed by the children `nextStates` of `p`, one per edge of
      `branched`, each keyed by its bound negated. */
  lemma ChildrenAppended(h: seq<(int, MCMGraph)>, h0: seq<(int, MCMGraph)>, views2: map<MCMGraph, State>,
                         p: State, branched: seq<Edge>, nextStates: seq<MCMGraph>, children: map<MCMGraph, State>)
    requires |nextStates| == |branched| && Pushed(h, h0, nextStates, children, views2)
    requires forall i :: 0 <= i < |nextStates| ==>
      branched[i] in p.free && nextStates[i] in children && children[nextStates[i]] == Child(p, branched[i])
    ensures Appended(h, h0, views2, p, branched)
  {
  }

  /** The incumbent (`best`, `bestState`) after a leaf of bound `b` is offered to the
      incumbent (`oldBest`, `oldState`): the leaf when there was none or `b` is strictly
      larger, otherwise the old one. */
  ghost predicate Offered(best: Option<int>, bestState: MCMGraph?, oldBest: Option<int>, oldState: MCMGraph?,
                          b: int, leaf: MCMGraph) {
    if oldBest.None? || b > oldBest.value then best == Some(b) && bestState == leaf
    else best == oldBest && bestState == oldState
  }

  class BranchAndBound {
    /** Twice the size of the best leaf so far (`global_best`), and that leaf. */
    var globalBest: Option<int>
    var globalBestState: MCMGraph?
    var originalState: MCMGraph

    /** The incumbent, when there is one, is a leaf found below `root`, and
        `globalBest` is its bound. The quantifier over the single object
        `g == globalBestState` says this of the incumbent itself; its trigger lets the
        solver unfold the leaf's invariant only where a proof writes
        `Incumbent(g, root)`. */
    ghost predicate Holding(root: State)
      reads this, globalBestState
    {
      && (globalBest.None? <==> globalBestState == null)
      && forall g {:trigger Incumbent(g, root)} :: g == globalBestState ==>
           Incumbent(g, root) && globalBest.Some? && globalBest.value == RawScore(g.View())
    }

    ghost predicate Valid()
      reads this, originalState, globalBestState
    {
      originalState.Valid() && Propagated(originalState.View()) && Holding(originalState.View())
    }

    /** The incumbent is at least as large as `M`. */
    ghost predicate Reached(M: set<Edge>)
      reads this
    {
      globalBest.Some? && 2 * |M| <= globalBest.value
    }

    constructor (originalState: MCMGraph)
      ensures globalBest == None && globalBestState == null && this.originalState == originalState
      ensures originalState.Valid() && Propagated(originalState.View()) ==> Valid()
    {
      globalBest := None;
      globalBestState := null;
      this.originalState := originalState;
    }

    /** Records `state` as the incumbent when there is none yet or its bound is
        strictly larger; the incumbent value never decreases. */
    method UpdateBest(state: MCMGraph)
      requires state.Valid()
      modifies this`globalBest, this`globalBestState
      ensures var localBest := RawScore(state.View());
        if old(globalBest).None? || localBest > old(globalBest).value
        then globalBest == Some(localBest) && globalBestState == state
        else globalBest == old(globalBest) && globalBestState == old(globalBestState)
      ensures globalBest.Some? && RawScore(state.View()) <= globalBest.value
      ensures old(globalBest).Some? ==> old(globalBest).value <= globalBest.value
    {
      var localBest := state.Score();
      if globalBest == None || localBest > globalBest.value {
        globalBest := Some(localBest);
        globalBestState := state;
      }
    }

    /** Queues a consistent, propagated state keyed by its bound
        (`pq.put(state.score, state)`), and starts tracking it. */
    method Enqueue(pq: MaxPriorityQueue<MCMGraph>, g: MCMGraph, ghost s: State, ghost root: State, ghost M: set<Edge>,
                   ghost views: map<MCMGraph, State>, ghost known: map<MCMGraph, State>)
      returns (ghost views2: map<MCMGraph, State>)
      requires Tracked(views, root) && Keyed(pq.heap, views)
      requires Tracked(known, root) && g in known && known[g] == s
      modifies pq
      ensures views2 == views[g := s] && Extends(views2, views)
      ensures Tracked(views2, root) && Keyed(pq.heap, views2)
      ensures pq.heap == old(pq.heap) + [(-(RawScore(s) as int), g)]
      ensures Holds(old(pq.heap), views, M) || Within(s, M) ==> Holds(pq.heap, views2, M)
    {
      assert Known(g, s, root);
      var key := g.Score();
      assert key == RawScore(s) as int;
      TrackAdd(views, g, root);
      views2 := views[g := s];
      ghost var h := pq.heap;
      pq.Put(key, g);
      PushEntry(h, (-key, g), s, M, views);
    }

    /** One pass of the loop below: queues child `g` after the children `done` already
        queued (`pq.put((next_s.local_best, next_s))`). */
    method PushChild(pq: MaxPriorityQueue<MCMGraph>, g: MCMGraph, ghost start: seq<(int, MCMGraph)>,
                     ghost done: seq<MCMGraph>, ghost children: map<MCMGraph, State>, ghost root: State,
                     ghost M: set<Edge>, ghost views0: map<MCMGraph, State>, ghost views: map<MCMGraph, State>)
      returns (ghost views2: map<MCMGraph, State>)
      requires Tracked(views, root) && Extends(views, views0) && Keyed(pq.heap, views)
      requires Pushed(pq.heap, start, done, children, views) && Tracked(children, root) && g in children
      modifies pq
      ensures Tracked(views2, root) && Extends(views2, views0) && Keyed(pq.heap, views2)
      ensures Pushed(pq.heap, start, done + [g], children, views2)
      ensures Holds(old(pq.heap), views, M) || Within(children[g], M) ==> Holds(pq.heap, views2, M)
    {
      PushedStep(pq.heap, start, done, children, views, g);
      views2 := Enqueue(pq, g, children[g], root, M, views, children);
    }

    /** The last loop of one search step: queues every child, in order, keyed by its
        bound negated, and starts tracking it. */
    method PushChildren(pq: MaxPriorityQueue<MCMGraph>, nextStates: seq<MCMGraph>, ghost children: map<MCMGraph, State>,
                        ghost n: nat, ghost w: int, ghost root: State, ghost M: set<Edge>,
                        ghost views: map<MCMGraph, State>)
      returns (ghost views2: map<MCMGraph, State>)
      requires Tracked(views, root) && Keyed(pq.heap, views) && Tracked(children, root)
      requires |nextStates| <= n
      requires forall i :: 0 <= i < |nextStates| ==> nextStates[i] in children && |children[nextStates[i]].free| < n
      requires 0 <= w < |nextStates| ==> Within(children[nextStates[w]], M)
      modifies pq
      ensures Tracked(views2, root) && Keyed(pq.heap, views2)
      ensures Pushed(pq.heap, old(pq.heap), nextStates, children, views2)
      ensures Work(pq.heap, views2) < Work(old(pq.heap), views) + Bound(n)
      ensures Holds(old(pq.heap), views, M) || 0 <= w < |nextStates| ==> Holds(pq.heap, views2, M)
    {
      ghost var start := pq.heap;
      ghost var found := Holds(start, views, M);
      views2 := views;
      PrefixAll(start);
      for j := 0 to |nextStates|
        modifies pq
        invariant Tracked(views2, root) && Extends(views2, views) && Keyed(pq.heap, views2)
        invariant Pushed(pq.heap, start, nextStates[..j], children, views2)
        invariant found == (Holds(start, views, M) || 0 <= w < j)
        invariant found ==> Holds(pq.heap, views2, M)
        invariant Tracked(children, root)
      {
        views2 := PushChild(pq, nextStates[j], start, nextStates[..j], children, root, M, views, views2);
        PrefixStep(nextStates, j);
        found := found || j == w;
      }
      PrefixAll(nextStates);
      WorkExtend(start, views, views2);
      PushedWeighLess(pq.heap, start, nextStates, children, views2, n);
    }

    /** A leaf with state `s` is offered to the incumbent (`update_best`): it becomes the
        incumbent when there is none or its bound is strictly larger. The incumbent then
        reaches `M` if it did before or if the leaf can be completed to `M`. */
    method RecordLeaf(state: MCMGraph, ghost s: State, ghost root: State, ghost M: set<Edge>,
                      ghost views: map<MCMGraph, State>)
      requires Holding(root) && Tracked(views, root) && state in views && views[state] == s && s.free == {}
      modifies this`globalBest, this`globalBestState
      ensures Holding(root)
      ensures Offered(globalBest, globalBestState, old(globalBest), old(globalBestState), RawScore(s), state)
      ensures old(Reached(M)) || Within(s, M) ==> Reached(M)
    {
      assert Known(state, s, root);
      if Within(s, M) {
        LeafReaches(s, M);
      }
      UpdateBest(state);
    }

    /** One pass of the search loop: takes the entry `k` of a largest bound (that of
        state `cur`) out of the queue; prunes it when its bound is below the incumbent,
        leaving the rest of the queue as it was; otherwise offers it to the incumbent
        when it is a leaf and appends one child per free edge (`branched`). The work
        left in the queue goes down, and a largest completion `M` of the original
        state stays within reach of the queue until the incumbent is as large. */
    method Step(pq: MaxPriorityQueue<MCMGraph>, ghost root: State, ghost M: set<Edge>,
                ghost views: map<MCMGraph, State>)
      returns (ghost views2: map<MCMGraph, State>, pruned: bool, ghost k: int, ghost cur: State,
               ghost branched: seq<Edge>)
      requires Holding(root) && pq.heap != [] && Aim(root, M)
      requires Tracked(views, root) && Keyed(pq.heap, views) && (Reached(M) || Holds(pq.heap, views, M))
      modifies pq, this`globalBest, this`globalBestState
      ensures 0 <= k < |old(pq.heap)| && views[old(pq.heap)[k].1] == cur
      ensures forall j :: 0 <= j < |old(pq.heap)| ==> RawScore(views[old(pq.heap)[j].1]) <= RawScore(cur)
      ensures pruned <==> old(globalBest).Some? && RawScore(cur) < old(globalBest).value
      ensures pruned ==> pq.heap == Removed(old(pq.heap), k)
      ensures !pruned ==> EachFreeOnce(cur, branched) && Appended(pq.heap, Removed(old(pq.heap), k), views2, cur, branched)
      ensures !pruned && cur.free == {} ==>
        Offered(globalBest, globalBestState, old(globalBest), old(globalBestState), RawScore(cur), old(pq.heap)[k].1)
      ensures pruned || cur.free != {} ==> globalBest == old(globalBest) && globalBestState == old(globalBestState)
      ensures Holding(root) && Tracked(views2, root) && Keyed(pq.heap, views2)
      ensures Reached(M) || Holds(pq.heap, views2, M)
      ensures Work(pq.heap, views2) < Work(old(pq.heap), views)
    {
      var currentState;
      currentState, cur, k := TakeBest(pq, root, M, views);
      pruned := Pruned(currentState, globalBest, cur, root, M, views);
      if pruned {
        views2, branched := views, [];
        return;
      }
      views2, branched := Branch(pq, currentState, cur, root, M, views);
    }

    /** Expands a state that survived pruning: a leaf is offered to the incumbent, and
        one child per free edge (`branched`) is appended to the queue. The queue then
        holds less work than before plus the state's own weight, and whatever could be
        completed to `M` (the queue, the state itself or the incumbent) still can. */
    method Branch(pq: MaxPriorityQueue<MCMGraph>, currentState: MCMGraph, ghost cur: State, ghost root: State,
                  ghost M: set<Edge>, ghost views: map<MCMGraph, State>)
      returns (ghost views2: map<MCMGraph, State>, ghost branched: seq<Edge>)
      requires Holding(root) && Aim(root, M)
      requires Tracked(views, root) && currentState in views && views[currentState] == cur && Keyed(pq.heap, views)
      modifies pq, this`globalBest, this`globalBestState
      ensures EachFreeOnce(cur, branched) && Appended(pq.heap, old(pq.heap), views2, cur, branched)
      ensures cur.free == {} ==>
        Offered(globalBest, globalBestState, old(globalBest), old(globalBestState), RawScore(cur), currentState)
      ensures cur.free != {} ==> globalBest == old(globalBest) && globalBestState == old(globalBestState)
      ensures Holding(root) && Tracked(views2, root) && Keyed(pq.heap, views2)
      ensures old(Reached(M)) || Within(cur, M) || Holds(old(pq.heap), views, M) ==>
        Reached(M) || Holds(pq.heap, views2, M)
      ensures Work(pq.heap, views2) < Work(old(pq.heap), views) + Bound(|cur.free|)
    {
      var nextStates;
      ghost var children, w;
      nextStates, children, branched, w := Expand(currentState, cur, root, M, views);
      views2 := Settle(pq, currentState, cur, nextStates, children, branched, w, root, M, views);
    }

    /** The rest of a step once the children of `cur` are known: a leaf is offered to
        the incumbent, and every child is queued. */
    method Settle(pq: MaxPriorityQueue<MCMGraph>, currentState: MCMGraph, ghost cur: State,
                  nextStates: seq<MCMGraph>, ghost children: map<MCMGraph, State>, ghost branched: seq<Edge>,
                  ghost w: int, ghost root: State, ghost M: set<Edge>, ghost views: map<MCMGraph, State>)
      returns (ghost views2: map<MCMGraph, State>)
      requires Holding(root)
      requires Tracked(views, root) && currentState in views && views[currentState] == cur && Keyed(pq.heap, views)
      requires |nextStates| == |cur.free| == |branched| && Tracked(children, root)
      requires forall i :: 0 <= i < |nextStates| ==>
        && nextStates[i] in children && |children[nextStates[i]].free| < |cur.free|
        && branched[i] in cur.free && children[nextStates[i]] == Child(cur, branched[i])
      requires Within(cur, M) && nextStates != [] ==> 0 <= w < |nextStates|
      requires 0 <= w < |nextStates| ==> Within(children[nextStates[w]], M)
      modifies pq, this`globalBest, this`globalBestState
      ensures Appended(pq.heap, old(pq.heap), views2, cur, branched)
      ensures cur.free == {} ==>
        Offered(globalBest, globalBestState, old(globalBest), old(globalBestState), RawScore(cur), currentState)
      ensures cur.free != {} ==> globalBest == old(globalBest) && globalBestState == old(globalBestState)
      ensures Holding(root) && Tracked(views2, root) && Keyed(pq.heap, views2)
      ensures old(Reached(M)) || Within(cur, M) || Holds(old(pq.heap), views, M) ==>
        Reached(M) || Holds(pq.heap, views2, M)
      ensures Work(pq.heap, views2) < Work(old(pq.heap), views) + Bound(|cur.free|)
    {
      if |nextStates| == 0 {
        // A leaf: there are no children to queue.
        RecordLeaf(currentState, cur, root, M, views);
        views2 := views;
        NothingAppended(pq.heap, views, cur);
      } else {
        views2 := PushChildren(pq, nextStates, children, |cur.free|, w, root, M, views);
        ChildrenAppended(pq.heap, old(pq.heap), views2, cur, branched, nextStates, children);
      }
    }

    /** Best-first search from the original state. Returns a leaf whose included
        edges form a largest matching among the completions of the original state:
        a maximum matching of the graph when the search starts from the root. */
    method FindBest() returns (best: MCMGraph?)
      requires Valid()
      modifies this`globalBest, this`globalBestState
      ensures Valid() && best == globalBestState && best != null
      ensures best.freeEdges == {} && Completion(originalState.View(), best.includedEdges)
      ensures forall M :: Completion(originalState.View(), M) ==> |M| <= |best.includedEdges|
      ensures originalState.View() == Root(originalState.edges) ==>
        IsMaximumMatching(best.includedEdges, originalState.edges)
    {
      ghost var root := originalState.View();
      ghost var M := LargestExists(root);
      ghost var start := map[originalState := root];
      assert Known(originalState, root, root);
      assert Aim(root, M);
      Search(root, M, start);
      best := globalBestState;
      IncumbentLargest(best, root, M, globalBest.value);
      if root == Root(originalState.edges) {
        LargestAtRoot(originalState.edges, best.includedEdges);
      }
    }

    /** The search loop: runs passes until the queue is empty, at which point the
        incumbent is as large as `M`. */
    method Search(ghost root: State, ghost M: set<Edge>, ghost start: map<MCMGraph, State>)
      requires Holding(root) && Aim(root, M)
      requires Tracked(start, root) && originalState in start && start[originalState] == root
      modifies this`globalBest, this`globalBestState
      ensures Holding(root) && Reached(M)
    {
      var pq := new MaxPriorityQueue<MCMGraph>();
      assert Largest(root, M);  // the fact `Aim(root, M)` holds back
      ghost var views := Enqueue(pq, originalState, root, root, M, map[], start);
      while !pq.Empty()
        modifies pq, this`globalBest, this`globalBestState
        invariant Holding(root)
        invariant Tracked(views, root) && Keyed(pq.heap, views)
        invariant Reached(M) || Holds(pq.heap, views, M)
        decreases Work(pq.heap, views)
      {
        var pruned;
        ghost var k, cur, branched;
        views, pruned, k, cur, branched := Step(pq, root, M, views);
      }
    }
  }
}
