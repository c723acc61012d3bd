/**
 * Paths in a weighted directed graph, and the facts both shortest-path
 * searches of the system rely on to stop: they relax an edge only on a strict
 * improvement, never bound the number of iterations, and re-insert a node
 * into their queue each time its distance improves.
 *
 * Each reached node keeps a ghost witness path whose cost is its current
 * distance. With non-negative weights every witness is a simple path, so the
 * set of simple paths that would still improve a distance is finite and
 * shrinks on every relaxation; together with the queue length this bounds
 * the search. A second invariant ranks nodes by (distance, time of last
 * update) so that following predecessor links strictly descends and ends at
 * the start node.
 */
module Paths {
  import opened Common

  /** An edge `to` of weight `w`, stored in the adjacency list of its source. */
  datatype Arc<K> = Arc(to: K, w: real)

  type Graph<K> = map<K, seq<Arc<K>>>

  /** One step of a path: the node it leaves and the edge it takes. */
  datatype Step<K> = Step(from: K, arc: Arc<K>)

  predicate NonNegative<K>(g: Graph<K>) {
    forall u, i :: u in g && 0 <= i < |g[u]| ==> g[u][i].w >= 0.0
  }

  ghost predicate IsStep<K>(g: Graph<K>, s: Step<K>) {
    s.from in g && s.arc in g[s.from]
  }

  ghost function Steps<K>(g: Graph<K>): set<Step<K>> {
    set u, a | u in g && a in g[u] :: Step(u, a)
  }

  /** The total weight of a path, summed left to right. */
  function Cost<K>(p: seq<Step<K>>): real {
    if p == [] then 0.0 else Cost(p[..|p| - 1]) + p[|p| - 1].arc.w
  }

  /** The `i`-th node visited by `p` when it leaves `start`. */
  function NodeAt<K>(start: K, p: seq<Step<K>>, i: nat): K
    requires i <= |p|
  {
    if i == 0 then start else p[i - 1].arc.to
  }

  function End<K>(start: K, p: seq<Step<K>>): K {
    NodeAt(start, p, |p|)
  }

  /** `p` is a path of `g` leaving `start`: each step leaves where the previous one arrived. */
  ghost predicate IsPath<K>(g: Graph<K>, start: K, p: seq<Step<K>>) {
    forall i :: 0 <= i < |p| ==> p[i].from == NodeAt(start, p, i) && IsStep(g, p[i])
  }

  /** No node is visited twice: each node differs from every node visited before it. */
  ghost predicate Simple<K>(start: K, p: seq<Step<K>>)
    decreases |p|
  {
    p == [] || (Simple(start, p[..|p| - 1]) && forall i :: 0 <= i < |p| ==> NodeAt(start, p, i) != End(start, p))
  }

  lemma {:induction false} SimpleDistinct<K>(start: K, p: seq<Step<K>>)
    requires Simple(start, p)
    ensures forall i, j :: 0 <= i < j <= |p| ==> NodeAt(start, p, i) != NodeAt(start, p, j)
    decreases |p|
  {
    if p != [] {
      var init := p[..|p| - 1];
      SimpleDistinct(start, init);
      forall i, j | 0 <= i < j <= |p| ensures NodeAt(start, p, i) != NodeAt(start, p, j) {
        if j < |p| {
          assert NodeAt(start, p, i) == NodeAt(start, init, i);
          assert NodeAt(start, p, j) == NodeAt(start, init, j);
        }
      }
    }
  }

  /** Every sequence of pairwise different elements of `s`. */
  ghost function DistinctSeqs<T>(s: set<T>): set<seq<T>>
    decreases s
  {
    {[]} + (set x, p | x in s && p in DistinctSeqs(s - {x}) :: [x] + p)
  }

  lemma {:induction false} DistinctSeqsComplete<T>(s: set<T>, p: seq<T>)
    requires forall i :: 0 <= i < |p| ==> p[i] in s
    requires forall i, j :: 0 <= i < j < |p| ==> p[i] != p[j]
    ensures p in DistinctSeqs(s)
    decreases |p|
  {
    if p != [] {
      var x, rest := p[0], p[1..];
      forall i | 0 <= i < |rest| ensures rest[i] in s - {x} {
        assert rest[i] == p[i + 1];
      }
      DistinctSeqsComplete(s - {x}, rest);
      assert p == [x] + rest;
    }
  }

  /** A simple path of `g` is one of the finitely many distinct-step sequences over `g`'s steps. */
  lemma {:induction false} SimplePathIsDistinct<K>(g: Graph<K>, start: K, p: seq<Step<K>>)
    requires IsPath(g, start, p) && Simple(start, p)
    ensures p in DistinctSeqs(Steps(g))
  {
    forall i | 0 <= i < |p| ensures p[i] in Steps(g) {
      assert IsStep(g, p[i]);
    }
    SimpleDistinct(start, p);
    forall i, j | 0 <= i < j < |p| ensures p[i] != p[j] {
      assert NodeAt(start, p, i + 1) != NodeAt(start, p, j + 1);
    }
    DistinctSeqsComplete(Steps(g), p);
  }

  /** A non-empty path is a shorter path followed by one step leaving its end. */
  lemma {:induction false} PathInit<K>(g: Graph<K>, start: K, p: seq<Step<K>>)
    requires IsPath(g, start, p) && p != []
    ensures IsPath(g, start, p[..|p| - 1]) && IsStep(g, p[|p| - 1])
    ensures p[|p| - 1].from == End(start, p[..|p| - 1]) && End(start, p) == p[|p| - 1].arc.to
  {
    var init := p[..|p| - 1];
    forall j | 0 <= j < |init| ensures init[j].from == NodeAt(start, init, j) && IsStep(g, init[j]) {
      assert init[j] == p[j];
      assert NodeAt(start, init, j) == NodeAt(start, p, j);
    }
    assert NodeAt(start, init, |init|) == NodeAt(start, p, |init|);
  }

  lemma {:induction false} CostOfPrefix<K>(g: Graph<K>, start: K, p: seq<Step<K>>, i: nat)
    requires NonNegative(g) && IsPath(g, start, p) && i <= |p|
    ensures Cost(p[..i]) <= Cost(p)
    decreases |p|
  {
    if i < |p| {
      var init := p[..|p| - 1];
      assert IsStep(g, p[|p| - 1]);
      var k :| 0 <= k < |g[p[|p| - 1].from]| && g[p[|p| - 1].from][k] == p[|p| - 1].arc;
      assert IsPath(g, start, init) by {
        forall j | 0 <= j < |init| ensures init[j].from == NodeAt(start, init, j) && IsStep(g, init[j]) {
          assert init[j] == p[j];
          assert NodeAt(start, init, j) == NodeAt(start, p, j);
        }
      }
      assert init[..i] == p[..i];
      CostOfPrefix(g, start, init, i);
    } else {
      assert p[..i] == p;
    }
  }

  // ------------------------------------------------ the search invariant

  /** Some simple path to `v` would make its distance strictly smaller. */
  predicate Improves<K>(dist: map<K, ExtReal>, v: K, c: real) {
    v in dist && Fin(c).Less(dist[v])
  }

  /** The simple paths from `start` that would still improve a distance: finite, and the search's measure. */
  ghost function Improvable<K>(g: Graph<K>, start: K, dist: map<K, ExtReal>): set<seq<Step<K>>> {
    set p | p in DistinctSeqs(Steps(g)) && IsPath(g, start, p) && Simple(start, p) && Improves(dist, End(start, p), Cost(p))
  }

  /** No node on `p` has a distance above the cost of reaching it along `p`. */
  ghost predicate Bounded<K>(start: K, dist: map<K, ExtReal>, p: seq<Step<K>>) {
    forall i :: 0 <= i <= |p| ==> NodeAt(start, p, i) in dist && dist[NodeAt(start, p, i)].AtMost(Fin(Cost(p[..i])))
  }

  /** `x` has a predecessor and ranks below `y` by (distance, time of its last update). */
  ghost predicate RankBelow<K>(dist: map<K, ExtReal>, prev: map<K, K>, setAt: map<K, nat>, x: K, y: K) {
    x in prev && y in prev && x in dist && y in dist && x in setAt && y in setAt && dist[x].Fin? && dist[y].Fin?
    && (dist[x].r < dist[y].r || (dist[x].r == dist[y].r && setAt[x] < setAt[y]))
  }

  /** A witness path for every reached node: simple, ending there, costing its distance. */
  ghost predicate Witnessed<K>(g: Graph<K>, start: K, dist: map<K, ExtReal>, w: map<K, seq<Step<K>>>) {
    && (forall v :: v in dist && dist[v].Fin? ==> v in w)
    && forall v {:trigger w[v]} :: v in w && v in dist && dist[v].Fin? ==>
      IsPath(g, start, w[v]) && Simple(start, w[v]) && End(start, w[v]) == v
      && Cost(w[v]) == dist[v].r && Bounded(start, dist, w[v])
  }

  /** Every predecessor link descends in rank, or reaches the start. */
  ghost predicate Ranked<K>(start: K, dist: map<K, ExtReal>, prev: map<K, K>, setAt: map<K, nat>) {
    forall v :: v in prev ==>
      v in setAt && v in dist && dist[v].Fin? && prev[v] in dist && dist[prev[v]].Fin?
      && (prev[v] == start || RankBelow(dist, prev, setAt, prev[v], v))
  }

  // The invariant of a search from `start` over a graph with non-negative
  // weights is the conjunction of `Rooted`, `Witnessed`, `Clocked` and
  // `Ranked` below, kept as separate loop invariants by the searches.

  /** The start sits at distance 0 with no predecessor; every other reached node has one. */
  ghost predicate Rooted<K>(start: K, dist: map<K, ExtReal>, prev: map<K, K>) {
    && start in dist && dist[start] == Fin(0.0) && start !in prev
    && (forall v :: v in dist && dist[v].Fin? ==> v == start || v in prev)
  }

  /** Every recorded update time lies before `clock`. */
  ghost predicate Clocked<K>(setAt: map<K, nat>, clock: nat) {
    forall v :: v in setAt ==> setAt[v] < clock
  }

  lemma {:induction false} NonNegativeCost<K>(g: Graph<K>, start: K, p: seq<Step<K>>)
    requires NonNegative(g) && IsPath(g, start, p)
    ensures Cost(p) >= 0.0
  {
    CostOfPrefix(g, start, p, 0);
    assert p[..0] == [];
  }

  /** Every reached distance is non-negative. */
  lemma {:induction false} ReachedNonNegative<K>(g: Graph<K>, start: K, dist: map<K, ExtReal>, w: map<K, seq<Step<K>>>, v: K)
    requires NonNegative(g) && Witnessed(g, start, dist, w)
    requires v in dist && dist[v].Fin?
    ensures dist[v].r >= 0.0
  {
    NonNegativeCost(g, start, w[v]);
  }

  /** The state right after initialisation: every listed node unreached, the start at 0. */
  lemma {:induction false} InitInv<K>(g: Graph<K>, start: K, dist: map<K, ExtReal>)
    requires start in dist && dist[start] == Fin(0.0)
    requires forall k :: k in dist && k != start ==> dist[k] == Inf
    ensures Rooted(start, dist, map[]) && Witnessed(g, start, dist, map[start := []])
    ensures Clocked<K>(map[], 0) && Ranked(start, dist, map[], map[])
  {
    var p: seq<Step<K>> := [];
    assert p[..0] == [];
    assert Bounded(start, dist, p);
  }

  /** `dist'` is `dist` with some distances lowered. */
  ghost predicate Lowered<K>(dist': map<K, ExtReal>, dist: map<K, ExtReal>) {
    dist'.Keys == dist.Keys && forall x :: x in dist ==> dist'[x].AtMost(dist[x])
  }

  lemma {:induction false} BoundedLowered<K>(start: K, dist: map<K, ExtReal>, dist': map<K, ExtReal>, p: seq<Step<K>>)
    requires Bounded(start, dist, p) && Lowered(dist', dist)
    ensures Bounded(start, dist', p)
  {
    forall i | 0 <= i <= |p| ensures dist'[NodeAt(start, p, i)].AtMost(Fin(Cost(p[..i]))) {
      var x := NodeAt(start, p, i);
      assert dist[x].AtMost(Fin(Cost(p[..i])));
      LessIsStrictOrder(Fin(Cost(p[..i])), dist[x], dist'[x]);
    }
  }

  /** Appending a step that leaves the end of a path gives a path visiting the same nodes first. */
  lemma {:induction false} ExtendPath<K>(g: Graph<K>, start: K, p: seq<Step<K>>, a: Arc<K>)
    requires IsPath(g, start, p) && End(start, p) in g && a in g[End(start, p)]
    ensures var q := p + [Step(End(start, p), a)];
            IsPath(g, start, q) && End(start, q) == a.to && q[..|p|] == p
            && (forall i :: 0 <= i <= |p| ==> NodeAt(start, q, i) == NodeAt(start, p, i))
  {
    var q := p + [Step(End(start, p), a)];
    forall i | 0 <= i <= |p| ensures NodeAt(start, q, i) == NodeAt(start, p, i) {
    }
    forall i | 0 <= i < |q| ensures q[i].from == NodeAt(start, q, i) && IsStep(g, q[i]) {
      if i < |p| {
        assert q[i] == p[i];
      }
    }
    assert q[..|p|] == p;
  }

  /** A node whose distance the extension improves is not already on the bounded path. */
  lemma {:induction false} NotOnPath<K>(g: Graph<K>, start: K, dist: map<K, ExtReal>, p: seq<Step<K>>, v: K, alt: real)
    requires NonNegative(g) && IsPath(g, start, p) && Bounded(start, dist, p)
    requires Cost(p) <= alt && Improves(dist, v, alt)
    ensures forall i :: 0 <= i <= |p| ==> NodeAt(start, p, i) != v
  {
    forall i | 0 <= i <= |p| ensures NodeAt(start, p, i) != v {
      var x := NodeAt(start, p, i);
      CostOfPrefix(g, start, p, i);
      assert dist[x].AtMost(Fin(Cost(p[..i])));
    }
  }

  lemma {:induction false} ExtendSimple<K>(g: Graph<K>, start: K, p: seq<Step<K>>, a: Arc<K>, q: seq<Step<K>>)
    requires IsPath(g, start, p) && Simple(start, p) && End(start, p) in g && a in g[End(start, p)]
    requires forall i :: 0 <= i <= |p| ==> NodeAt(start, p, i) != a.to
    requires q == p + [Step(End(start, p), a)]
    ensures IsPath(g, start, q) && Simple(start, q) && End(start, q) == a.to
  {
    ExtendPath(g, start, p, a);
    assert q[..|q| - 1] == p;
  }

  lemma {:induction false} ExtendBounded<K>(g: Graph<K>, start: K, dist: map<K, ExtReal>, p: seq<Step<K>>, a: Arc<K>, q: seq<Step<K>>, alt: real)
    requires IsPath(g, start, p) && Bounded(start, dist, p)
    requires a.to in dist && forall i :: 0 <= i <= |p| ==> NodeAt(start, p, i) != a.to
    requires q == p + [Step(End(start, p), a)] && alt == Cost(p) + a.w
    ensures Cost(q) == alt && Bounded(start, dist[a.to := Fin(alt)], q)
  {
    var dist' := dist[a.to := Fin(alt)];
    assert q[..|q| - 1] == p;
    assert Cost(q) == alt;
    forall i | 0 <= i <= |q| ensures NodeAt(start, q, i) in dist' && dist'[NodeAt(start, q, i)].AtMost(Fin(Cost(q[..i]))) {
      if i == |q| {
        assert q[..i] == q;
      } else {
        assert q[..i] == p[..i];
        assert NodeAt(start, q, i) == NodeAt(start, p, i);
      }
    }
  }

  /** The witness of `u` extended by the relaxed edge is a simple path, bounded by the new distances. */
  lemma {:induction false} RelaxWitness<K>(g: Graph<K>, start: K, dist: map<K, ExtReal>, p: seq<Step<K>>, a: Arc<K>,
                                           q: seq<Step<K>>, alt: real)
    requires NonNegative(g) && IsPath(g, start, p) && Simple(start, p) && Bounded(start, dist, p)
    requires End(start, p) in g && a in g[End(start, p)]
    requires q == p + [Step(End(start, p), a)] && alt == Cost(p) + a.w && Improves(dist, a.to, alt)
    ensures IsPath(g, start, q) && Simple(start, q) && End(start, q) == a.to
    ensures Cost(q) == alt && Bounded(start, dist[a.to := Fin(alt)], q)
  {
    var u := End(start, p);
    var k :| 0 <= k < |g[u]| && g[u][k] == a;
    assert a.w >= 0.0;
    NotOnPath(g, start, dist, p, a.to, alt);
    ExtendSimple(g, start, p, a, q);
    ExtendBounded(g, start, dist, p, a, q, alt);
  }

  /** Relaxation keeps the predecessor links ranked: the new link's time is the newest. */
  lemma {:induction false} RelaxRanked<K>(start: K, dist: map<K, ExtReal>, prev: map<K, K>, setAt: map<K, nat>, clock: nat,
                       u: K, v: K, alt: real)
    requires Ranked(start, dist, prev, setAt) && Clocked(setAt, clock)
    requires u in dist && dist[u].Fin? && dist[u].r <= alt && (u == start || u in prev)
    requires u != v && v != start && Improves(dist, v, alt)
    ensures Ranked(start, dist[v := Fin(alt)], prev[v := u], setAt[v := clock])
  {
    var dist' := dist[v := Fin(alt)];
    var prev' := prev[v := u];
    var setAt' := setAt[v := clock];
    forall x | x in prev'
      ensures x in setAt' && x in dist' && dist'[x].Fin? && prev'[x] in dist' && dist'[prev'[x]].Fin?
      ensures prev'[x] == start || RankBelow(dist', prev', setAt', prev'[x], x)
    {
      if x == v {
      } else if prev[x] == v {
        assert RankBelow(dist, prev, setAt, v, x);
      } else if prev[x] != start {
        assert RankBelow(dist, prev, setAt, prev[x], x);
      }
    }
  }

  /** The improvable set only loses paths when one distance is lowered to the cost of a path in it. */
  lemma {:induction false} ImprovableShrinks<K>(g: Graph<K>, start: K, dist: map<K, ExtReal>, q: seq<Step<K>>, v: K, alt: real)
    requires IsPath(g, start, q) && Simple(start, q) && End(start, q) == v && Cost(q) == alt && Improves(dist, v, alt)
    ensures Improvable(g, start, dist[v := Fin(alt)]) < Improvable(g, start, dist)
  {
    var dist' := dist[v := Fin(alt)];
    SimplePathIsDistinct(g, start, q);
    assert q in Improvable(g, start, dist);
    assert q !in Improvable(g, start, dist');
    forall r | r in Improvable(g, start, dist') ensures r in Improvable(g, start, dist) {
      var e := End(start, r);
      LessIsStrictOrder(Fin(Cost(r)), dist'[e], dist[e]);
    }
  }

  /** Lowering the distance of `v` to the cost of a new witness `q` keeps every reached node witnessed. */
  lemma {:induction false} WitnessedUpdate<K>(g: Graph<K>, start: K, dist: map<K, ExtReal>, w: map<K, seq<Step<K>>>, v: K, q: seq<Step<K>>, alt: real)
    requires Witnessed(g, start, dist, w) && Improves(dist, v, alt)
    requires IsPath(g, start, q) && Simple(start, q) && End(start, q) == v && Cost(q) == alt
    requires Bounded(start, dist[v := Fin(alt)], q)
    ensures Witnessed(g, start, dist[v := Fin(alt)], w[v := q])
  {
    var dist', w' := dist[v := Fin(alt)], w[v := q];
    assert Lowered(dist', dist);
    forall x | x in w' && x in dist' && dist'[x].Fin?
      ensures IsPath(g, start, w'[x]) && Simple(start, w'[x]) && End(start, w'[x]) == x
      ensures Cost(w'[x]) == dist'[x].r && Bounded(start, dist', w'[x])
    {
      if x != v {
        BoundedLowered(start, dist, dist', w[x]);
      }
    }
  }

  /** Relaxing keeps every reached node witnessed. */
  lemma {:induction false} RelaxWitnessed<K>(g: Graph<K>, start: K, dist: map<K, ExtReal>, w: map<K, seq<Step<K>>>,
                                             u: K, a: Arc<K>, q: seq<Step<K>>, alt: real)
    requires NonNegative(g) && Witnessed(g, start, dist, w)
    requires u in g && a in g[u] && u in dist && dist[u].Fin?
    requires q == w[u] + [Step(u, a)] && alt == dist[u].r + a.w && Improves(dist, a.to, alt)
    ensures Witnessed(g, start, dist[a.to := Fin(alt)], w[a.to := q])
    ensures IsPath(g, start, q) && Simple(start, q) && End(start, q) == a.to && Cost(q) == alt
  {
    RelaxWitness(g, start, dist, w[u], a, q, alt);
    WitnessedUpdate(g, start, dist, w, a.to, q, alt);
  }

  lemma {:induction false} RelaxRooted<K>(start: K, dist: map<K, ExtReal>, prev: map<K, K>, u: K, v: K, alt: real)
    requires Rooted(start, dist, prev) && v != start
    ensures Rooted(start, dist[v := Fin(alt)], prev[v := u])
  {
  }

  /**
   * Relaxing the edge `u -> a.to` on a strict improvement keeps every part of
   * the search invariant; the new witness `q` of `a.to` is what
   * `ImprovableShrinks` needs to show the search progressed.
   */
  lemma {:induction false} Relax<K>(g: Graph<K>, start: K, dist: map<K, ExtReal>, prev: map<K, K>,
                 setAt: map<K, nat>, clock: nat, w: map<K, seq<Step<K>>>, u: K, a: Arc<K>, v: K, alt: real, q: seq<Step<K>>)
    requires NonNegative(g) && Rooted(start, dist, prev) && Witnessed(g, start, dist, w)
    requires Clocked(setAt, clock) && Ranked(start, dist, prev, setAt)
    requires u in g && a in g[u] && u in dist && dist[u].Fin?
    requires v == a.to && alt == dist[u].r + a.w && q == w[u] + [Step(u, a)] && Improves(dist, v, alt)
    ensures Rooted(start, dist[v := Fin(alt)], prev[v := u])
    ensures Witnessed(g, start, dist[v := Fin(alt)], w[v := q])
    ensures Clocked(setAt[v := clock], clock + 1)
    ensures Ranked(start, dist[v := Fin(alt)], prev[v := u], setAt[v := clock])
    ensures IsPath(g, start, q) && Simple(start, q) && End(start, q) == v && Cost(q) == alt
  {
    ReachedNonNegative(g, start, dist, w, u);
    RelaxWitnessed(g, start, dist, w, u, a, q, alt);
    RelaxRanked(start, dist, prev, setAt, clock, u, v, alt);
    RelaxRooted(start, dist, prev, u, v, alt);
  }

  // ------------------------------------------ following predecessor links

  /** The nodes with a predecessor that rank at or below `k`. */
  ghost function Chain<K>(dist: map<K, ExtReal>, prev: map<K, K>, setAt: map<K, nat>, k: K): set<K> {
    if k in prev then (set x | x in prev && RankBelow(dist, prev, setAt, x, k)) + {k} else {}
  }

  /** Stepping to the predecessor strictly shrinks the chain: path reconstruction terminates. */
  lemma {:induction false} ChainShrinks<K>(start: K, dist: map<K, ExtReal>, prev: map<K, K>, setAt: map<K, nat>, k: K)
    requires Ranked(start, dist, prev, setAt) && start !in prev
    requires k in prev
    ensures Chain(dist, prev, setAt, prev[k]) < Chain(dist, prev, setAt, k)
    ensures prev[k] == start || prev[k] in prev
  {
    var j := prev[k];
    if j in prev {
      assert RankBelow(dist, prev, setAt, j, k);
      forall x | x in Chain(dist, prev, setAt, j) ensures x in Chain(dist, prev, setAt, k) {
        if x != j {
          assert RankBelow(dist, prev, setAt, x, j);
        }
      }
      assert !RankBelow(dist, prev, setAt, k, j);
      assert k !in Chain(dist, prev, setAt, j);
    }
  }
}
