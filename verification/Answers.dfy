/** What a correct answer to each search is, in terms of walks alone, and how the answers relate. */
module Answers {
  import opened Wrappers
  import opened GraphModel
  import opened Walks
  import opened GraphState

  /** A shortest path of at most `maxDepth` hops, or the news that there is none. */
  ghost predicate PathAnswer(es: seq<Edge>, s: Id, t: Id, maxDepth: int, r: Option<seq<Id>>) {
    match r
    case Some(path) =>
      && Walk(es, s, t, path)
      && |path| - 1 <= Max(0, maxDepth)
      && AtDistance(es, s, t, |path| - 1)
    case None => !Within(es, s, t, Max(0, maxDepth))
  }

  /** How often an edge with this multiplicity in the store is collected: once per distinct endpoint
      nearer than `depth`, so a self-loop once. */
  ghost function Collected(es: seq<Edge>, s: Id, depth: int, e: Edge): nat {
    (if Within(es, s, e.source, depth - 1) then multiset(es)[e] else 0)
    + (if e.target != e.source && Within(es, s, e.target, depth - 1) then multiset(es)[e] else 0)
  }

  /** The ball of radius `depth` around `s`. */
  ghost predicate NeighborAnswer(g: Graph, s: Id, depth: int, r: SubGraph) {
    && Distinct(EntityId, r.entities)
    && (forall e :: e in r.entities <==> e in g.entities && Within(g.edges, s, e.id, Max(0, depth)))
    && (forall e :: multiset(r.edges)[e] == Collected(g.edges, s, depth, e))
  }

  /** `e` is collected from at least one endpoint. */
  ghost predicate Collects(es: seq<Edge>, s: Id, depth: int, e: Edge) {
    e in es && (Within(es, s, e.source, depth - 1) || Within(es, s, e.target, depth - 1))
  }

  /** The union of the balls around the seeds, which mentions the seeds only as a set. */
  ghost predicate SubgraphAnswer(g: Graph, seeds: set<Id>, depth: int, r: SubGraph) {
    && Distinct(EntityId, r.entities)
    && Distinct(EdgeId, r.edges)
    && (forall e :: e in r.entities <==>
          e in g.entities && exists s :: s in seeds && Within(g.edges, s, e.id, Max(0, depth)))
    && (forall e :: e in r.edges <==> exists s :: s in seeds && Collects(g.edges, s, depth, e))
  }

  /** A path answer repeats no id. */
  lemma PathIsSimple(es: seq<Edge>, s: Id, t: Id, maxDepth: int, path: seq<Id>)
    requires PathAnswer(es, s, t, maxDepth, Some(path))
    ensures forall i, j :: 0 <= i < j < |path| ==> path[i] != path[j]
  {
    forall i, j | 0 <= i < j < |path| ensures path[i] != path[j] {
      if path[i] == path[j] {
        WalkSplice(es, s, t, path, i, j);
      }
    }
  }

  /** A list comes back exactly when the target is near enough, and its length is then fixed. */
  lemma PathAnswerExact(es: seq<Edge>, s: Id, t: Id, maxDepth: int, r: Option<seq<Id>>, n: int)
    requires PathAnswer(es, s, t, maxDepth, r)
    ensures r.Some? <==> Within(es, s, t, Max(0, maxDepth))
    ensures r.Some? && AtDistance(es, s, t, n) ==> |r.value| == n + 1
  {
    if r.Some? {
      var d := |r.value| - 1;
      if AtDistance(es, s, t, n) && n < d {
        WithinMonotone(es, s, t, n, d - 1);
      }
    }
  }

  /** Raising the limit never changes the length of a path already found. */
  lemma PathAnswerMonotone(es: seq<Edge>, s: Id, t: Id, k: int, k': int, r: Option<seq<Id>>, r': Option<seq<Id>>)
    requires k <= k' && PathAnswer(es, s, t, k, r) && PathAnswer(es, s, t, k', r')
    ensures r.Some? ==> r'.Some? && |r'.value| == |r.value|
  {
    if r.Some? {
      assert r'.Some? by {
        assert Walk(es, s, t, r.value) && |r.value| - 1 <= Max(0, k');
      }
      PathAnswerExact(es, s, t, k', r', |r.value| - 1);
    }
  }

  /** Searching from the other end finds a path of the same length. */
  lemma PathAnswerSymmetric(es: seq<Edge>, s: Id, t: Id, k: int, r: Option<seq<Id>>, r': Option<seq<Id>>)
    requires PathAnswer(es, s, t, k, r) && PathAnswer(es, t, s, k, r')
    ensures r.Some? <==> r'.Some?
    ensures r.Some? ==> |r.value| == |r'.value|
  {
    WithinSymmetric(es, s, t, Max(0, k));
    if r.Some? {
      var n := |r.value| - 1;
      WithinSymmetric(es, s, t, n);
      WithinSymmetric(es, s, t, n - 1);
      PathAnswerExact(es, t, s, k, r', n);
    }
  }

  /** Every edge of a found path is collected by the ball of the same radius. */
  lemma PathInsideBall(g: Graph, s: Id, t: Id, k: int, path: seq<Id>, ball: SubGraph, i: int)
    requires PathAnswer(g.edges, s, t, k, Some(path)) && NeighborAnswer(g, s, k, ball)
    requires 1 <= i < |path|
    ensures exists e :: e in ball.edges && Joins(e, path[i - 1], path[i])
  {
    assert Adjacent(g.edges, path[i - 1], path[i]);
    var e :| e in g.edges && Joins(e, path[i - 1], path[i]);
    var prefix := path[..i];
    assert Walk(g.edges, s, path[i - 1], prefix) && |prefix| - 1 <= k - 1;
    assert Within(g.edges, s, path[i - 1], k - 1);
    assert multiset(ball.edges)[e] == Collected(g.edges, s, k, e) > 0;
    assert e in ball.edges;
  }

  /** The two searches agree on every id, stored or not: a path to `t` is found exactly when `t` is the centre
      or an end of an edge of the ball, and, for a stored entity, exactly when the ball holds it. */
  lemma SearchesAgree(g: Graph, s: Id, t: Id, k: int, path: Option<seq<Id>>, ball: SubGraph)
    requires PathAnswer(g.edges, s, t, k, path) && NeighborAnswer(g, s, k, ball)
    ensures path.Some? <==> t == s || exists e :: e in ball.edges && Touches(e, t)
    ensures forall e :: e in g.entities && e.id == t ==> (path.Some? <==> e in ball.entities)
  {
    PathAnswerExact(g.edges, s, t, k, path, 0);
    WalkToSelf(g.edges, s);
    if t == s { WithinMonotone(g.edges, s, s, 0, Max(0, k)); }
    if path.Some? && t != s {
      PathInsideBall(g, s, t, k, path.value, ball, |path.value| - 1);
    }
    forall e | e in ball.edges && Touches(e, t) ensures Within(g.edges, s, t, Max(0, k)) {
      assert Collected(g.edges, s, k, e) > 0;
      BallEdgeEndsWithin(g.edges, s, t, k, e);
    }
  }

  /** Both ends of a collected edge are within the radius. */
  lemma BallEdgeEndsWithin(es: seq<Edge>, s: Id, t: Id, k: int, e: Edge)
    requires Collected(es, s, k, e) > 0 && Touches(e, t)
    ensures Within(es, s, t, Max(0, k))
  {
    var near := if Within(es, s, e.source, k - 1) then e.source else e.target;
    var far := if near == e.source then e.target else e.source;
    assert e in es && Joins(e, near, far);
    WithinStep(es, s, near, far, k - 1);
    WithinMonotone(es, s, near, k - 1, Max(0, k));
    WithinMonotone(es, s, far, k, Max(0, k));
  }

  /** A ball is not the induced subgraph on its ids: an edge between two of them is collected exactly when
      one of its ends is nearer than the radius, so an edge along the rim is not. */
  lemma InsideEdgeCollectedIff(g: Graph, s: Id, depth: int, ball: SubGraph, e: Edge)
    requires NeighborAnswer(g, s, depth, ball) && e in g.edges
    requires Within(g.edges, s, e.source, Max(0, depth)) && Within(g.edges, s, e.target, Max(0, depth))
    ensures e in ball.edges <==>
      !(AtDistance(g.edges, s, e.source, Max(0, depth)) && AtDistance(g.edges, s, e.target, Max(0, depth)))
  {
    assert e in ball.edges <==> Collected(g.edges, s, depth, e) > 0;
    NothingBeforeStart(g.edges, s, e.source);
    NothingBeforeStart(g.edges, s, e.target);
    if depth < 0 {
      forall t, k | k < 0 ensures !Within(g.edges, s, t, k) { NothingNegative(g.edges, s, t, k); }
    }
  }

  lemma NothingNegative(es: seq<Edge>, s: Id, t: Id, k: int)
    requires k < 0
    ensures !Within(es, s, t, k)
  {
  }

  lemma NothingBeforeStart(es: seq<Edge>, s: Id, t: Id)
    ensures !Within(es, s, t, -1)
  {
    NothingNegative(es, s, t, -1);
  }

  /** The smallest case: in a triangle, the side opposite the centre is missing from the ball of radius 1
      although both its ends are in it. */
  lemma TriangleLosesASide(g: Graph, s: Id, a: Id, b: Id, e1: Edge, e2: Edge, e3: Edge, ball: SubGraph)
    requires s != a && s != b && a != b && g.edges == [e1, e2, e3]
    requires Joins(e1, s, a) && Joins(e2, s, b) && Joins(e3, a, b)
    requires NeighborAnswer(g, s, 1, ball)
    ensures e3 in g.edges && e3 !in ball.edges && e1 in ball.edges && e2 in ball.edges
    ensures forall e :: e in g.entities && (e.id == a || e.id == b) ==> e in ball.entities
  {
    var es := g.edges;
    assert e1 in es && e2 in es;
    assert Walk(es, s, a, [s, a]) && Walk(es, s, b, [s, b]);
    WalkToSelf(es, s);
    forall t | t != s ensures !Within(es, s, t, 0) {
      forall p | Walk(es, s, t, p) ensures |p| > 1 {}
    }
    assert Collected(es, s, 1, e1) > 0 && Collected(es, s, 1, e2) > 0 && Collected(es, s, 1, e3) == 0;
    assert multiset(ball.edges)[e3] == 0;
  }

  /** One seed gives that seed's ball. */
  lemma SubgraphOfOneSeed(g: Graph, s: Id, depth: int, r: SubGraph, ball: SubGraph)
    requires SubgraphAnswer(g, {s}, depth, r) && NeighborAnswer(g, s, depth, ball)
    ensures forall e :: e in r.entities <==> e in ball.entities
    ensures forall e :: e in r.edges <==> e in ball.edges
  {
    forall e ensures e in r.edges <==> e in ball.edges {
      assert e in r.edges <==> Collects(g.edges, s, depth, e);
      assert e in ball.edges <==> Collected(g.edges, s, depth, e) > 0;
    }
    assert s in {s};
  }

  /** Two requests with the same seeds, in any order and with any repetition, get the same sets back. */
  lemma SubgraphIgnoresSeedOrder(g: Graph, xs: seq<Id>, ys: seq<Id>, depth: int, r: SubGraph, r': SubGraph)
    requires forall x :: x in xs <==> x in ys
    requires SubgraphAnswer(g, Members(xs), depth, r)
    requires SubgraphAnswer(g, Members(ys), depth, r')
    ensures forall e :: e in r.entities <==> e in r'.entities
    ensures forall e :: e in r.edges <==> e in r'.edges
    ensures |r.entities| == |r'.entities| && |r.edges| == |r'.edges|
  {
    assert Members(xs) == Members(ys);
    SameMembersSameSize(EntityId, r.entities, r'.entities);
    SameMembersSameSize(EdgeId, r.edges, r'.edges);
  }

  lemma {:induction false} DistinctSize<T(!new)>(key: T -> Id, xs: seq<T>)
    requires Distinct(key, xs)
    ensures |Members(xs)| == |xs|
  {
    if xs != [] {
      var init, last := xs[..|xs| - 1], xs[|xs| - 1];
      DistinctSize(key, init);
      var s := Members(init);
      assert last !in s;
      assert Members(xs) == s + {last} by {
        assert xs == init + [last];
      }
    }
  }

  lemma SameMembersSameSize<T(!new)>(key: T -> Id, xs: seq<T>, ys: seq<T>)
    requires Distinct(key, xs) && Distinct(key, ys)
    requires forall x :: x in xs <==> x in ys
    ensures |xs| == |ys|
  {
    DistinctSize(key, xs);
    DistinctSize(key, ys);
    assert Members(xs) == Members(ys);
  }

  /** After `delete_entity(x)` a path search between other ids answers for the walks that avoid `x`:
      the path found avoids `x` and is shortest among those, and none is found only if none avoids it. */
  lemma PathAfterCascade(g: Graph, x: Id, s: Id, t: Id, k: int, r: Option<seq<Id>>)
    requires g.Stores(x) && s != x
    requires PathAnswer(DeleteEntity(g, x).0.edges, s, t, k, r)
    ensures r.Some? ==> Walk(g.edges, s, t, r.value) && x !in r.value && |r.value| - 1 <= Max(0, k)
    ensures r.Some? ==> forall p :: Walk(g.edges, s, t, p) && x !in p ==> |r.value| <= |p|
    ensures r.None? ==> forall p :: Walk(g.edges, s, t, p) && x !in p ==> |p| - 1 > Max(0, k)
  {
    var cut := Without(g.edges, x);
    assert DeleteEntity(g, x).0.edges == cut;
    if r.Some? { WalksAvoiding(g.edges, x, s, t, r.value); }
    forall p | Walk(g.edges, s, t, p) && x !in p
      ensures if r.Some? then |r.value| <= |p| else |p| - 1 > Max(0, k)
    {
      WalksAvoiding(g.edges, x, s, t, p);
      assert Walk(cut, s, t, p);
    }
  }

  ghost predicate WithinAvoiding(es: seq<Edge>, x: Id, s: Id, t: Id, k: int) {
    exists p :: Walk(es, s, t, p) && x !in p && |p| - 1 <= k
  }

  /** After `delete_entity(x)` a ball around another id holds exactly the other entities reachable without
      passing `x`, and none of its edges touches `x`. */
  lemma BallAfterCascade(g: Graph, x: Id, s: Id, depth: int, r: SubGraph)
    requires g.Valid() && g.Stores(x) && s != x
    requires NeighborAnswer(DeleteEntity(g, x).0, s, depth, r)
    ensures forall e :: e in r.entities <==> e in g.entities && WithinAvoiding(g.edges, x, s, e.id, Max(0, depth))
    ensures forall e :: e in r.edges <==> (
      && e in g.edges && !Touches(e, x)
      && (WithinAvoiding(g.edges, x, s, e.source, depth - 1) || WithinAvoiding(g.edges, x, s, e.target, depth - 1)))
  {
    var g' := DeleteEntity(g, x).0;
    CascadeFrame(g, x);
    forall t, k ensures Within(g'.edges, s, t, k) <==> WithinAvoiding(g.edges, x, s, t, k) {
      WithinWithout(g.edges, x, s, t, k);
    }
    forall e ensures e in r.entities <==> e in g.entities && WithinAvoiding(g.edges, x, s, e.id, Max(0, depth)) {
      WalkNeverEndsAt(g.edges, x, s, Max(0, depth));
    }
    forall e ensures e in r.edges <==> (
      && e in g'.edges
      && (WithinAvoiding(g.edges, x, s, e.source, depth - 1) || WithinAvoiding(g.edges, x, s, e.target, depth - 1)))
    {
      assert e in r.edges <==> Collected(g'.edges, s, depth, e) > 0;
    }
  }

  lemma WithinWithout(es: seq<Edge>, x: Id, s: Id, t: Id, k: int)
    requires s != x
    ensures Within(Without(es, x), s, t, k) <==> WithinAvoiding(es, x, s, t, k)
  {
    if Within(Without(es, x), s, t, k) {
      var p :| Walk(Without(es, x), s, t, p) && |p| - 1 <= k;
      WalksAvoiding(es, x, s, t, p);
    }
    if WithinAvoiding(es, x, s, t, k) {
      var p :| Walk(es, s, t, p) && x !in p && |p| - 1 <= k;
      WalksAvoiding(es, x, s, t, p);
    }
  }

  lemma WalkNeverEndsAt(es: seq<Edge>, x: Id, s: Id, k: int)
    ensures !WithinAvoiding(es, x, s, x, k)
  {
    forall p | Walk(es, s, x, p) ensures x in p {
      assert p[|p| - 1] in p;
    }
  }
}
