/** Walks in the undirected reading of the stored edges: the yardstick both searches are measured by.
    Nothing here mentions queues, visited sets or levels. */
module Walks {
  import opened GraphModel

  predicate Joins(e: Edge, u: Id, v: Id) {
    (e.source == u && e.target == v) || (e.source == v && e.target == u)
  }

  ghost predicate Adjacent(es: seq<Edge>, u: Id, v: Id) {
    exists e :: e in es && Joins(e, u, v)
  }

  /** `p` steps from `s` to `t` along stored edges, taken in either direction. */
  ghost predicate Walk(es: seq<Edge>, s: Id, t: Id, p: seq<Id>) {
    && |p| >= 1 && p[0] == s && p[|p| - 1] == t
    && forall i :: 1 <= i < |p| ==> Adjacent(es, p[i - 1], p[i])
  }

  /** `t` is at undirected distance at most `k` from `s`. */
  ghost predicate Within(es: seq<Edge>, s: Id, t: Id, k: int) {
    exists p :: Walk(es, s, t, p) && |p| - 1 <= k
  }

  /** The undirected distance between `s` and `t` is exactly `n`. */
  ghost predicate AtDistance(es: seq<Edge>, s: Id, t: Id, n: int) {
    Within(es, s, t, n) && !Within(es, s, t, n - 1)
  }

  /** Every id a search from `s` can meet. */
  function Vertices(es: seq<Edge>, s: Id): set<Id> {
    {s} + (set e | e in es :: e.source) + (set e | e in es :: e.target)
  }

  lemma WalkToSelf(es: seq<Edge>, s: Id)
    ensures Walk(es, s, s, [s]) && Within(es, s, s, 0)
  {
    assert Walk(es, s, s, [s]);
  }

  lemma WalkStep(es: seq<Edge>, s: Id, u: Id, v: Id, p: seq<Id>)
    requires Walk(es, s, u, p) && Adjacent(es, u, v)
    ensures Walk(es, s, v, p + [v])
  {
  }

  lemma WithinStep(es: seq<Edge>, s: Id, u: Id, v: Id, k: int)
    requires Within(es, s, u, k) && Adjacent(es, u, v)
    ensures Within(es, s, v, k + 1)
  {
    var p :| Walk(es, s, u, p) && |p| - 1 <= k;
    WalkStep(es, s, u, v, p);
  }

  lemma WithinMonotone(es: seq<Edge>, s: Id, t: Id, k: int, k': int)
    requires Within(es, s, t, k) && k <= k'
    ensures Within(es, s, t, k')
  {
    var p :| Walk(es, s, t, p) && |p| - 1 <= k;
    assert Walk(es, s, t, p) && |p| - 1 <= k';
  }

  lemma WalkSplice(es: seq<Edge>, s: Id, t: Id, p: seq<Id>, i: int, j: int)
    requires Walk(es, s, t, p) && 0 <= i < j < |p| && p[i] == p[j]
    ensures Walk(es, s, t, p[..i] + p[j..])
    ensures Within(es, s, t, |p| - 2)
  {
    var q := p[..i] + p[j..];
    forall k | 1 <= k < |q| ensures Adjacent(es, q[k - 1], q[k]) {
      if k == i {
        assert q[k - 1] == p[i - 1] && q[k] == p[i];
      } else if k > i {
        assert q[k - 1] == p[k - 1 - i + j] && q[k] == p[k - i + j];
      }
    }
  }

  lemma AdjacentSymmetric(es: seq<Edge>, u: Id, v: Id)
    requires Adjacent(es, u, v)
    ensures Adjacent(es, v, u)
  {
    var e :| e in es && Joins(e, u, v);
    assert Joins(e, v, u);
  }

  function Reverse(p: seq<Id>): (r: seq<Id>)
    ensures |r| == |p|
    ensures forall i :: 0 <= i < |p| ==> r[i] == p[|p| - 1 - i]
  {
    seq(|p|, i requires 0 <= i < |p| => p[|p| - 1 - i])
  }

  lemma WalkReversed(es: seq<Edge>, s: Id, t: Id, p: seq<Id>)
    requires Walk(es, s, t, p)
    ensures Walk(es, t, s, Reverse(p))
  {
    var r := Reverse(p);
    forall i | 1 <= i < |r| ensures Adjacent(es, r[i - 1], r[i]) {
      AdjacentSymmetric(es, p[|p| - 1 - i], p[|p| - i]);
    }
  }

  /** Distance does not depend on which end the search starts from. */
  lemma WithinSymmetric(es: seq<Edge>, s: Id, t: Id, k: int)
    ensures Within(es, s, t, k) <==> Within(es, t, s, k)
  {
    if Within(es, s, t, k) {
      var p :| Walk(es, s, t, p) && |p| - 1 <= k;
      WalkReversed(es, s, t, p);
    }
    if Within(es, t, s, k) {
      var p :| Walk(es, t, s, p) && |p| - 1 <= k;
      WalkReversed(es, t, s, p);
    }
  }

  /** Removing the edges at `x` removes exactly the walks that pass through `x`. */
  lemma WalksAvoiding(es: seq<Edge>, x: Id, s: Id, t: Id, p: seq<Id>)
    requires s != x
    ensures Walk(Without(es, x), s, t, p) <==> Walk(es, s, t, p) && x !in p
  {
    var cut := Without(es, x);
    if Walk(cut, s, t, p) {
      forall i | 1 <= i < |p| ensures Adjacent(es, p[i - 1], p[i]) && p[i] != x {
        assert Adjacent(cut, p[i - 1], p[i]);
        var e :| e in cut && Joins(e, p[i - 1], p[i]);
      }
    }
    if Walk(es, s, t, p) && x !in p {
      forall i | 1 <= i < |p| ensures Adjacent(cut, p[i - 1], p[i]) {
        var e :| e in es && Joins(e, p[i - 1], p[i]);
        assert p[i - 1] in p && p[i] in p;
        assert e in cut;
      }
    }
  }
}
