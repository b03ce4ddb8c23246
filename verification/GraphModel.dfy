/** The documents of the three collections, as `graph/models.py` declares them.
    Timestamps, weights and free-form attribute dictionaries are not modelled. */
module GraphModel {
  import opened Wrappers

  type Id = string

  datatype Entity = Entity(id: Id, name: string, entityType: string, description: string)

  datatype Edge = Edge(id: Id, source: Id, target: Id, relationType: string, description: string)

  datatype Fact = Fact(id: Id, subject: Id, predicate_: string, objectEntity: Option<Id>, objectValue: Option<string>)

  datatype SubGraph = SubGraph(entities: seq<Entity>, edges: seq<Edge>)

  function EntityId(e: Entity): Id { e.id }

  function EdgeId(e: Edge): Id { e.id }

  function FactId(f: Fact): Id { f.id }

  /** No two positions of `xs` carry the same key: what a unique index enforces. */
  ghost predicate Distinct<T>(key: T -> Id, xs: seq<T>) {
    forall i, j :: 0 <= i < j < |xs| ==> key(xs[i]) != key(xs[j])
  }

  /** The `$or` query of `get_edges_for_entity`. */
  predicate Touches(e: Edge, x: Id) {
    e.source == x || e.target == x
  }

  /** The neighbour both searches read off an edge found at `current`. */
  function OtherEnd(e: Edge, current: Id): Id {
    if e.source == current then e.target else e.source
  }

  /** The elements of `xs` that satisfy `keep`, in order: a `find` or the survivors of a `delete_many`. */
  function Filter<T(!new)>(keep: T -> bool, xs: seq<T>): (r: seq<T>)
    ensures forall x :: x in r <==> x in xs && keep(x)
  {
    if xs == [] then []
    else
      var init, last := xs[..|xs| - 1], xs[|xs| - 1];
      assert xs == init + [last];
      Filter(keep, init) + (if keep(last) then [last] else [])
  }

  /** `es` once the edges at `x` are deleted. */
  function Without(es: seq<Edge>, x: Id): (r: seq<Edge>)
    ensures forall e :: e in r <==> e in es && !Touches(e, x)
  {
    Filter(e => !Touches(e, x), es)
  }

  /** The edges `get_edges_for_entity` returns. */
  function Incident(es: seq<Edge>, x: Id): (r: seq<Edge>)
    ensures forall e :: e in r <==> e in es && Touches(e, x)
  {
    Filter(e => Touches(e, x), es)
  }

  function Members<T(!new)>(xs: seq<T>): (r: set<T>)
    ensures forall x :: x in r <==> x in xs
  {
    set x | x in xs
  }

  lemma {:induction false} FilterCount<T(!new)>(keep: T -> bool, xs: seq<T>, x: T)
    ensures multiset(Filter(keep, xs))[x] == if keep(x) then multiset(xs)[x] else 0
  {
    if xs != [] {
      var init, last := xs[..|xs| - 1], xs[|xs| - 1];
      assert xs == init + [last];
      FilterCount(keep, init, x);
    }
  }

  /** Filtering goes through the documents in order. */
  lemma {:induction false} FilterConcat<T(!new)>(keep: T -> bool, xs: seq<T>, ys: seq<T>)
    ensures Filter(keep, xs + ys) == Filter(keep, xs) + Filter(keep, ys)
  {
    hide Filter;
    if ys == [] {
      assert xs + ys == xs;
      FilterLast(keep, ys);
    } else {
      var init, last := ys[..|ys| - 1], ys[|ys| - 1];
      FilterConcat(keep, xs, init);
      FilterLast(keep, ys);
      FilterLast(keep, xs + ys);
      assert (xs + ys)[..|xs + ys| - 1] == xs + init;
    }
  }

  lemma FilterLast<T(!new)>(keep: T -> bool, xs: seq<T>)
    ensures xs == [] ==> Filter(keep, xs) == []
    ensures xs != [] ==>
      Filter(keep, xs) == Filter(keep, xs[..|xs| - 1]) + if keep(xs[|xs| - 1]) then [xs[|xs| - 1]] else []
  {
  }

  lemma {:induction false} FilterDistinct<T(!new)>(key: T -> Id, keep: T -> bool, xs: seq<T>)
    requires Distinct(key, xs)
    ensures Distinct(key, Filter(keep, xs))
  {
    if xs != [] {
      var init, last := xs[..|xs| - 1], xs[|xs| - 1];
      FilterDistinct(key, keep, init);
      var r := Filter(keep, init);
      forall i | 0 <= i < |r| ensures key(r[i]) != key(last) {
        assert r[i] in init;
      }
    }
  }
}
