/** The three collections as one value, and what each write of `graph/graph_store.py` does to it.
    `GraphStore` performs these writes in place; the facts proved here hold of whatever it stores. */
module GraphState {
  import opened Wrappers
  import opened GraphModel

  datatype Graph = Graph(entities: seq<Entity>, edges: seq<Edge>, facts: seq<Fact>) {
    /** The unique indexes hold. */
    ghost predicate Valid() {
      Distinct(EntityId, entities) && Distinct(EdgeId, edges) && Distinct(FactId, facts)
    }

    predicate Stores(x: Id) {
      HasKey(EntityId, entities, x)
    }

    /** Both endpoints of every stored edge are stored entities. */
    ghost predicate Grounded() {
      forall e :: e in edges ==> Stores(e.source) && Stores(e.target)
    }
  }

  predicate HasKey<T>(key: T -> Id, xs: seq<T>, k: Id) {
    exists i :: 0 <= i < |xs| && key(xs[i]) == k
  }

  /** An ordered `insert_many` under a unique index: documents go in one by one, the first duplicate
      raises, and the documents before it stay. The flag is false when it raised. */
  function InsertMany<T>(key: T -> Id, xs: seq<T>, batch: seq<T>): (seq<T>, bool)
    decreases |batch|
  {
    if batch == [] then (xs, true)
    else if HasKey(key, xs, key(batch[0])) then (xs, false)
    else InsertMany(key, xs + [batch[0]], batch[1..])
  }

  /** Where the first document with this key is; the length when there is none. */
  function FirstAt<T>(key: T -> Id, xs: seq<T>, k: Id): (i: nat)
    ensures i <= |xs|
    ensures i < |xs| ==> key(xs[i]) == k
    ensures forall j :: 0 <= j < i ==> key(xs[j]) != k
  {
    if xs == [] || key(xs[0]) == k then 0 else 1 + FirstAt(key, xs[1..], k)
  }

  /** `delete_one`: the first document with this id goes. */
  function DeleteOne<T>(key: T -> Id, xs: seq<T>, k: Id): (seq<T>, bool) {
    var i := FirstAt(key, xs, k);
    if i < |xs| then (xs[..i] + xs[i + 1..], true) else (xs, false)
  }

  /** The fields an API update may carry; the id is never among them. */
  datatype Patch = Patch(name: Option<string>, entityType: Option<string>, description: Option<string>)

  function Patched(e: Entity, p: Patch): Entity {
    Entity(e.id, OrElse(p.name, e.name), OrElse(p.entityType, e.entityType), OrElse(p.description, e.description))
  }

  /** `update_one`: the first document with this id is rewritten. */
  function UpdateOne(xs: seq<Entity>, k: Id, p: Patch): seq<Entity> {
    var i := FirstAt(EntityId, xs, k);
    if i < |xs| then xs[i := Patched(xs[i], p)] else xs
  }

  function AddEntities(g: Graph, batch: seq<Entity>): (Graph, bool) {
    var (xs, ok) := InsertMany(EntityId, g.entities, batch);
    (g.(entities := xs), ok)
  }

  function AddEdges(g: Graph, batch: seq<Edge>): (Graph, bool) {
    var (xs, ok) := InsertMany(EdgeId, g.edges, batch);
    (g.(edges := xs), ok)
  }

  function AddFacts(g: Graph, batch: seq<Fact>): (Graph, bool) {
    var (xs, ok) := InsertMany(FactId, g.facts, batch);
    (g.(facts := xs), ok)
  }

  function DeleteEdge(g: Graph, x: Id): (Graph, bool) {
    var (xs, hit) := DeleteOne(EdgeId, g.edges, x);
    (g.(edges := xs), hit)
  }

  function UpdateEntity(g: Graph, x: Id, p: Patch): Graph {
    g.(entities := UpdateOne(g.entities, x, p))
  }

  function FactsNotAbout(fs: seq<Fact>, x: Id): (r: seq<Fact>)
    ensures forall f :: f in r <==> f in fs && f.subject != x
  {
    Filter((f: Fact) => f.subject != x, fs)
  }

  /** The cascade of `delete_entity`. */
  function DeleteEntity(g: Graph, x: Id): (Graph, bool) {
    var (xs, hit) := DeleteOne(EntityId, g.entities, x);
    if hit then (Graph(xs, Without(g.edges, x), FactsNotAbout(g.facts, x)), true)
    else (g, false)
  }

  // ---- What the writes keep ----

  lemma {:induction false} InsertManyFacts<T>(key: T -> Id, xs: seq<T>, batch: seq<T>)
    requires Distinct(key, xs)
    ensures var (ys, ok) := InsertMany(key, xs, batch);
      && Distinct(key, ys)
      && |xs| <= |ys| <= |xs| + |batch|
      && ys == xs + batch[..|ys| - |xs|]
      && (ok <==> ys == xs + batch)
      && (!ok ==> HasKey(key, ys, key(batch[|ys| - |xs|])))
    decreases |batch|
  {
    if batch != [] && !HasKey(key, xs, key(batch[0])) {
      InsertManyFacts(key, xs + [batch[0]], batch[1..]);
      var (ys, ok) := InsertMany(key, xs, batch);
      assert xs + [batch[0]] + batch[1..] == xs + batch;
      var n := |ys| - |xs|;
      assert xs + [batch[0]] + batch[1..][..n - 1] == xs + batch[..n];
    } else {
      assert xs + [] == xs && batch[..0] == [];
    }
  }

  /** A batch whose ids are new and distinct is stored whole. */
  lemma {:induction false} InsertManyFresh<T>(key: T -> Id, xs: seq<T>, batch: seq<T>)
    requires Distinct(key, xs + batch)
    ensures InsertMany(key, xs, batch) == (xs + batch, true)
    decreases |batch|
  {
    if batch == [] {
      assert xs + batch == xs;
    } else {
      assert (xs + batch)[|xs|] == batch[0];
      assert forall i :: 0 <= i < |xs| ==> (xs + batch)[i] == xs[i];
      assert xs + [batch[0]] + batch[1..] == xs + batch;
      InsertManyFresh(key, xs + [batch[0]], batch[1..]);
    }
  }

  lemma DeleteOneFacts<T(!new)>(key: T -> Id, xs: seq<T>, k: Id)
    requires Distinct(key, xs)
    ensures var (ys, hit) := DeleteOne(key, xs, k);
      && Distinct(key, ys)
      && (hit <==> HasKey(key, xs, k))
      && (forall y :: y in ys <==> y in xs && key(y) != k)
      && (hit ==> exists i :: 0 <= i < |xs| && key(xs[i]) == k && ys == xs[..i] + xs[i + 1..])
      && (!hit ==> ys == xs)
  {
    var i := FirstAt(key, xs, k);
    var ys := DeleteOne(key, xs, k).0;
    forall y | y in xs && key(y) != k ensures y in ys {
      var j :| 0 <= j < |xs| && xs[j] == y;
      assert y == ys[if j < i then j else j - 1];
    }
  }

  /** What is stored after a cascade: every edge at `x` and every fact about `x` is gone, and every other
      document stays. */
  lemma CascadeFrame(g: Graph, x: Id)
    requires g.Valid()
    ensures var (g', hit) := DeleteEntity(g, x);
      && g'.Valid()
      && (hit <==> g.Stores(x))
      && (!hit ==> g' == g)
      && (forall e :: e in g'.entities <==> e in g.entities && e.id != x)
      && (hit ==> forall e :: e in g'.edges <==> e in g.edges && !Touches(e, x))
      && (hit ==> forall f :: f in g'.facts <==> f in g.facts && f.subject != x)
  {
    DeleteOneFacts(EntityId, g.entities, x);
    FilterDistinct(EdgeId, e => !Touches(e, x), g.edges);
    FilterDistinct(FactId, (f: Fact) => f.subject != x, g.facts);
  }

  // ---- What the other writes change, and what they leave alone ----

  /** `ys` is `xs` and then the documents of `batch` up to the first whose id is taken, if there is one. */
  ghost predicate Appended<T>(key: T -> Id, xs: seq<T>, batch: seq<T>, ys: seq<T>, ok: bool) {
    && |xs| <= |ys| <= |xs| + |batch|
    && ys == xs + batch[..|ys| - |xs|] && Distinct(key, ys)
    && (ok <==> |ys| == |xs| + |batch|)
    && (!ok ==> HasKey(key, ys, key(batch[|ys| - |xs|])))
  }

  lemma AddEntitiesFrame(g: Graph, batch: seq<Entity>)
    requires g.Valid()
    ensures var (g', ok) := AddEntities(g, batch);
      Appended(EntityId, g.entities, batch, g'.entities, ok) && g'.edges == g.edges && g'.facts == g.facts
  {
    InsertManyFacts(EntityId, g.entities, batch);
  }

  lemma AddEdgesFrame(g: Graph, batch: seq<Edge>)
    requires g.Valid()
    ensures var (g', ok) := AddEdges(g, batch);
      Appended(EdgeId, g.edges, batch, g'.edges, ok) && g'.entities == g.entities && g'.facts == g.facts
  {
    InsertManyFacts(EdgeId, g.edges, batch);
  }

  lemma AddFactsFrame(g: Graph, batch: seq<Fact>)
    requires g.Valid()
    ensures var (g', ok) := AddFacts(g, batch);
      Appended(FactId, g.facts, batch, g'.facts, ok) && g'.entities == g.entities && g'.edges == g.edges
  {
    InsertManyFacts(FactId, g.facts, batch);
  }

  /** Deleting an edge removes that edge and nothing else, and reports whether it was there. */
  lemma DeleteEdgeFrame(g: Graph, x: Id)
    requires g.Valid()
    ensures var (g', hit) := DeleteEdge(g, x);
      && g'.entities == g.entities && g'.facts == g.facts
      && (hit <==> exists e :: e in g.edges && e.id == x)
      && (forall e :: e in g'.edges <==> e in g.edges && e.id != x)
  {
    DeleteOneFacts(EdgeId, g.edges, x);
    if e :| e in g.edges && e.id == x {
      var i :| 0 <= i < |g.edges| && g.edges[i] == e;
      assert EdgeId(g.edges[i]) == x;
    }
    if HasKey(EdgeId, g.edges, x) {
      var i :| 0 <= i < |g.edges| && EdgeId(g.edges[i]) == x;
      assert g.edges[i] in g.edges;
    }
  }

  /** `e'` is `e` with the given fields replaced and the others kept. */
  ghost predicate Rewritten(e: Entity, p: Patch, e': Entity) {
    && e'.id == e.id
    && (if p.name.Some? then p.name == Some(e'.name) else e'.name == e.name)
    && (if p.entityType.Some? then p.entityType == Some(e'.entityType) else e'.entityType == e.entityType)
    && (if p.description.Some? then p.description == Some(e'.description) else e'.description == e.description)
  }

  /** An update rewrites the entity with this id in its place, and nothing else. */
  lemma UpdateEntityFrame(g: Graph, x: Id, p: Patch)
    requires g.Valid()
    ensures var g' := UpdateEntity(g, x, p);
      && g'.edges == g.edges && g'.facts == g.facts && |g'.entities| == |g.entities|
      && forall i :: 0 <= i < |g.entities| ==>
           if g.entities[i].id == x then Rewritten(g.entities[i], p, g'.entities[i])
           else g'.entities[i] == g.entities[i]
  {
    var k := FirstAt(EntityId, g.entities, x);
    forall i | 0 <= i < |g.entities| && i != k ensures g.entities[i].id != x {
      if i > k { assert EntityId(g.entities[k]) == x; }
    }
  }

  // ---- Referential integrity, write by write ----

  lemma AddEntitiesKeepsGrounded(g: Graph, batch: seq<Entity>)
    requires g.Valid() && g.Grounded()
    ensures var (g', ok) := AddEntities(g, batch);
      g'.Valid() && g'.Grounded() && (ok ==> forall e :: e in batch ==> g'.Stores(e.id))
      && forall x :: g.Stores(x) ==> g'.Stores(x)
  {
    InsertManyFacts(EntityId, g.entities, batch);
    var (g', ok) := AddEntities(g, batch);
    forall x | g.Stores(x) ensures g'.Stores(x) {
      var i :| 0 <= i < |g.entities| && g.entities[i].id == x;
      assert EntityId(g'.entities[i]) == x;
    }
    if ok {
      forall e | e in batch ensures g'.Stores(e.id) {
        var i :| 0 <= i < |batch| && batch[i] == e;
        assert EntityId(g'.entities[|g.entities| + i]) == e.id;
      }
    }
  }

  lemma AddEdgesKeepsGrounded(g: Graph, batch: seq<Edge>)
    requires g.Valid() && g.Grounded()
    requires forall e :: e in batch ==> g.Stores(e.source) && g.Stores(e.target)
    ensures AddEdges(g, batch).0.Valid() && AddEdges(g, batch).0.Grounded()
  {
    InsertManyFacts(EdgeId, g.edges, batch);
    var g' := AddEdges(g, batch).0;
    forall e | e in g'.edges ensures g'.Stores(e.source) && g'.Stores(e.target) {
      assert e in g.edges || e in batch;
      assert g.Stores(e.source) && g.Stores(e.target);
    }
  }

  lemma DeleteEntityKeepsGrounded(g: Graph, x: Id)
    requires g.Valid() && g.Grounded()
    ensures DeleteEntity(g, x).0.Valid() && DeleteEntity(g, x).0.Grounded()
  {
    CascadeFrame(g, x);
    var (g', hit) := DeleteEntity(g, x);
    if hit {
      forall e, y | e in g'.edges && (y == e.source || y == e.target) ensures g'.Stores(y) {
        var i :| 0 <= i < |g.entities| && EntityId(g.entities[i]) == y;
        assert g.entities[i] in g'.entities;
        var j :| 0 <= j < |g'.entities| && g'.entities[j] == g.entities[i];
        assert EntityId(g'.entities[j]) == y;
      }
    }
  }

  lemma DeleteEdgeKeepsGrounded(g: Graph, x: Id)
    requires g.Valid() && g.Grounded()
    ensures DeleteEdge(g, x).0.Valid() && DeleteEdge(g, x).0.Grounded()
  {
    DeleteOneFacts(EdgeId, g.edges, x);
    assert DeleteEdge(g, x).0.entities == g.entities;
  }

  lemma UpdateEntityKeepsGrounded(g: Graph, x: Id, p: Patch)
    requires g.Valid() && g.Grounded()
    ensures UpdateEntity(g, x, p).Valid() && UpdateEntity(g, x, p).Grounded()
  {
    var g' := UpdateEntity(g, x, p);
    assert forall i :: 0 <= i < |g.entities| ==> EntityId(g'.entities[i]) == EntityId(g.entities[i]);
    forall y | g.Stores(y) ensures g'.Stores(y) {
      var i :| 0 <= i < |g.entities| && EntityId(g.entities[i]) == y;
      assert EntityId(g'.entities[i]) == y;
    }
  }
}
