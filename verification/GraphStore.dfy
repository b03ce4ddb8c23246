/** `graph/graph_store.py`: the store and its two breadth-first searches, in place and loop by loop. */
module GraphStorage {
  import opened Wrappers
  import opened GraphModel
  import opened Walks
  import opened Frontier
  import opened GraphState
  import opened Answers

  /** `d[key(x)] = x` on an insertion-ordered dictionary, seen as the list of its values. */
  function Upsert<T>(key: T -> Id, xs: seq<T>, x: T): seq<T> {
    var i := FirstAt(key, xs, key(x));
    if i < |xs| then xs[i := x] else xs + [x]
  }

  /** Upserting a document that agrees with the one already filed under its key adds it to the set. */
  lemma UpsertFacts<T(!new)>(key: T -> Id, xs: seq<T>, x: T)
    requires Distinct(key, xs)
    requires forall y :: y in xs && key(y) == key(x) ==> y == x
    ensures Distinct(key, Upsert(key, xs, x))
    ensures forall y :: y in Upsert(key, xs, x) <==> y in xs || y == x
  {
    var i, ys := FirstAt(key, xs, key(x)), Upsert(key, xs, x);
    if i < |xs| {
      assert xs[i] in xs;
      assert ys == xs;
    }
  }

  lemma KeyDecides<T>(key: T -> Id, xs: seq<T>, x: T, y: T)
    requires Distinct(key, xs) && x in xs && y in xs && key(x) == key(y)
    ensures x == y
  {
    var i :| 0 <= i < |xs| && xs[i] == x;
    var j :| 0 <= j < |xs| && xs[j] == y;
    assert i == j;
  }

  class GraphStore {
    var entities: seq<Entity>
    var edges: seq<Edge>
    var facts: seq<Fact>

    function Contents(): Graph
      reads this
    {
      Graph(entities, edges, facts)
    }

    ghost predicate Valid()
      reads this
    {
      Contents().Valid()
    }

    constructor ()
      ensures Contents() == Graph([], [], []) && Valid()
    {
      entities, edges, facts := [], [], [];
    }

    // ---- Writes ----

    method AddEntity(entity: Entity) returns (ok: bool)
      requires Valid()
      modifies this
      ensures Valid() && (Contents(), ok) == AddEntities(old(Contents()), [entity])
    {
      InsertManyFacts(EntityId, entities, [entity]);
      var (xs, inserted) := InsertMany(EntityId, entities, [entity]);
      entities, ok := xs, inserted;
    }

    /** An empty batch never reaches the database, which would refuse it. */
    method AddEntitiesBatch(batch: seq<Entity>) returns (ok: bool)
      requires Valid()
      modifies this
      ensures Valid() && (Contents(), ok) == AddEntities(old(Contents()), batch)
    {
      ok := true;
      if batch != [] {
        InsertManyFacts(EntityId, entities, batch);
        var (xs, inserted) := InsertMany(EntityId, entities, batch);
        entities, ok := xs, inserted;
      }
    }

    method AddEdge(edge: Edge) returns (ok: bool)
      requires Valid()
      modifies this
      ensures Valid() && (Contents(), ok) == AddEdges(old(Contents()), [edge])
    {
      InsertManyFacts(EdgeId, edges, [edge]);
      var (xs, inserted) := InsertMany(EdgeId, edges, [edge]);
      edges, ok := xs, inserted;
    }

    method AddEdgesBatch(batch: seq<Edge>) returns (ok: bool)
      requires Valid()
      modifies this
      ensures Valid() && (Contents(), ok) == AddEdges(old(Contents()), batch)
    {
      ok := true;
      if batch != [] {
        InsertManyFacts(EdgeId, edges, batch);
        var (xs, inserted) := InsertMany(EdgeId, edges, batch);
        edges, ok := xs, inserted;
      }
    }

    method AddFact(fact: Fact) returns (ok: bool)
      requires Valid()
      modifies this
      ensures Valid() && (Contents(), ok) == AddFacts(old(Contents()), [fact])
    {
      InsertManyFacts(FactId, facts, [fact]);
      var (xs, inserted) := InsertMany(FactId, facts, [fact]);
      facts, ok := xs, inserted;
    }

    method UpdateStoredEntity(x: Id, p: Patch) returns (r: Option<Entity>)
      requires Valid()
      modifies this
      ensures Valid() && Contents() == UpdateEntity(old(Contents()), x, p)
      ensures r.Some? <==> old(Contents()).Stores(x)
      ensures r.Some? ==> exists e :: e in old(entities) && e.id == x && r.value == Patched(e, p)
    {
      var i := FirstAt(EntityId, entities, x);
      ghost var was := entities;
      entities := UpdateOne(entities, x, p);
      assert forall j :: 0 <= j < |was| ==> EntityId(entities[j]) == EntityId(was[j]);
      r := GetEntity(x);
      if i < |was| {
        assert was[i] in was && EntityId(entities[i]) == x;
        KeyDecides(EntityId, entities, r.value, entities[i]);
      } else {
        assert entities == was;
      }
    }

    method RemoveEntity(x: Id) returns (hit: bool)
      requires Valid()
      modifies this
      ensures Valid() && (Contents(), hit) == DeleteEntity(old(Contents()), x)
    {
      CascadeFrame(Contents(), x);
      var (xs, deleted) := DeleteOne(EntityId, entities, x);
      entities, hit := xs, deleted;
      if hit {
        edges := Without(edges, x);
        facts := FactsNotAbout(facts, x);
      }
    }

    method RemoveEdge(x: Id) returns (hit: bool)
      requires Valid()
      modifies this
      ensures Valid() && (Contents(), hit) == DeleteEdge(old(Contents()), x)
    {
      DeleteOneFacts(EdgeId, edges, x);
      var (xs, deleted) := DeleteOne(EdgeId, edges, x);
      edges, hit := xs, deleted;
    }

    // ---- Reads ----

    method GetEntity(x: Id) returns (r: Option<Entity>)
      ensures r.Some? ==> r.value in entities && r.value.id == x
      ensures r.None? ==> forall e :: e in entities ==> e.id != x
    {
      var i := FirstAt(EntityId, entities, x);
      r := if i < |entities| then Some(entities[i]) else None;
    }

    method GetEdgesForEntity(x: Id) returns (r: seq<Edge>)
      ensures r == Incident(edges, x)
      ensures forall e :: multiset(r)[e] == if Touches(e, x) then multiset(edges)[e] else 0
    {
      r := Incident(edges, x);
      forall e ensures multiset(r)[e] == if Touches(e, x) then multiset(edges)[e] else 0 {
        FilterCount((f: Edge) => Touches(f, x), edges, e);
      }
    }

    /** The entities stored under the visited ids, read one id at a time in no particular order. */
    method EntitiesOf(visited: set<Id>) returns (found: seq<Entity>)
      requires Valid()
      ensures Distinct(EntityId, found)
      ensures forall e :: e in found <==> e in entities && e.id in visited
    {
      found := [];
      var pending := visited;
      while pending != {}
        invariant pending <= visited
        invariant Distinct(EntityId, found)
        invariant forall e :: e in found <==> e in entities && e.id in visited - pending
        decreases pending
      {
        var x :| x in pending;
        pending := pending - {x};
        var ent := GetEntity(x);
        if ent.Some? {
          forall e | e in entities && e.id == x ensures e == ent.value {
            KeyDecides(EntityId, entities, e, ent.value);
          }
          assert forall i :: 0 <= i < |found| ==> found[i] in found;
          found := found + [ent.value];
        }
      }
    }

    /** The inner loop of `get_neighbors`: keep every edge at `current`, queue its unmarked far ends. */
    method CollectAndQueue(current: Id, d: nat, visited: set<Id>, collected: seq<Edge>, queue: seq<Hop>)
      returns (collected': seq<Edge>, queue': seq<Hop>, ghost pushed: seq<Hop>)
      ensures collected' == collected + Incident(edges, current)
      ensures queue' == queue + pushed
      ensures forall i :: 0 <= i < |pushed| ==> pushed[i].level == d + 1 && Adjacent(edges, current, pushed[i].id)
      ensures forall w :: Adjacent(edges, current, w) ==> w in visited || Queued(pushed, w, d + 1)
    {
      hide Pushes, Incident, Adjacent, Queued;
      collected', queue', pushed := collected, queue, [];
      PushesNothing(edges, current, d, visited);
      var incident := GetEdgesForEntity(current);
      for i := 0 to |incident|
        invariant collected' == collected + incident[..i]
        invariant queue' == queue + pushed
        invariant Pushes(edges, current, d, visited, incident[..i], pushed)
      {
        var edge := incident[i];
        assert incident[..i + 1] == incident[..i] + [edge];
        collected' := collected' + [edge];
        var neighbor := OtherEnd(edge, current);
        PushesStep(edges, current, d, visited, incident[..i], pushed, edge);
        if neighbor !in visited {
          queue' := queue' + [Hop(neighbor, d + 1)];
          pushed := pushed + [Hop(neighbor, d + 1)];
        }
      }
      assert incident[..|incident|] == incident;
      PushesAll(edges, current, d, visited, incident, pushed);
    }

    method GetNeighbors(entityId: Id, depth: int) returns (r: SubGraph)
      requires Valid()
      ensures NeighborAnswer(Contents(), entityId, depth, r)
    {
      hide Search;
      var visited: set<Id> := {};
      var collected: seq<Edge> := [];
      var queue := [Hop(entityId, 0)];
      ghost var seen: map<Id, nat> := map[];
      SearchStart(edges, entityId, depth);
      while queue != []
        invariant Search(edges, entityId, depth, queue, seen)
        invariant visited == seen.Keys
        invariant Tallied(edges, depth, seen, collected)
        decreases Vertices(edges, entityId) - visited, |queue|
      {
        var current, d := queue[0].id, queue[0].level;
        ghost var queue0, seen0 := queue, seen;
        HeadIsVertex(edges, entityId, depth, queue, seen);
        queue := queue[1..];
        if current in visited {
          SearchSkip(edges, entityId, depth, queue0, seen0, seen0);
          continue;
        }
        visited := visited + {current};
        seen := seen[current := d];
        if d < depth {
          ghost var collected0, pushed := collected, [];
          collected, queue, pushed := CollectAndQueue(current, d, visited, collected, queue);
          SearchExpand(edges, entityId, depth, queue0, seen0, pushed);
          TallyExpanded(edges, depth, seen0, collected0, current, d);
        } else {
          SearchSkip(edges, entityId, depth, queue0, seen0, seen);
          TallyUnexpanded(edges, depth, seen0, collected, current, d);
        }
      }
      var found := EntitiesOf(visited);
      r := SubGraph(found, collected);
      BallFound(Contents(), entityId, depth, seen, r);
    }

    /** The inner loop of `find_path`: queue `path` extended by each unmarked far end. */
    method QueuePaths(sourceId: Id, current: Id, path: seq<Id>, visited: set<Id>,
                      queue: seq<(Id, seq<Id>)>, ghost hops: seq<Hop>)
      returns (queue': seq<(Id, seq<Id>)>, ghost hops': seq<Hop>, ghost pushed: seq<Hop>)
      requires |queue| == |hops| && Paths(edges, sourceId, queue, hops)
      requires |path| >= 1 && Walk(edges, sourceId, current, path)
      ensures Extends(queue, path, visited, queue')
      ensures |queue'| == |hops'| && Paths(edges, sourceId, queue', hops') && hops' == hops + pushed
      ensures forall i :: 0 <= i < |pushed| ==>
        pushed[i].level == |path| && Adjacent(edges, current, pushed[i].id)
      ensures forall w :: Adjacent(edges, current, w) ==> w in visited || Queued(pushed, w, |path|)
    {
      hide Paths, Walk, Adjacent, Pushes, Incident, Queued;
      queue', hops', pushed := queue, hops, [];
      PushesNothing(edges, current, |path| - 1, visited);
      var incident := GetEdgesForEntity(current);
      for i := 0 to |incident|
        invariant hops' == hops + pushed && Extends(queue, path, visited, queue')
        invariant Paths(edges, sourceId, queue', hops')
        invariant |queue'| == |hops'| && Pushes(edges, current, |path| - 1, visited, incident[..i], pushed)
      {
        var edge := incident[i];
        assert incident[..i + 1] == incident[..i] + [edge];
        var neighbor := OtherEnd(edge, current);
        PushesStep(edges, current, |path| - 1, visited, incident[..i], pushed, edge);
        if neighbor !in visited {
          PathsPush(edges, sourceId, queue', hops', current, path, edge);
          queue' := queue' + [(neighbor, path + [neighbor])];
          hops' := hops' + [Hop(neighbor, |path|)];
          pushed := pushed + [Hop(neighbor, |path|)];
        }
      }
      assert incident[..|incident|] == incident;
      PushesAll(edges, current, |path| - 1, visited, incident, pushed);
    }

    method FindPath(sourceId: Id, targetId: Id, maxDepth: int) returns (r: Option<seq<Id>>)
      ensures PathAnswer(edges, sourceId, targetId, maxDepth, r)
    {
      hide Search, Paths;
      var visited: set<Id> := {};
      var queue := [(sourceId, [sourceId])];
      // `hops` is the queue with each path replaced by its length; `seen` also marks what was
      // dropped at the depth limit.
      ghost var hops := [Hop(sourceId, 0)];
      ghost var seen: map<Id, nat> := map[];
      SearchStart(edges, sourceId, maxDepth);
      PathsStart(edges, sourceId);
      while queue != []
        invariant Search(edges, sourceId, maxDepth, hops, seen)
        invariant |hops| == |queue| && Paths(edges, sourceId, queue, hops)
        invariant visited <= seen.Keys && forall u :: u in seen && u !in visited ==> seen[u] >= maxDepth
        invariant targetId !in seen
        decreases Vertices(edges, sourceId) - visited, |queue|
      {
        var (current, path) := queue[0];
        ghost var hops0, seen0 := hops, seen;
        PathsPop(edges, sourceId, queue, hops);
        HeadIsVertex(edges, sourceId, maxDepth, hops, seen);
        if current == targetId {
          ShortestAtHead(edges, sourceId, maxDepth, hops, seen, path);
          return Some(path);
        }
        queue, hops := queue[1..], hops[1..];
        if |path| > maxDepth {
          seen := if current in seen then seen else seen[current := |path| - 1];
          SearchSkip(edges, sourceId, maxDepth, hops0, seen0, seen);
          continue;
        }
        if current in visited {
          SearchSkip(edges, sourceId, maxDepth, hops0, seen0, seen);
          continue;
        }
        assert current !in seen;
        visited := visited + {current};
        seen := seen[current := |path| - 1];
        ghost var pushed: seq<Hop>;
        queue, hops, pushed := QueuePaths(sourceId, current, path, visited, queue, hops);
        SearchExpand(edges, sourceId, maxDepth, hops0, seen0, pushed);
      }
      NothingWithin(edges, sourceId, maxDepth, seen, targetId);
      return None;
    }

    method GetSubgraph(entityIds: seq<Id>, depth: int) returns (r: SubGraph)
      requires Valid()
      ensures SubgraphAnswer(Contents(), Members(entityIds), depth, r)
    {
      r := SubGraph([], []);
      for i := 0 to |entityIds|
        invariant SubgraphAnswer(Contents(), Members(entityIds[..i]), depth, r)
      {
        var ball := GetNeighbors(entityIds[i], depth);
        var allEntities, allEdges := r.entities, r.edges;
        for j := 0 to |ball.entities|
          invariant Distinct(EntityId, allEntities)
          invariant forall e :: e in allEntities <==> e in r.entities || e in ball.entities[..j]
        {
          var ent := ball.entities[j];
          assert ball.entities[..j + 1] == ball.entities[..j] + [ent];
          forall y | y in allEntities && EntityId(y) == EntityId(ent) ensures y == ent {
            KeyDecides(EntityId, entities, y, ent);
          }
          UpsertFacts(EntityId, allEntities, ent);
          allEntities := Upsert(EntityId, allEntities, ent);
        }
        for j := 0 to |ball.edges|
          invariant Distinct(EdgeId, allEdges)
          invariant forall e :: e in allEdges <==> e in r.edges || e in ball.edges[..j]
        {
          var edge := ball.edges[j];
          assert ball.edges[..j + 1] == ball.edges[..j] + [edge];
          assert edge in ball.edges;
          forall y | y in allEdges && EdgeId(y) == EdgeId(edge) ensures y == edge {
            BallEdgesStored(Contents(), entityIds[i], depth, ball, edge);
            if y in ball.edges { BallEdgesStored(Contents(), entityIds[i], depth, ball, y); }
            KeyDecides(EdgeId, edges, y, edge);
          }
          UpsertFacts(EdgeId, allEdges, edge);
          allEdges := Upsert(EdgeId, allEdges, edge);
        }
        assert ball.entities[..|ball.entities|] == ball.entities && ball.edges[..|ball.edges|] == ball.edges;
        SubgraphGrows(Contents(), entityIds[..i], entityIds[i], depth, r, ball, SubGraph(allEntities, allEdges));
        assert entityIds[..i + 1] == entityIds[..i] + [entityIds[i]];
        r := SubGraph(allEntities, allEdges);
      }
      assert entityIds[..|entityIds|] == entityIds;
    }
  }

  // ---- The inner loop: queueing the unmarked ends of the edges at `current` ----

  ghost predicate Pushes(es: seq<Edge>, current: Id, d: nat, visited: set<Id>, done: seq<Edge>, pushed: seq<Hop>) {
    && (forall i :: 0 <= i < |pushed| ==> pushed[i].level == d + 1 && Adjacent(es, current, pushed[i].id))
    && (forall e :: e in done ==> OtherEnd(e, current) in visited || Queued(pushed, OtherEnd(e, current), d + 1))
  }

  lemma PushesNothing(es: seq<Edge>, current: Id, d: nat, visited: set<Id>)
    ensures Pushes(es, current, d, visited, [], [])
  {
  }

  lemma PushesStep(es: seq<Edge>, current: Id, d: nat, visited: set<Id>, done: seq<Edge>, pushed: seq<Hop>, edge: Edge)
    requires Pushes(es, current, d, visited, done, pushed)
    requires edge in es && Touches(edge, current)
    ensures var w := OtherEnd(edge, current);
      Pushes(es, current, d, visited, done + [edge], if w in visited then pushed else pushed + [Hop(w, d + 1)])
  {
    var w := OtherEnd(edge, current);
    var pushed' := if w in visited then pushed else pushed + [Hop(w, d + 1)];
    assert Joins(edge, current, w);
    if w !in visited { assert pushed'[|pushed|] == Hop(w, d + 1); }
    forall e | e in done + [edge] && OtherEnd(e, current) !in visited
      ensures Queued(pushed', OtherEnd(e, current), d + 1)
    {
      if e in done {
        var i :| 0 <= i < |pushed| && pushed[i].id == OtherEnd(e, current) && pushed[i].level <= d + 1;
        assert pushed'[i] == pushed[i];
      }
    }
  }

  lemma PushesAll(es: seq<Edge>, current: Id, d: nat, visited: set<Id>, incident: seq<Edge>, pushed: seq<Hop>)
    requires Pushes(es, current, d, visited, incident, pushed) && incident == Incident(es, current)
    ensures forall i :: 0 <= i < |pushed| ==> pushed[i].level == d + 1 && Adjacent(es, current, pushed[i].id)
    ensures forall w :: Adjacent(es, current, w) ==> w in visited || Queued(pushed, w, d + 1)
  {
    forall w | Adjacent(es, current, w) ensures w in visited || Queued(pushed, w, d + 1) {
      var e :| e in es && Joins(e, current, w);
      assert e in incident;
    }
  }

  // ---- The queue of `find_path` carries whole paths ----

  ghost predicate Paths(es: seq<Edge>, s: Id, queue: seq<(Id, seq<Id>)>, hops: seq<Hop>) {
    && |hops| == |queue|
    && forall i :: 0 <= i < |queue| ==>
      Walk(es, s, queue[i].0, queue[i].1) && hops[i] == Hop(queue[i].0, |queue[i].1| - 1)
  }

  /** What was queued stays, and every entry behind it is `path` and one more, unmarked, id. */
  predicate Extends(queue: seq<(Id, seq<Id>)>, path: seq<Id>, visited: set<Id>, queue': seq<(Id, seq<Id>)>) {
    && queue <= queue'
    && forall i :: |queue| <= i < |queue'| ==> queue'[i].0 !in visited && queue'[i].1 == path + [queue'[i].0]
  }

  lemma PathsStart(es: seq<Edge>, s: Id)
    ensures Paths(es, s, [(s, [s])], [Hop(s, 0)])
  {
    WalkToSelf(es, s);
  }

  lemma PathsPop(es: seq<Edge>, s: Id, queue: seq<(Id, seq<Id>)>, hops: seq<Hop>)
    requires Paths(es, s, queue, hops) && queue != []
    ensures hops != [] && hops[0] == Hop(queue[0].0, |queue[0].1| - 1)
    ensures Walk(es, s, queue[0].0, queue[0].1)
    ensures Paths(es, s, queue[1..], hops[1..])
  {
    forall i | 0 <= i < |queue| - 1 ensures queue[1..][i] == queue[i + 1] && hops[1..][i] == hops[i + 1] {}
  }

  lemma PathsPush(es: seq<Edge>, s: Id, queue: seq<(Id, seq<Id>)>, hops: seq<Hop>, u: Id, path: seq<Id>, edge: Edge)
    requires Paths(es, s, queue, hops) && Walk(es, s, u, path) && edge in es && Touches(edge, u)
    ensures var w := OtherEnd(edge, u);
      Paths(es, s, queue + [(w, path + [w])], hops + [Hop(w, |path|)])
  {
    var w := OtherEnd(edge, u);
    assert Joins(edge, u, w);
    WalkStep(es, s, u, w, path);
  }

  // ---- What the collected edges add up to ----

  ghost predicate Expanded(depth: int, seen: map<Id, nat>, u: Id) {
    u in seen && seen[u] < depth
  }

  ghost predicate Tallied(es: seq<Edge>, depth: int, seen: map<Id, nat>, collected: seq<Edge>) {
    forall e :: multiset(collected)[e] ==
      (if Expanded(depth, seen, e.source) then multiset(es)[e] else 0)
      + (if e.target != e.source && Expanded(depth, seen, e.target) then multiset(es)[e] else 0)
  }

  lemma TallyExpanded(es: seq<Edge>, depth: int, seen: map<Id, nat>, collected: seq<Edge>, u: Id, d: nat)
    requires Tallied(es, depth, seen, collected) && u !in seen && d < depth
    ensures Tallied(es, depth, seen[u := d], collected + Incident(es, u))
  {
    forall e
      ensures multiset(collected + Incident(es, u))[e]
           == multiset(collected)[e] + if Touches(e, u) then multiset(es)[e] else 0
    {
      FilterCount(f => Touches(f, u), es, e);
    }
    forall x | x != u ensures Expanded(depth, seen[u := d], x) <==> Expanded(depth, seen, x) {}
  }

  lemma TallyUnexpanded(es: seq<Edge>, depth: int, seen: map<Id, nat>, collected: seq<Edge>, u: Id, d: nat)
    requires Tallied(es, depth, seen, collected) && u !in seen && d >= depth
    ensures Tallied(es, depth, seen[u := d], collected)
  {
    forall x ensures Expanded(depth, seen[u := d], x) <==> Expanded(depth, seen, x) {}
  }

  // ---- Reading the outcome off the invariant ----

  lemma HeadIsVertex(es: seq<Edge>, s: Id, limit: int, queue: seq<Hop>, seen: map<Id, nat>)
    requires Search(es, s, limit, queue, seen) && queue != []
    ensures queue[0].id in Vertices(es, s)
    ensures forall u :: u in seen ==> seen[u] <= queue[0].level
  {
    assert Sound(es, s, limit, queue[0].id, queue[0].level);
  }

  /** Once the queue is empty the marks are exactly the distances within the limit. */
  lemma MarkedExactly(es: seq<Edge>, s: Id, limit: int, seen: map<Id, nat>, t: Id, k: int)
    requires Search(es, s, limit, [], seen) && k <= Max(0, limit)
    ensures Within(es, s, t, k) <==> t in seen && seen[t] <= k
  {
    if Within(es, s, t, k) {
      var p :| Walk(es, s, t, p) && |p| - 1 <= k;
      SearchReach(es, s, limit, [], seen, t, p);
    }
    if t in seen && seen[t] <= k {
      assert Sound(es, s, limit, t, seen[t]);
      WithinMonotone(es, s, t, seen[t], k);
    }
  }

  lemma BallFound(g: Graph, s: Id, depth: int, seen: map<Id, nat>, r: SubGraph)
    requires Search(g.edges, s, depth, [], seen) && Tallied(g.edges, depth, seen, r.edges)
    requires Distinct(EntityId, r.entities)
    requires forall e :: e in r.entities <==> e in g.entities && e.id in seen
    ensures NeighborAnswer(g, s, depth, r)
  {
    forall x ensures Within(g.edges, s, x, depth - 1) <==> Expanded(depth, seen, x) {
      MarkedExactly(g.edges, s, depth, seen, x, depth - 1);
    }
    forall x ensures Within(g.edges, s, x, Max(0, depth)) <==> x in seen {
      MarkedExactly(g.edges, s, depth, seen, x, Max(0, depth));
      assert x in seen ==> Sound(g.edges, s, depth, x, seen[x]);
    }
    forall e ensures multiset(r.edges)[e] == Collected(g.edges, s, depth, e) {
      assert Within(g.edges, s, e.source, depth - 1) <==> Expanded(depth, seen, e.source);
      assert Within(g.edges, s, e.target, depth - 1) <==> Expanded(depth, seen, e.target);
    }
  }

  /** The first time the target is popped, the path it carries is a shortest one. */
  lemma ShortestAtHead(es: seq<Edge>, s: Id, limit: int, hops: seq<Hop>, seen: map<Id, nat>, path: seq<Id>)
    requires Search(es, s, limit, hops, seen) && hops != [] && hops[0].id !in seen
    requires Walk(es, s, hops[0].id, path) && hops[0].level == |path| - 1
    ensures PathAnswer(es, s, hops[0].id, limit, Some(path))
  {
    forall p | Walk(es, s, hops[0].id, p) ensures |path| <= |p| {
      if |p| < |path| {
        SearchReach(es, s, limit, hops, seen, hops[0].id, p);
      }
    }
    assert Sound(es, s, limit, hops[0].id, hops[0].level);
  }

  lemma NothingWithin(es: seq<Edge>, s: Id, limit: int, seen: map<Id, nat>, t: Id)
    requires Search(es, s, limit, [], seen) && t !in seen
    ensures !Within(es, s, t, Max(0, limit))
  {
    MarkedExactly(es, s, limit, seen, t, Max(0, limit));
  }

  lemma BallEdgesStored(g: Graph, s: Id, depth: int, ball: SubGraph, e: Edge)
    requires NeighborAnswer(g, s, depth, ball) && e in ball.edges
    ensures Collects(g.edges, s, depth, e)
  {
    assert multiset(ball.edges)[e] > 0;
    assert Collected(g.edges, s, depth, e) > 0;
  }

  lemma SubgraphGrows(g: Graph, seeds: seq<Id>, s: Id, depth: int, r: SubGraph, ball: SubGraph, r': SubGraph)
    requires SubgraphAnswer(g, Members(seeds), depth, r) && NeighborAnswer(g, s, depth, ball)
    requires Distinct(EntityId, r'.entities) && Distinct(EdgeId, r'.edges)
    requires forall e :: e in r'.entities <==> e in r.entities || e in ball.entities
    requires forall e :: e in r'.edges <==> e in r.edges || e in ball.edges
    ensures SubgraphAnswer(g, Members(seeds + [s]), depth, r')
  {
    assert Members(seeds + [s]) == Members(seeds) + {s};
    assert s in Members(seeds + [s]);
    forall e ensures e in ball.edges <==> Collects(g.edges, s, depth, e) {
      assert e in ball.edges <==> Collected(g.edges, s, depth, e) > 0;
    }
  }
}
