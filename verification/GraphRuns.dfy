/** Requests to the graph API that overlap: every command to the database is a step of its own.

    An ingestion awaits between storing the entities of a chunk and storing its edges
    (`graph/graph_rag.py`), and a deletion awaits between removing an entity and removing the edges and the
    facts at it (`graph/graph_store.py`). A run is any list of such commands from any number of requests. */
module GraphRuns {
  import opened GraphModel
  import opened GraphState
  import opened Extraction
  import GraphRag

  type TaskId = nat

  /** `pending` holds, for each ingestion, the chunk whose entities are stored and whose edges are not yet;
      `sweeping` and `forgetting` the deletions that still have to remove edges or facts. */
  datatype System = System(graph: Graph, pending: map<TaskId, Batch>, sweeping: multiset<Id>,
                           forgetting: multiset<Id>)

  datatype Step =
    | PutEntities(task: TaskId, reply: Reply)
    | PutEdges(task: TaskId)
    | PostEntity(entity: Entity)
    | PostEdge(edge: Edge)
    | PostFact(fact: Fact)
    | ChangeEntity(x: Id, patch: Patch)
    | DropEntity(x: Id)
    | SweepEdges(x: Id)
    | SweepFacts(x: Id)
    | DropEdge(x: Id)

  const INITIAL := System(Graph([], [], []), map[], multiset{}, multiset{})

  /** Extraction and `add_entities_batch`; on success the task goes on to the edges of this chunk. */
  function StoreEntities(mt: Matcher, s: System, task: TaskId, reply: Reply): System {
    var extracted := Extracted(mt, reply);
    if task in s.pending || extracted.Err? then s
    else
      var (g, ok) := AddEntities(s.graph, extracted.value.entities);
      s.(graph := g, pending := if ok then s.pending[task := extracted.value] else s.pending)
  }

  /** `add_edges_batch`; whether it fails or not, this chunk is over. */
  function StoreEdges(s: System, task: TaskId): System {
    if task !in s.pending then s
    else s.(graph := AddEdges(s.graph, s.pending[task].edges).0, pending := s.pending - {task})
  }

  /** The first command of `delete_entity`; only a hit makes the other two follow. */
  function StartDelete(s: System, x: Id): System {
    var (xs, hit) := DeleteOne(EntityId, s.graph.entities, x);
    if hit then s.(graph := s.graph.(entities := xs), sweeping := s.sweeping + multiset{x}) else s
  }

  /** One atomic step. A step that is not possible now leaves the system as it is. */
  function Next(mt: Matcher, s: System, step: Step): System {
    match step
    case PutEntities(task, reply) => StoreEntities(mt, s, task, reply)
    case PutEdges(task) => StoreEdges(s, task)
    case PostEntity(entity) => s.(graph := AddEntities(s.graph, [entity]).0)
    case PostEdge(edge) => s.(graph := AddEdges(s.graph, [edge]).0)
    case PostFact(fact) => s.(graph := AddFacts(s.graph, [fact]).0)
    case ChangeEntity(x, patch) => s.(graph := UpdateEntity(s.graph, x, patch))
    case DropEntity(x) => StartDelete(s, x)
    case SweepEdges(x) =>
      if x !in s.sweeping then s
      else s.(graph := s.graph.(edges := Without(s.graph.edges, x)),
              sweeping := s.sweeping - multiset{x}, forgetting := s.forgetting + multiset{x})
    case SweepFacts(x) =>
      if x !in s.forgetting then s
      else s.(graph := s.graph.(facts := FactsNotAbout(s.graph.facts, x)), forgetting := s.forgetting - multiset{x})
    case DropEdge(x) => s.(graph := DeleteEdge(s.graph, x).0)
  }

  function RunFrom(mt: Matcher, s: System, steps: seq<Step>): System {
    if steps == [] then s else Next(mt, RunFrom(mt, s, steps[..|steps| - 1]), steps[|steps| - 1])
  }

  function Run(mt: Matcher, steps: seq<Step>): System {
    RunFrom(mt, INITIAL, steps)
  }

  // ---- Left alone, the commands of a request add up to the request ----

  /** A deletion that nothing interrupts is the cascade. */
  lemma UninterruptedDelete(mt: Matcher, s: System, x: Id)
    requires x !in s.sweeping && x !in s.forgetting
    ensures RunFrom(mt, s, [DropEntity(x), SweepEdges(x), SweepFacts(x)])
         == s.(graph := DeleteEntity(s.graph, x).0)
  {
    hide Without, FactsNotAbout, RunFrom, DeleteOne;
    RunThree(mt, s, DropEntity(x), SweepEdges(x), SweepFacts(x));
  }

  /** The two writes of a chunk that nothing interrupts are what a sequential ingestion does with it. */
  lemma UninterruptedIngest(mt: Matcher, s: System, task: TaskId, reply: Reply)
    requires task !in s.pending
    ensures RunFrom(mt, s, [PutEntities(task, reply), PutEdges(task)])
         == s.(graph := GraphRag.Ingest(mt, s.graph, [reply]).graph)
  {
    RunTwo(mt, s, PutEntities(task, reply), PutEdges(task));
    assert [reply][..0] == [];
    assert GraphRag.Ingest(mt, s.graph, []).graph == s.graph;
  }

  /** The requests that are one command are the requests of a sequential run. */
  lemma SingleCommands(mt: Matcher, s: System, entity: Entity, x: Id, patch: Patch, fact: Fact)
    ensures Next(mt, s, PostEntity(entity)) == s.(graph := GraphRag.Apply(mt, s.graph, GraphRag.CreateEntity(entity)))
    ensures Next(mt, s, PostFact(fact)) == s.(graph := GraphRag.Apply(mt, s.graph, GraphRag.CreateFact(fact)))
    ensures Next(mt, s, ChangeEntity(x, patch))
         == s.(graph := GraphRag.Apply(mt, s.graph, GraphRag.ChangeEntity(x, patch)))
    ensures Next(mt, s, DropEdge(x)) == s.(graph := GraphRag.Apply(mt, s.graph, GraphRag.RemoveEdge(x)))
  {
  }

  lemma RunTwo(mt: Matcher, s: System, a: Step, b: Step)
    ensures RunFrom(mt, s, [a, b]) == Next(mt, Next(mt, s, a), b)
  {
    assert [a, b][..1] == [a];
    assert [a][..0] == [];
    assert RunFrom(mt, s, []) == s;
    assert RunFrom(mt, s, [a]) == Next(mt, s, a);
  }

  lemma RunThree(mt: Matcher, s: System, a: Step, b: Step, c: Step)
    ensures RunFrom(mt, s, [a, b, c]) == Next(mt, Next(mt, Next(mt, s, a), b), c)
  {
    RunTwo(mt, s, a, b);
    assert [a, b, c][..2] == [a, b];
  }

  // ---- Integrity while requests are under way ----

  /** `x` is stored, or its deletion is still to remove the edges at it. */
  predicate Anchored(s: System, x: Id) {
    s.graph.Stores(x) || x in s.sweeping
  }

  /** No edge dangles but those a deletion under way will remove. */
  ghost predicate Settled(s: System) {
    forall e :: e in s.graph.edges ==> Anchored(s, e.source) && Anchored(s, e.target)
  }

  /** With no deletion under way, being settled is referential integrity. */
  lemma SettledAtRest(s: System)
    requires s.sweeping == multiset{}
    ensures Settled(s) <==> s.graph.Grounded()
  {
  }

  /** A batch insert takes document `i`: no id up to there is taken or repeated. */
  ghost predicate Accepted(edges: seq<Edge>, batch: seq<Edge>, i: nat)
    requires i < |batch|
  {
    && (forall j :: 0 <= j <= i ==> !HasKey(EdgeId, edges, batch[j].id))
    && (forall h, j :: 0 <= h < j <= i ==> batch[h].id != batch[j].id)
  }

  /** A batch insert stores `e` as one of its documents. */
  ghost predicate Takes(edges: seq<Edge>, batch: seq<Edge>, e: Edge) {
    exists i :: 0 <= i < |batch| && batch[i] == e && Accepted(edges, batch, i)
  }

  lemma TakesExactly(edges: seq<Edge>, batch: seq<Edge>, e: Edge)
    requires Distinct(EdgeId, edges)
    ensures e in InsertMany(EdgeId, edges, batch).0 <==> e in edges || Takes(edges, batch, e)
  {
    InsertManyFacts(EdgeId, edges, batch);
    var ys := InsertMany(EdgeId, edges, batch).0;
    var n := |ys| - |edges|;
    forall i | 0 <= i < |batch| ensures i < n <==> Accepted(edges, batch, i) {
      if i < n { TakenIsAccepted(edges, batch, ys, i); } else { RefusedIsNot(edges, batch, ys, i); }
    }
    if e in batch[..n] {
      var i :| 0 <= i < n && batch[i] == e;
      assert Accepted(edges, batch, i);
    }
  }

  lemma TakenIsAccepted(edges: seq<Edge>, batch: seq<Edge>, ys: seq<Edge>, i: nat)
    requires Distinct(EdgeId, ys) && i < |ys| - |edges| <= |batch| && ys == edges + batch[..|ys| - |edges|]
    ensures Accepted(edges, batch, i)
  {
    forall j | 0 <= j <= i ensures ys[|edges| + j] == batch[j] {}
    forall j, k | 0 <= j <= i && 0 <= k < |edges| ensures EdgeId(edges[k]) != batch[j].id {
      assert ys[k] == edges[k] && ys[|edges| + j] == batch[j];
    }
    forall h, j | 0 <= h < j <= i ensures batch[h].id != batch[j].id {
      assert ys[|edges| + h] == batch[h] && ys[|edges| + j] == batch[j];
    }
  }

  lemma RefusedIsNot(edges: seq<Edge>, batch: seq<Edge>, ys: seq<Edge>, i: nat)
    requires 0 <= |ys| - |edges| <= i < |batch| && ys == edges + batch[..|ys| - |edges|]
    requires HasKey(EdgeId, ys, batch[|ys| - |edges|].id)
    ensures !Accepted(edges, batch, i)
  {
    var n := |ys| - |edges|;
    var k :| 0 <= k < |ys| && EdgeId(ys[k]) == batch[n].id;
    if k >= |edges| { assert ys[k] == batch[k - |edges|]; }
    if k < |edges| { assert EdgeId(edges[k]) == batch[n].id; }
  }

  /** The edges a step is about to offer to the database. */
  function Offered(s: System, step: Step): seq<Edge> {
    match step
    case PutEdges(task) => if task in s.pending then s.pending[task].edges else []
    case PostEdge(edge) => [edge]
    case _ => []
  }

  /** The step is about to store an edge with an end that is neither stored nor being deleted. */
  ghost predicate Stray(s: System, step: Step) {
    exists e :: Takes(s.graph.edges, Offered(s, step), e) && !(Anchored(s, e.source) && Anchored(s, e.target))
  }

  lemma NextKeepsValid(mt: Matcher, s: System, step: Step)
    requires s.graph.Valid()
    ensures Next(mt, s, step).graph.Valid()
  {
    hide Extracted;
    var g := s.graph;
    match step
    case PutEntities(task, reply) =>
      if Extracted(mt, reply).Ok? { InsertManyFacts(EntityId, g.entities, Extracted(mt, reply).value.entities); }
    case PutEdges(task) => InsertManyFacts(EdgeId, g.edges, Offered(s, step));
    case PostEntity(entity) => InsertManyFacts(EntityId, g.entities, [entity]);
    case PostEdge(edge) => InsertManyFacts(EdgeId, g.edges, [edge]);
    case PostFact(fact) => InsertManyFacts(FactId, g.facts, [fact]);
    case ChangeEntity(x, patch) =>
    case DropEntity(x) => DeleteOneFacts(EntityId, g.entities, x);
    case SweepEdges(x) => FilterDistinct(EdgeId, e => !Touches(e, x), g.edges);
    case SweepFacts(x) => FilterDistinct(FactId, (f: Fact) => f.subject != x, g.facts);
    case DropEdge(x) => DeleteOneFacts(EdgeId, g.edges, x);
  }

  lemma {:induction false} RunValid(mt: Matcher, steps: seq<Step>)
    ensures Run(mt, steps).graph.Valid()
  {
    hide Next, Graph.Valid;
    if steps == [] {
      EmptySettled();
    } else {
      RunValid(mt, steps[..|steps| - 1]);
      NextKeepsValid(mt, Run(mt, steps[..|steps| - 1]), steps[|steps| - 1]);
    }
  }

  lemma EmptySettled()
    ensures INITIAL.graph.Valid() && Settled(INITIAL)
  {
  }

  // ---- What each step does to the anchors ----

  lemma HasKeyIff<T(!new)>(key: T -> Id, xs: seq<T>, k: Id)
    ensures HasKey(key, xs, k) <==> exists x :: x in xs && key(x) == k
  {
    if HasKey(key, xs, k) {
      var i :| 0 <= i < |xs| && key(xs[i]) == k;
      assert xs[i] in xs;
    }
  }

  /** Storing entities loses no anchor, and stores all of the batch if it succeeds. */
  lemma InsertKeepsKeys<T(!new)>(key: T -> Id, xs: seq<T>, batch: seq<T>, k: Id)
    requires Distinct(key, xs)
    ensures var (ys, ok) := InsertMany(key, xs, batch);
      && (HasKey(key, xs, k) ==> HasKey(key, ys, k))
      && (ok && HasKey(key, batch, k) ==> HasKey(key, ys, k))
  {
    var (ys, ok) := InsertMany(key, xs, batch);
    InsertManyFacts(key, xs, batch);
    HasKeyIff(key, xs, k);
    HasKeyIff(key, batch, k);
    HasKeyIff(key, ys, k);
  }

  lemma UpdateKeepsKeys(g: Graph, x: Id, p: Patch, k: Id)
    ensures UpdateEntity(g, x, p).Stores(k) <==> g.Stores(k)
  {
    var xs, ys := g.entities, UpdateEntity(g, x, p).entities;
    assert forall i :: 0 <= i < |xs| ==> EntityId(ys[i]) == EntityId(xs[i]);
    if HasKey(EntityId, xs, k) {
      var i :| 0 <= i < |xs| && EntityId(xs[i]) == k;
      assert EntityId(ys[i]) == k;
    }
    if HasKey(EntityId, ys, k) {
      var i :| 0 <= i < |ys| && EntityId(ys[i]) == k;
      assert EntityId(xs[i]) == k;
    }
  }

  /** No step but `DropEntity(x)` takes `x` out of the store. */
  lemma OnlyDropForgets(mt: Matcher, s: System, step: Step, x: Id)
    requires s.graph.Valid() && s.graph.Stores(x) && step != DropEntity(x)
    ensures Next(mt, s, step).graph.Stores(x)
  {
    hide Extracted;
    var g := s.graph;
    match step
    case PutEntities(task, reply) =>
      if Extracted(mt, reply).Ok? { InsertKeepsKeys(EntityId, g.entities, Extracted(mt, reply).value.entities, x); }
    case PostEntity(entity) => InsertKeepsKeys(EntityId, g.entities, [entity], x);
    case ChangeEntity(y, patch) => UpdateKeepsKeys(g, y, patch, x);
    case DropEntity(y) =>
      DeleteOneFacts(EntityId, g.entities, y);
      HasKeyIff(EntityId, g.entities, x);
      HasKeyIff(EntityId, StartDelete(s, y).graph.entities, x);
    case _ =>
  }

  /** No step but `SweepEdges(x)` takes the anchor of `x` away. */
  lemma NextKeepsAnchor(mt: Matcher, s: System, step: Step, x: Id)
    requires s.graph.Valid() && Anchored(s, x) && step != SweepEdges(x)
    ensures Anchored(Next(mt, s, step), x)
  {
    hide Extracted;
    if step == DropEntity(x) {
      DeleteOneFacts(EntityId, s.graph.entities, x);
    } else if s.graph.Stores(x) {
      OnlyDropForgets(mt, s, step, x);
    }
  }

  // ---- Exactly which runs keep integrity ----

  lemma EdgesAfter(mt: Matcher, s: System, step: Step, e: Edge)
    requires s.graph.Valid() && e in Next(mt, s, step).graph.edges
    ensures e in s.graph.edges || Takes(s.graph.edges, Offered(s, step), e)
    ensures step.SweepEdges? && step.x in s.sweeping ==> !Touches(e, step.x)
  {
    hide Extracted, Takes;
    if step.PutEdges? || step.PostEdge? { TakesExactly(s.graph.edges, Offered(s, step), e); }
  }

  lemma TakenIsStored(mt: Matcher, s: System, step: Step, e: Edge)
    requires s.graph.Valid() && Takes(s.graph.edges, Offered(s, step), e)
    ensures e in Next(mt, s, step).graph.edges
    ensures forall x :: Anchored(Next(mt, s, step), x) <==> Anchored(s, x)
  {
    TakesExactly(s.graph.edges, Offered(s, step), e);
  }

  /** A step leaves a settled system settled exactly when it is not stray. */
  lemma NextSettledIff(mt: Matcher, s: System, step: Step)
    requires s.graph.Valid() && Settled(s)
    ensures Settled(Next(mt, s, step)) <==> !Stray(s, step)
  {
    hide Next, Anchored, Takes, Graph.Valid;
    var s' := Next(mt, s, step);
    if Stray(s, step) {
      var e :| Takes(s.graph.edges, Offered(s, step), e) && !(Anchored(s, e.source) && Anchored(s, e.target));
      TakenIsStored(mt, s, step, e);
    } else {
      forall e | e in s'.graph.edges ensures Anchored(s', e.source) && Anchored(s', e.target) {
        EdgesAfter(mt, s, step, e);
        EndKeepsAnchor(mt, s, step, e, e.source);
        EndKeepsAnchor(mt, s, step, e, e.target);
      }
    }
  }

  lemma EndKeepsAnchor(mt: Matcher, s: System, step: Step, e: Edge, x: Id)
    requires s.graph.Valid() && Anchored(s, x) && Touches(e, x)
    requires step.SweepEdges? && step.x in s.sweeping ==> !Touches(e, step.x)
    ensures Anchored(Next(mt, s, step), x)
  {
    hide Anchored, Graph.Valid;
    if step != SweepEdges(x) { NextKeepsAnchor(mt, s, step, x); }
  }

  /** In a run, no edge ever dangles, but those a deletion under way will remove, exactly when no step is
      stray: neither a chunk's edges nor a hand-made edge is stored with an end that is gone. */
  lemma {:induction false} IntegrityExact(mt: Matcher, steps: seq<Step>)
    ensures (forall k :: 0 <= k <= |steps| ==> Settled(Run(mt, steps[..k])))
       <==> (forall k :: 0 <= k < |steps| ==> !Stray(Run(mt, steps[..k]), steps[k]))
  {
    hide Next, Settled, Stray;
    if steps == [] {
      EmptySettled();
    } else {
      var n := |steps| - 1;
      var init := steps[..n];
      IntegrityExact(mt, init);
      assert forall k :: 0 <= k <= n ==> init[..k] == steps[..k];
      assert steps[..n + 1] == steps;
      if Settled(Run(mt, init)) {
        RunValid(mt, init);
        NextSettledIff(mt, Run(mt, init), steps[n]);
      }
      assert init[..n] == init;
    }
  }

  // ---- A stray chunk lost an entity between its two writes ----

  ghost predicate IsEnd(b: Batch, x: Id) {
    exists e :: e in b.edges && Touches(e, x)
  }

  /** `x`, an end of an edge of a chunk whose edges are not yet stored, is deleted. */
  ghost predicate DeletedBetween(s: System, step: Step, task: TaskId, x: Id) {
    step == DropEntity(x) && s.graph.Stores(x) && task in s.pending && IsEnd(s.pending[task], x)
  }

  /** A chunk becomes pending with all ends of its edges stored. */
  lemma PendingStartsWhole(mt: Matcher, s: System, step: Step, task: TaskId, x: Id)
    requires s.graph.Valid() && task in Next(mt, s, step).pending && IsEnd(Next(mt, s, step).pending[task], x)
    ensures (task in s.pending && s.pending[task] == Next(mt, s, step).pending[task])
         || Next(mt, s, step).graph.Stores(x)
  {
    hide Extracted, SelfContained;
    if step.PutEntities? && step.task == task && task !in s.pending {
      var b := Extracted(mt, step.reply).value;
      ExtractionSelfContained(mt, step.reply);
      EndIsExtracted(b, x);
      InsertKeepsKeys(EntityId, s.graph.entities, b.entities, x);
    }
  }

  lemma EndIsExtracted(b: Batch, x: Id)
    requires SelfContained(b) && IsEnd(b, x)
    ensures HasKey(EntityId, b.entities, x)
  {
    HasKeyIff(EntityId, b.entities, x);
  }

  /** If an end of a pending chunk is not stored, it was deleted while the chunk was pending. */
  lemma {:induction false} LostWasDeleted(mt: Matcher, steps: seq<Step>, task: TaskId, x: Id) returns (j: nat)
    requires task in Run(mt, steps).pending && IsEnd(Run(mt, steps).pending[task], x)
    requires !Run(mt, steps).graph.Stores(x)
    ensures j < |steps| && DeletedBetween(Run(mt, steps[..j]), steps[j], task, x)
    ensures forall k :: j <= k <= |steps| ==>
      task in Run(mt, steps[..k]).pending && Run(mt, steps[..k]).pending[task] == Run(mt, steps).pending[task]
  {
    hide Next, Graph.Valid, Graph.Stores, IsEnd;
    assert steps != [];
    var n := |steps| - 1;
    var init, last := steps[..n], steps[n];
    RunValid(mt, init);
    PendingStartsWhole(mt, Run(mt, init), last, task, x);
    assert steps[..n + 1] == steps;
    if Run(mt, init).graph.Stores(x) {
      if last != DropEntity(x) { OnlyDropForgets(mt, Run(mt, init), last, x); }
      j := n;
    } else {
      j := LostWasDeleted(mt, init, task, x);
      assert forall k :: 0 <= k <= n ==> init[..k] == steps[..k];
    }
  }

  /** When the edges of a chunk are about to dangle, one of their ends was deleted, and its deletion got as
      far as its edges, after the chunk's entities were stored and before its edges are. */
  lemma StrayWasDeleted(mt: Matcher, steps: seq<Step>, task: TaskId) returns (x: Id, j: nat)
    requires Stray(Run(mt, steps), PutEdges(task))
    ensures j < |steps| && DeletedBetween(Run(mt, steps[..j]), steps[j], task, x)
    ensures !Anchored(Run(mt, steps), x)
    ensures forall k :: j <= k <= |steps| ==>
      task in Run(mt, steps[..k]).pending && Run(mt, steps[..k]).pending[task] == Run(mt, steps).pending[task]
  {
    hide Run, Accepted;
    var s := Run(mt, steps);
    var e :| Takes(s.graph.edges, Offered(s, PutEdges(task)), e) && !(Anchored(s, e.source) && Anchored(s, e.target));
    x := if Anchored(s, e.source) then e.target else e.source;
    assert Touches(e, x) && e in s.pending[task].edges;
    j := LostWasDeleted(mt, steps, task, x);
  }

  lemma StrayOnlyByOverlap(mt: Matcher, steps: seq<Step>, i: nat)
    requires i < |steps| && Stray(Run(mt, steps[..i]), steps[i])
    ensures steps[i].PostEdge? || exists j: nat, t, x :: j < i && DeletedBetween(Run(mt, steps[..j]), steps[j], t, x)
  {
    hide Run, Takes, DeletedBetween;
    OfferedBy(Run(mt, steps[..i]), steps[i]);
    if !steps[i].PostEdge? {
      var x, j := StrayWasDeleted(mt, steps[..i], steps[i].task);
      assert steps[..i][..j] == steps[..j];
      assert DeletedBetween(Run(mt, steps[..j]), steps[j], steps[i].task, x);
    }
  }

  /** Integrity over runs of overlapping requests: with no edge added by hand, and no entity deleted while it
      is an end of a chunk that is not fully stored, no edge ever dangles once deletions are through. */
  lemma IntegrityWithoutOverlap(mt: Matcher, steps: seq<Step>, k: nat)
    requires forall i :: 0 <= i < |steps| ==> !steps[i].PostEdge?
    requires forall i, t, x :: 0 <= i < |steps| ==> !DeletedBetween(Run(mt, steps[..i]), steps[i], t, x)
    requires k <= |steps|
    ensures Settled(Run(mt, steps[..k]))
    ensures Run(mt, steps[..k]).sweeping == multiset{} ==> Run(mt, steps[..k]).graph.Grounded()
  {
    hide Run, Settled, Takes, DeletedBetween, Graph.Grounded;
    forall i | 0 <= i < |steps| ensures !Stray(Run(mt, steps[..i]), steps[i]) {
      if Stray(Run(mt, steps[..i]), steps[i]) { StrayOnlyByOverlap(mt, steps, i); }
    }
    IntegrityExact(mt, steps);
    if Run(mt, steps[..k]).sweeping == multiset{} { SettledAtRest(Run(mt, steps[..k])); }
  }

  lemma OfferedBy(s: System, step: Step)
    requires Stray(s, step)
    ensures step.PutEdges? || step.PostEdge?
  {
  }

  /** Why the overlap matters: any extraction with distinct entities and at least one edge, and a deletion of
      an end of its first edge between the two writes, leave an edge that dangles for good. */
  lemma DeleteBetweenWritesStrands(mt: Matcher, task: TaskId, reply: Reply, x: Id)
    requires Extracted(mt, reply).Ok? && Distinct(EntityId, Extracted(mt, reply).value.entities)
    requires var edges := Extracted(mt, reply).value.edges; edges != [] && Touches(edges[0], x)
    ensures var s := Run(mt, [PutEntities(task, reply), DropEntity(x), SweepEdges(x), PutEdges(task)]);
      s.sweeping == multiset{} && s.pending == map[] && !s.graph.Grounded()
  {
    hide Extracted, Next, Graph.Grounded;
    var b := Extracted(mt, reply).value;
    ExtractionSelfContained(mt, reply);
    assert b.edges[0] in b.edges;
    EndIsExtracted(b, x);
    var s1 := INITIAL.(graph := Graph(b.entities, [], []), pending := map[task := b]);
    var s2 := StartDelete(s1, x);
    var s3 := s2.(sweeping := multiset{}, forgetting := multiset{x});
    ChunkStored(mt, task, reply);
    DeleteOneFacts(EntityId, b.entities, x);
    DroppedThenSwept(mt, s1, x);
    StrandedBy(s3, task, b, x);
    RunThree(mt, INITIAL, PutEntities(task, reply), DropEntity(x), SweepEdges(x));
    var steps := [PutEntities(task, reply), DropEntity(x), SweepEdges(x), PutEdges(task)];
    assert steps[..3] == [PutEntities(task, reply), DropEntity(x), SweepEdges(x)];
    assert Run(mt, steps) == Next(mt, s3, PutEdges(task)) == StoreEdges(s3, task) by { PutsEdges(mt, s3, task); }
  }

  lemma PutsEdges(mt: Matcher, s: System, task: TaskId)
    ensures Next(mt, s, PutEdges(task)) == StoreEdges(s, task)
  {
  }

  lemma ChunkStored(mt: Matcher, task: TaskId, reply: Reply)
    requires Extracted(mt, reply).Ok? && Distinct(EntityId, Extracted(mt, reply).value.entities)
    ensures var b := Extracted(mt, reply).value;
      Next(mt, INITIAL, PutEntities(task, reply))
        == INITIAL.(graph := Graph(b.entities, [], []), pending := map[task := b])
  {
    hide Extracted, Distinct;
    var b := Extracted(mt, reply).value;
    assert [] + b.entities == b.entities;
    InsertManyFresh(EntityId, [], b.entities);
  }

  lemma DroppedThenSwept(mt: Matcher, s: System, x: Id)
    requires s.graph.edges == [] && s.sweeping == s.forgetting == multiset{} && s.graph.Valid() && s.graph.Stores(x)
    ensures var s2 := StartDelete(s, x);
      && Next(mt, s, DropEntity(x)) == s2 && s2.pending == s.pending && !s2.graph.Stores(x)
      && Next(mt, s2, SweepEdges(x)) == s2.(sweeping := multiset{}, forgetting := multiset{x})
      && s2.graph.edges == []
  {
    hide DeleteOne;
    DeleteOneFacts(EntityId, s.graph.entities, x);
    HasKeyIff(EntityId, StartDelete(s, x).graph.entities, x);
    assert Without([], x) == [];
  }

  lemma StrandedBy(s: System, task: TaskId, b: Batch, x: Id)
    requires s.pending == map[task := b] && b.edges != [] && Touches(b.edges[0], x)
    requires s.graph.edges == [] && !s.graph.Stores(x)
    ensures StoreEdges(s, task).pending == map[] && StoreEdges(s, task).sweeping == s.sweeping
    ensures !StoreEdges(s, task).graph.Grounded()
  {
    hide InsertMany;
    assert Accepted([], b.edges, 0);
    assert Takes([], b.edges, b.edges[0]);
    TakesExactly([], b.edges, b.edges[0]);
    assert b.edges[0] in StoreEdges(s, task).graph.edges;
  }
}
