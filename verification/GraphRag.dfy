/** `GraphRAG.build_from_documents`, and referential integrity over whole runs of the graph API. */
module GraphRag {
  import opened GraphModel
  import opened GraphState
  import opened GraphStorage
  import opened Extraction
  import RagChunker

  // ---- Ingestion as a function of the extractor's replies ----

  /** What an ingestion leaves behind. `ok` is false when an exception ended it early; `got` is what it
      would return. */
  datatype Progress = Progress(graph: Graph, got: SubGraph, ok: bool)

  /** Persist one extracted batch: entities first, then edges; the first failure ends the ingestion. */
  function Persist(p: Progress, b: Batch): Progress {
    var (g1, ok1) := AddEntities(p.graph, b.entities);
    if !ok1 then Progress(g1, p.got, false)
    else
      var (g2, ok2) := AddEdges(g1, b.edges);
      if !ok2 then Progress(g2, p.got, false)
      else Progress(g2, SubGraph(p.got.entities + b.entities, p.got.edges + b.edges), true)
  }

  function Absorb(mt: Matcher, p: Progress, reply: Reply): Progress {
    if !p.ok then p
    else
      match Extracted(mt, reply)
      case Err(_) => p.(ok := false)
      case Ok(b) => Persist(p, b)
  }

  function Ingest(mt: Matcher, g: Graph, replies: seq<Reply>): Progress {
    if replies == [] then Progress(g, SubGraph([], []), true)
    else Absorb(mt, Ingest(mt, g, replies[..|replies| - 1]), replies[|replies| - 1])
  }

  /** All chunks of all texts, in order. */
  function AllChunks(texts: seq<string>, size: nat): seq<string>
    requires size >= 1
  {
    if texts == [] then []
    else AllChunks(texts[..|texts| - 1], size) + RagChunker.Split(texts[|texts| - 1], size)
  }

  /** The model's reply to the `i`-th extraction request, which may differ between equal chunks. */
  type Oracle = (nat, string) -> Reply

  function Replies(model: Oracle, chunks: seq<string>): (r: seq<Reply>)
    ensures |r| == |chunks| && forall i :: 0 <= i < |chunks| ==> r[i] == model(i, chunks[i])
  {
    seq(|chunks|, i requires 0 <= i < |chunks| => model(i, chunks[i]))
  }

  class GraphRAG {
    const store: GraphStore
    const extractor: EntityExtractor

    constructor (store: GraphStore, extractor: EntityExtractor)
      ensures this.store == store && this.extractor == extractor
    {
      this.store, this.extractor := store, extractor;
    }

    /** One turn of the chunk loop. */
    method IngestChunk(reply: Reply, ghost before: Progress, got: SubGraph) returns (got': SubGraph, ok: bool)
      requires store.Valid() && before == Progress(store.Contents(), got, true)
      modifies store
      ensures store.Valid()
      ensures Progress(store.Contents(), got', ok) == Absorb(extractor.matcher, before, reply)
    {
      var extracted := extractor.Extract(reply);
      got' := got;
      if extracted.Err? { return got, false; }
      var batch := extracted.value;
      ok := store.AddEntitiesBatch(batch.entities);
      if !ok { return; }
      ok := store.AddEdgesBatch(batch.edges);
      if !ok { return; }
      got' := SubGraph(got.entities + batch.entities, got.edges + batch.edges);
    }

    method BuildFromDocuments(texts: seq<string>, chunkSize: nat, model: Oracle) returns (got: SubGraph, ok: bool)
      requires chunkSize >= 1 && store.Valid()
      modifies store
      ensures store.Valid()
      ensures Progress(store.Contents(), got, ok)
           == Ingest(extractor.matcher, old(store.Contents()), Replies(model, AllChunks(texts, chunkSize)))
    {
      hide Absorb, Ingest, AllChunks, GraphStore.Valid;
      IngestNone(extractor.matcher, store.Contents(), model, texts, chunkSize);
      var mt := extractor.matcher;
      ghost var g0 := store.Contents();
      ghost var all := Replies(model, AllChunks(texts, chunkSize));
      got, ok := SubGraph([], []), true;
      var calls: nat := 0;
      for i := 0 to |texts|
        invariant store.Valid() && calls == |AllChunks(texts[..i], chunkSize)|
        invariant Progress(store.Contents(), got, true)
               == Ingest(mt, g0, Replies(model, AllChunks(texts[..i], chunkSize)))
      {
        ghost var earlier := AllChunks(texts[..i], chunkSize);
        var chunks := RagChunker.ChunkText(texts[i], chunkSize);
        AllChunksStep(texts, chunkSize, i);
        assert earlier + chunks[..0] == earlier;
        for j := 0 to |chunks|
          invariant store.Valid() && calls == |earlier| + j
          invariant Progress(store.Contents(), got, true) == Ingest(mt, g0, Replies(model, earlier + chunks[..j]))
        {
          var reply := model(calls, chunks[j]);
          IngestNext(mt, g0, model, earlier + chunks[..j], chunks[j]);
          assert earlier + chunks[..j] + [chunks[j]] == earlier + chunks[..j + 1];
          got, ok := IngestChunk(reply, Progress(store.Contents(), got, true), got);
          calls := calls + 1;
          if !ok {
            ChunksPrefix(texts, chunkSize, i + 1);
            IngestStopped(mt, g0, model, earlier + chunks[..j + 1], AllChunks(texts, chunkSize));
            return;
          }
        }
        assert earlier + chunks[..|chunks|] == earlier + chunks;
      }
      assert texts[..|texts|] == texts;
    }
  }

  lemma IngestNone(mt: Matcher, g: Graph, model: Oracle, texts: seq<string>, size: nat)
    requires size >= 1
    ensures AllChunks(texts[..0], size) == []
    ensures Ingest(mt, g, Replies(model, [])) == Progress(g, SubGraph([], []), true)
  {
  }

  lemma AllChunksStep(texts: seq<string>, size: nat, i: nat)
    requires size >= 1 && i < |texts|
    ensures AllChunks(texts[..i + 1], size) == AllChunks(texts[..i], size) + RagChunker.Split(texts[i], size)
  {
    assert texts[..i + 1][..i] == texts[..i];
  }

  lemma IngestNext(mt: Matcher, g: Graph, model: Oracle, chunks: seq<string>, chunk: string)
    ensures Ingest(mt, g, Replies(model, chunks + [chunk]))
         == Absorb(mt, Ingest(mt, g, Replies(model, chunks)), model(|chunks|, chunk))
  {
    var replies := Replies(model, chunks + [chunk]);
    assert replies[..|chunks|] == Replies(model, chunks);
  }

  lemma {:induction false} ChunksPrefix(texts: seq<string>, size: nat, i: nat)
    requires size >= 1 && i <= |texts|
    ensures AllChunks(texts[..i], size) <= AllChunks(texts, size)
    decreases |texts|
  {
    if i < |texts| {
      ChunksPrefix(texts[..|texts| - 1], size, i);
      assert texts[..|texts| - 1][..i] == texts[..i];
    } else {
      assert texts[..i] == texts;
    }
  }

  /** Once an ingestion has failed, the remaining chunks change nothing. */
  lemma {:induction false} IngestStopped(mt: Matcher, g: Graph, model: Oracle, done: seq<string>, all: seq<string>)
    requires done <= all && !Ingest(mt, g, Replies(model, done)).ok
    ensures Ingest(mt, g, Replies(model, all)) == Ingest(mt, g, Replies(model, done))
    decreases |all|
  {
    if |done| < |all| {
      var init, last := all[..|all| - 1], all[|all| - 1];
      IngestStopped(mt, g, model, done, init);
      IngestNext(mt, g, model, init, last);
      assert init + [last] == all;
    } else {
      assert done == all;
    }
  }

  /** The chunks of the `i`-th text, and of no other, come after those of the texts before it. */
  lemma {:induction false} ChunksTextByText(texts: seq<string>, size: nat, i: nat)
    requires size >= 1 && i < |texts|
    ensures AllChunks(texts, size)
         == AllChunks(texts[..i], size) + RagChunker.Split(texts[i], size) + AllChunks(texts[i + 1..], size)
    decreases |texts|
  {
    var n := |texts| - 1;
    if i < n {
      ChunksTextByText(texts[..n], size, i);
      assert texts[..n][..i] == texts[..i];
      assert texts[i + 1..][..n - i - 1] == texts[..n][i + 1..];
    }
  }

  // ---- What an ingestion leaves, in terms of the replies ----

  /** The entities extracted from these replies, in order. */
  function EntitiesFrom(mt: Matcher, replies: seq<Reply>): seq<Entity> {
    if replies == [] then []
    else
      var last := Extracted(mt, replies[|replies| - 1]);
      EntitiesFrom(mt, replies[..|replies| - 1]) + (if last.Ok? then last.value.entities else [])
  }

  function EdgesFrom(mt: Matcher, replies: seq<Reply>): seq<Edge> {
    if replies == [] then []
    else
      var last := Extracted(mt, replies[|replies| - 1]);
      EdgesFrom(mt, replies[..|replies| - 1]) + (if last.Ok? then last.value.edges else [])
  }

  /** Every extraction succeeded, and no id among those stored and those extracted is there twice. */
  ghost predicate AllFits(mt: Matcher, g: Graph, replies: seq<Reply>) {
    && (forall i :: 0 <= i < |replies| ==> Extracted(mt, replies[i]).Ok?)
    && Distinct(EntityId, g.entities + EntitiesFrom(mt, replies))
    && Distinct(EdgeId, g.edges + EdgesFrom(mt, replies))
  }

  lemma DistinctPrefix<T>(key: T -> Id, xs: seq<T>, ys: seq<T>)
    requires Distinct(key, xs + ys)
    ensures Distinct(key, xs)
  {
    forall i | 0 <= i < |xs| ensures (xs + ys)[i] == xs[i] {}
  }

  /** A batch goes in whole exactly when it brings no id twice. */
  lemma InsertWholeIff<T>(key: T -> Id, xs: seq<T>, batch: seq<T>)
    requires Distinct(key, xs)
    ensures InsertMany(key, xs, batch).1 <==> Distinct(key, xs + batch)
    ensures InsertMany(key, xs, batch).1 ==> InsertMany(key, xs, batch).0 == xs + batch
  {
    InsertManyFacts(key, xs, batch);
    if Distinct(key, xs + batch) { InsertManyFresh(key, xs, batch); }
  }

  /** The law of a chunk that follows an ingestion which is still going. */
  lemma PersistExactly(p: Progress, b: Batch)
    requires p.graph.Valid() && p.ok
    ensures var q := Persist(p, b);
      && (q.ok <==> Distinct(EntityId, p.graph.entities + b.entities) && Distinct(EdgeId, p.graph.edges + b.edges))
      && (q.ok ==>
           && q.graph == p.graph.(entities := p.graph.entities + b.entities, edges := p.graph.edges + b.edges)
           && q.got == SubGraph(p.got.entities + b.entities, p.got.edges + b.edges))
  {
    hide InsertMany, Distinct;
    InsertWholeIff(EntityId, p.graph.entities, b.entities);
    InsertWholeIff(EdgeId, p.graph.edges, b.edges);
  }

  /** An ingestion goes through exactly when every extraction succeeds and all ids are new and distinct; it
      has then stored, and returns, all that was extracted, in order. */
  lemma {:induction false} IngestExactly(mt: Matcher, g: Graph, replies: seq<Reply>)
    requires g.Valid()
    ensures var p := Ingest(mt, g, replies);
      && (p.ok <==> AllFits(mt, g, replies))
      && (p.ok ==>
           && p.got == SubGraph(EntitiesFrom(mt, replies), EdgesFrom(mt, replies))
           && p.graph == g.(entities := g.entities + p.got.entities, edges := g.edges + p.got.edges))
  {
    hide Persist, Extracted, Distinct;
    if replies == [] {
      assert g.entities + [] == g.entities && g.edges + [] == g.edges;
    } else {
      var n := |replies| - 1;
      var init, last := replies[..n], Extracted(mt, replies[n]);
      IngestExactly(mt, g, init);
      IngestReturnsWhatItStored(mt, g, init);
      FitsStep(mt, g, replies);
      var p := Ingest(mt, g, init);
      if p.ok && last.Ok? { PersistExactly(p, last.value); }
    }
  }

  lemma FitsStep(mt: Matcher, g: Graph, replies: seq<Reply>)
    requires replies != []
    ensures var init, last := replies[..|replies| - 1], Extracted(mt, replies[|replies| - 1]);
      var es, ds := g.entities + EntitiesFrom(mt, init), g.edges + EdgesFrom(mt, init);
      && (AllFits(mt, g, replies) <==> (
            && AllFits(mt, g, init) && last.Ok?
            && Distinct(EntityId, es + last.value.entities) && Distinct(EdgeId, ds + last.value.edges)))
      && (last.Ok? ==>
            && es + last.value.entities == g.entities + EntitiesFrom(mt, replies)
            && ds + last.value.edges == g.edges + EdgesFrom(mt, replies))
  {
    hide Extracted, Distinct;
    var n := |replies| - 1;
    var init, last := replies[..n], Extracted(mt, replies[n]);
    if last.Ok? {
      var es, ds := g.entities + EntitiesFrom(mt, init), g.edges + EdgesFrom(mt, init);
      assert es + last.value.entities == g.entities + EntitiesFrom(mt, replies);
      assert ds + last.value.edges == g.edges + EdgesFrom(mt, replies);
      if Distinct(EntityId, es + last.value.entities) { DistinctPrefix(EntityId, es, last.value.entities); }
      if Distinct(EdgeId, ds + last.value.edges) { DistinctPrefix(EdgeId, ds, last.value.edges); }
    }
  }

  /** What the batch at which an ingestion failed has left: the entities before the first clash, and the
      edges before the first clash only when all entities went in. */
  ghost predicate CutShort(before: Graph, b: Batch, after: Graph) {
    && after.facts == before.facts
    && ((Appended(EntityId, before.entities, b.entities, after.entities, false) && after.edges == before.edges)
     || (Appended(EntityId, before.entities, b.entities, after.entities, true)
         && Appended(EdgeId, before.edges, b.edges, after.edges, false)))
  }

  /** A failed ingestion stopped at one reply: all before it went through, and it raised or was cut short. */
  lemma {:induction false} IngestStopsAt(mt: Matcher, g: Graph, replies: seq<Reply>) returns (n: nat)
    requires g.Valid() && !Ingest(mt, g, replies).ok
    ensures n < |replies| && Ingest(mt, g, replies[..n]).ok
    ensures match Extracted(mt, replies[n])
      case Err(_) => Ingest(mt, g, replies).graph == Ingest(mt, g, replies[..n]).graph
      case Ok(b) => CutShort(Ingest(mt, g, replies[..n]).graph, b, Ingest(mt, g, replies).graph)
    decreases |replies|
  {
    hide Extracted, Persist, CutShort;
    var m := |replies| - 1;
    var init := replies[..m];
    if Ingest(mt, g, init).ok {
      n := m;
      IngestReturnsWhatItStored(mt, g, init);
      if Extracted(mt, replies[m]).Ok? { PersistCut(Ingest(mt, g, init), Extracted(mt, replies[m]).value); }
    } else {
      n := IngestStopsAt(mt, g, init);
      assert init[..n] == replies[..n];
    }
  }

  lemma PersistCut(p: Progress, b: Batch)
    requires p.graph.Valid() && p.ok
    ensures !Persist(p, b).ok ==> CutShort(p.graph, b, Persist(p, b).graph)
  {
    hide Appended, InsertMany;
    AddEntitiesFrame(p.graph, b.entities);
    var (g1, ok1) := AddEntities(p.graph, b.entities);
    if ok1 {
      AddEdgesFrame(g1, b.edges) by { StillValid(p.graph, b.entities); }
    }
  }

  lemma StillValid(g: Graph, batch: seq<Entity>)
    requires g.Valid()
    ensures AddEntities(g, batch).0.Valid()
  {
    AddEntitiesFrame(g, batch);
  }

  // ---- What ingestion keeps ----

  lemma PersistKeepsGrounded(p: Progress, b: Batch)
    requires p.graph.Valid() && p.graph.Grounded() && SelfContained(b)
    ensures Persist(p, b).graph.Valid() && Persist(p, b).graph.Grounded()
  {
    AddEntitiesKeepsGrounded(p.graph, b.entities);
    var (g1, ok1) := AddEntities(p.graph, b.entities);
    if ok1 {
      forall e | e in b.edges ensures g1.Stores(e.source) && g1.Stores(e.target) {
        var s :| s in b.entities && s.id == e.source;
        var t :| t in b.entities && t.id == e.target;
        assert g1.Stores(s.id) && g1.Stores(t.id);
      }
      AddEdgesKeepsGrounded(g1, b.edges);
    }
  }

  /** Whatever the model replies, and wherever the ingestion stops, no stored edge dangles. */
  lemma {:induction false} IngestKeepsGrounded(mt: Matcher, g: Graph, replies: seq<Reply>)
    requires g.Valid() && g.Grounded()
    ensures Ingest(mt, g, replies).graph.Valid() && Ingest(mt, g, replies).graph.Grounded()
  {
    hide Persist, Extracted;
    if replies != [] {
      var reply := replies[|replies| - 1];
      IngestKeepsGrounded(mt, g, replies[..|replies| - 1]);
      ExtractionSelfContained(mt, reply);
      var p := Ingest(mt, g, replies[..|replies| - 1]);
      if p.ok && Extracted(mt, reply).Ok? {
        PersistKeepsGrounded(p, Extracted(mt, reply).value);
      }
    }
  }

  lemma PersistConserves(g: Graph, p: Progress, b: Batch)
    requires p.graph.Valid() && p.ok
    requires p.graph == g.(entities := g.entities + p.got.entities, edges := g.edges + p.got.edges)
    ensures Persist(p, b).ok ==> var q := Persist(p, b);
      q.graph.Valid() && q.graph == g.(entities := g.entities + q.got.entities, edges := g.edges + q.got.edges)
  {
    InsertManyFacts(EntityId, p.graph.entities, b.entities);
    InsertManyFacts(EdgeId, p.graph.edges, b.edges);
    assert g.entities + p.got.entities + b.entities == g.entities + (p.got.entities + b.entities);
    assert g.edges + p.got.edges + b.edges == g.edges + (p.got.edges + b.edges);
  }

  /** An ingestion that finishes has added exactly what it returns, after what was there, in order. */
  lemma {:induction false} IngestReturnsWhatItStored(mt: Matcher, g: Graph, replies: seq<Reply>)
    requires g.Valid()
    ensures var p := Ingest(mt, g, replies);
      p.ok ==>
        && p.graph.Valid()
        && p.graph == g.(entities := g.entities + p.got.entities, edges := g.edges + p.got.edges)
  {
    hide Persist, Extracted;
    if replies != [] {
      IngestReturnsWhatItStored(mt, g, replies[..|replies| - 1]);
      var p := Ingest(mt, g, replies[..|replies| - 1]);
      if p.ok && Extracted(mt, replies[|replies| - 1]).Ok? {
        PersistConserves(g, p, Extracted(mt, replies[|replies| - 1]).value);
      }
    }
  }

  // ---- Whole runs ----

  /** The writes a client can make, except adding an edge by hand. */
  datatype Command =
    | CreateEntity(entity: Entity)
    | ChangeEntity(x: Id, patch: Patch)
    | RemoveEntity(x: Id)
    | RemoveEdge(x: Id)
    | CreateFact(fact: Fact)
    | IngestDocuments(replies: seq<Reply>)

  function Apply(mt: Matcher, g: Graph, c: Command): Graph {
    match c
    case CreateEntity(e) => AddEntities(g, [e]).0
    case ChangeEntity(x, p) => UpdateEntity(g, x, p)
    case RemoveEntity(x) => DeleteEntity(g, x).0
    case RemoveEdge(x) => DeleteEdge(g, x).0
    case CreateFact(f) => AddFacts(g, [f]).0
    case IngestDocuments(replies) => Ingest(mt, g, replies).graph
  }

  function Run(mt: Matcher, commands: seq<Command>): Graph {
    if commands == [] then Graph([], [], [])
    else Apply(mt, Run(mt, commands[..|commands| - 1]), commands[|commands| - 1])
  }

  lemma ApplyKeepsGrounded(mt: Matcher, g: Graph, c: Command)
    requires g.Valid() && g.Grounded()
    ensures Apply(mt, g, c).Valid() && Apply(mt, g, c).Grounded()
  {
    hide Graph.Valid, Graph.Grounded, AddEntities, UpdateEntity, DeleteEntity, DeleteEdge, AddFacts, Ingest;
    match c
    case CreateEntity(e) => AddEntitiesKeepsGrounded(g, [e]);
    case ChangeEntity(x, p) => UpdateEntityKeepsGrounded(g, x, p);
    case RemoveEntity(x) => DeleteEntityKeepsGrounded(g, x);
    case RemoveEdge(x) => DeleteEdgeKeepsGrounded(g, x);
    case CreateFact(f) => AddFactsKeepsGrounded(g, [f]);
    case IngestDocuments(replies) => IngestKeepsGrounded(mt, g, replies);
  }

  lemma AddFactsKeepsGrounded(g: Graph, batch: seq<Fact>)
    requires g.Valid() && g.Grounded()
    ensures AddFacts(g, batch).0.Valid() && AddFacts(g, batch).0.Grounded()
  {
    InsertManyFacts(FactId, g.facts, batch);
    assert forall x :: g.Stores(x) ==> AddFacts(g, batch).0.Stores(x);
  }

  /** From an empty store, no run of these writes, with any model replies, leaves a dangling edge. */
  lemma {:induction false} ReferentialIntegrity(mt: Matcher, commands: seq<Command>)
    ensures Run(mt, commands).Valid() && Run(mt, commands).Grounded()
  {
    hide Graph.Valid, Graph.Grounded, Apply;
    if commands == [] {
      EmptyGrounded();
    } else {
      ReferentialIntegrity(mt, commands[..|commands| - 1]);
      ApplyKeepsGrounded(mt, Run(mt, commands[..|commands| - 1]), commands[|commands| - 1]);
    }
  }

  lemma EmptyGrounded()
    ensures Graph([], [], []).Valid() && Graph([], [], []).Grounded()
  {
  }

  /** Why adding an edge by hand is excluded: the store does not look at its endpoints. It stays grounded
      exactly when the edge is refused as a duplicate or both endpoints are stored. */
  lemma HandMadeEdgeGroundedIff(g: Graph, e: Edge)
    requires g.Valid() && g.Grounded()
    ensures AddEdges(g, [e]).0.Grounded() <==>
      HasKey(EdgeId, g.edges, e.id) || (g.Stores(e.source) && g.Stores(e.target))
  {
    var g' := AddEdges(g, [e]).0;
    if !HasKey(EdgeId, g.edges, e.id) {
      assert InsertMany(EdgeId, g.edges + [e], [e][1..]) == (g.edges + [e], true);
      assert g'.edges == g.edges + [e];
      assert e in g'.edges;
      assert forall x :: g.Stores(x) <==> g'.Stores(x);
    }
  }
}
