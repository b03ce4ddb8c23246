# MiroMem: a verified model of its graph, extraction, job and text components

This project models, in Dafny, the stateful and loop-heavy parts of MiroMem and proves what their
callers rely on, for every input, every run and every interleaving. `dafny verify dfyconfig.toml`
checks all of it.

## What is modelled

| Files | Component |
|---|---|
| `GraphModel`, `GraphState`, `GraphStore` | The entity, edge and fact collections of the knowledge graph and every write on them; the two breadth-first searches and the multi-seed union, loop by loop. |
| `Walks`, `Frontier`, `Answers` | Walks in the undirected reading of the edges, which define distance without any search; the invariant both searches keep; what a right answer is and how the answers relate. |
| `EntityExtractor`, `ExtractionLaws`, `GraphRag` | Greedy merging of extracted names, resolution of edge endpoints, ingestion of documents, and referential integrity over runs of whole requests. |
| `GraphRuns` | Overlapping requests on one graph, one database command at a time: exactly which runs keep referential integrity. |
| `ThinkerModels`, `ThinkerJobs`, `ThinkerProtocol`, `ThinkerApi` | The guarded job registry with records updated in place; endpoints and executor tasks as interleaved atomic steps. |
| `GraphJobs`, `BuildEpisodes`, `BuildProtocol`, `BuildLaws`, `BuildWorker` | The unguarded job store, the statistics store, and the request threads and dispatcher thread that share them. |
| `Text`, `EpisodeBuilder`, `RagChunker`, `UploadEvidence` | `strip()`, overlapping windows, boundary-seeking chunks, and the evidence budget. |
| `QueryService` | The local context of each node of a graph read. |

Imperative code is modelled by classes and methods with loops. Each such method is tied by its
`ensures` to a function of the old state or of the inputs, or to a declarative answer predicate, and
the lemmas prove what the source promises about that function or predicate. Where a method computes a
function, a lemma whose name ends in `Exactly`, `Outcome`, `Frame` or `Answers` says what its value is
without naming that function's parts, in terms of the inputs alone.

### Reading the model

- **Distance.** `Walks.Walk` is a list of ids, consecutive ones joined by a stored edge in either
  direction; `Walks.Within(es, s, t, k)` says some walk has at most `k` hops. No queue, level or visited
  set appears there. `Answers.PathAnswer`, `NeighborAnswer` and `SubgraphAnswer` are stated in these
  terms only, and are the postconditions of `find_path`, `get_neighbors` and `get_subgraph`.
- **Marking on pop.** Both searches mark an id when it leaves the queue, so an id may be queued many
  times. `Frontier.Search` is the invariant: levels never decrease along the queue and differ by at most
  one, and everything next to an expanded id is marked or queued at most one level further out.
- **Failed writes.** A unique index makes an ordered batch insert stop at the first duplicate and keep
  what came before it. Ingestion can therefore fail half-way, and integrity is proved for that too; no
  freshness of ids is assumed there.
- **Positions.** `EpisodeBuilder.Places` gives where each chunk stands in the document, so that what is
  covered is said of positions: a second occurrence of the same text does not stand in for a lost one.
- **Overlapping requests.** In `GraphRuns` a step is one database command. An id is *anchored* when it is
  stored or its deletion has still to remove the edges at it; a step is *stray* when it is about to store an
  edge with an end that is not anchored.
- **Protocols.** A run is any list of atomic steps, one per stretch of code between awaits (Thinker) or
  between shared-state accesses (build service); a step that is not possible leaves the system alone, so
  the theorems speak of every interleaving. `log`, `enqueued` and `finished` are histories that steer
  nothing. The classes in `ThinkerApi` and `BuildWorker` perform the same steps on the stores in place.
- **Parameters.** `str.lower`, whitespace, and the similarity test
  `SequenceMatcher(...).ratio() >= threshold` are arbitrary functions; similarity need not be symmetric.
  Of `str.lower` the resolution theorems use one fact of the language: it never empties a non-empty name.
  Model replies, the graph library's answers, clock readings and the ids drawn by `uuid4` are arbitrary
  inputs. A job id is taken to be one not in use, as `uuid4` guarantees in practice.

### Where the code differs from its description

- `get_neighbors` (graph/graph_store.py:109) is described as returning the entities and edges within
  *depth* hops. An edge whose two ends are both at distance exactly *depth* is not returned, although
  both its ends are. `Answers.InsideEdgeCollectedIff` gives the exact condition and
  `Answers.TriangleLosesASide` the smallest case. An edge met from both of its ends is returned twice.
- `add_edge` does not look at its endpoints, so the integrity that every other write keeps can be lost
  through it. `GraphRag.HandMadeEdgeGroundedIff` gives the exact condition.
- `build_from_documents` awaits between storing the entities of a chunk and storing its edges
  (graph/graph_rag.py:58-63). A deletion that falls into that gap leaves an edge that dangles for good:
  `GraphRuns.DeleteBetweenWritesStrands` gives the runs, and `GraphRuns.IntegrityExact` with
  `GraphRuns.StrayWasDeleted` says exactly when this happens.
- The transition table lets a created Thinker job fail directly, and the graph job store lets a completed
  job be restarted. No run of the service takes either transition (`ThinkerProtocol.NoRefusals`,
  `BuildProtocol.TerminalIsFinal`).
- `chunk_text` overlaps its windows so that short phrases stay whole. How short is exact:
  `EpisodeBuilder.PhraseKept` and `EpisodeBuilder.PhraseBoundSharp`.

## Model

| member | source | states |
|---|---|---|
| GraphStorage.GraphStore.FindPath | graph/graph_store.py:140-167 | Terminates on any edge set; returns a walk from source to target of at most max(0, max_depth) hops that no walk undercuts, and None exactly when no such walk exists. |
| GraphStorage.GraphStore.QueuePaths | graph/graph_store.py:157-165 | Keeps the queue and adds the popped path extended by one unmarked id each time; every queued path stays a walk from the source, and every adjacent id is marked or queued one level out. |
| GraphStorage.GraphStore.GetNeighbors | graph/graph_store.py:108-138 | Terminates on cyclic multigraphs; entities are exactly the stored ones within max(0, depth), once each; every edge is collected once per distinct endpoint nearer than depth, and no other edge is. |
| GraphStorage.GraphStore.CollectAndQueue | graph/graph_store.py:120-130 | Collects exactly the edges at the popped id, and leaves every adjacent id marked or queued one level out. |
| GraphStorage.GraphStore.EntitiesOf | graph/graph_store.py:132-136 | Reads back exactly the entities stored under the visited ids, each once, in whatever order the ids come. |
| GraphStorage.GraphStore.GetSubgraph | graph/graph_store.py:169-184 | The union of the balls around the seeds: an entity iff within reach of some seed, an edge iff some seed's ball collects it, no id twice in either list. |
| GraphStorage.GraphStore.GetEntity | graph/graph_store.py:46-48 | A stored entity with this id, or None exactly when none has it. |
| GraphStorage.GraphStore.GetEdgesForEntity | graph/graph_store.py:81-85 | The stored edges at the id, in order, each as often as it is stored, and no others. |
| GraphStorage.GraphStore.AddEntity | graph/graph_store.py:42-44 | The new collections are those of one insert under the unique index; a duplicate id is refused. |
| GraphStorage.GraphStore.AddEntitiesBatch | graph/graph_store.py:70-73 | The new collections are those of an ordered batch insert, which stops at the first duplicate; an empty batch does nothing. |
| GraphStorage.GraphStore.AddEdge | graph/graph_store.py:77-79 | One insert under the unique index, with no look at the endpoints. |
| GraphStorage.GraphStore.AddEdgesBatch | graph/graph_store.py:91-94 | An ordered batch insert of edges. |
| GraphStorage.GraphStore.AddFact | graph/graph_store.py:98-100 | One insert of a fact under the unique index. |
| GraphStorage.GraphStore.UpdateStoredEntity | graph/graph_store.py:54-57 | Rewrites the given fields of the entity with this id, keeps its id, and returns the rewritten entity exactly when it exists. |
| GraphStorage.GraphStore.RemoveEntity | graph/graph_store.py:59-68 | The cascade, in full; False and no change when the id is not stored. |
| GraphStorage.GraphStore.RemoveEdge | graph/graph_store.py:87-89 | Deletes the edge with this id; reports whether there was one. |
| GraphState.InsertManyFacts | graph/graph_store.py:70-73 | A batch insert stores a prefix of the batch after what was there, keeps ids unique, and fails exactly when the prefix is proper, at a document whose id is taken. |
| GraphState.DeleteOneFacts | graph/graph_store.py:87-89 | Deleting by id removes exactly the document with that id and reports whether there was one. |
| GraphState.CascadeFrame | graph/graph_store.py:59-68 | After the cascade no edge touches the id and no fact has it as subject; every other entity, edge and fact is still there; nothing changes when the id was not stored. |
| GraphState.AddEntitiesFrame | graph/graph_store.py:70-73 | Inserting entities appends the batch up to the first taken id, succeeds iff there is none, and changes neither edges nor facts. |
| GraphState.AddEdgesFrame | graph/graph_store.py:91-94 | The same for edges. |
| GraphState.AddFactsFrame | graph/graph_store.py:98-100 | The same for facts. |
| GraphState.DeleteEdgeFrame | graph/graph_store.py:87-89 | Deleting an edge removes exactly the edge with that id, touches neither entities nor facts, and reports whether it was there. |
| GraphState.UpdateEntityFrame | graph/graph_store.py:54-57 | An update sets each given field of the entity with this id, in its place, keeps the others, and changes nothing else. |
| GraphState.AddEntitiesKeepsGrounded | graph/graph_store.py:70-73 | Inserting entities, even when cut short, keeps unique ids and endpoints stored; on success the whole batch is stored. |
| GraphState.DeleteEntityKeepsGrounded | graph/graph_store.py:59-68 | The cascade leaves no edge whose endpoint is gone. |
| GraphState.UpdateEntityKeepsGrounded | graph/api.py:64-72 | An update as the API makes it leaves every endpoint stored. |
| Frontier.SearchSkip | graph/graph_store.py:114-117 | Popping an id that is already marked or at the depth limit keeps the search invariant. |
| Frontier.SearchExpand | graph/graph_store.py:118-130 | Marking a popped id and queueing its unmarked neighbours keeps the search invariant. |
| Frontier.SearchReach | graph/graph_store.py:147-167 | Under the invariant, the end of any walk within the limit is marked no later than the walk is long, or something at most that far out is still queued. |
| GraphStorage.MarkedExactly | graph/graph_store.py:114-130 | When the queue is empty the marks are exactly the distances within the limit. |
| GraphStorage.ShortestAtHead | graph/graph_store.py:148-150 | The first time the target is popped, the path it carries is shortest. |
| GraphStorage.TallyExpanded | graph/graph_store.py:120-123 | Expanding one more id adds each edge at it once, a self-loop once. |
| GraphModel.FilterConcat | graph/graph_store.py:81-85 | A query goes through the documents in order: its answer on a concatenation is the concatenation of its answers. |
| Answers.PathIsSimple | graph/graph_store.py:140-167 | A returned path repeats no id. |
| Answers.PathAnswerExact | graph/graph_store.py:140-167 | A path is returned iff the distance is at most max(0, max_depth), and it has exactly distance + 1 ids. |
| Answers.PathAnswerMonotone | graph/graph_store.py:140-167 | Raising max_depth keeps a found path found and its length unchanged. |
| Answers.PathAnswerSymmetric | graph/graph_store.py:140-167 | Swapping source and target changes neither whether a path is found nor its length. |
| Answers.SearchesAgree | graph/graph_store.py:108-167 | For every id, stored or not: a path of at most k hops is found iff the id is the centre or an end of an edge of the ball of radius k; for a stored entity, iff the ball holds it. |
| Answers.PathInsideBall | graph/graph_store.py:108-167 | Every hop of a found path is an edge of the ball of the same radius. |
| Answers.InsideEdgeCollectedIff | graph/graph_store.py:108-138 | An edge between two ids of a ball is collected unless both ends are at distance exactly the radius. |
| Answers.TriangleLosesASide | graph/graph_store.py:108-138 | In any answer for radius 1 on a triangle, the side opposite the centre is missing while both its ends and the other sides are there. |
| Answers.SubgraphOfOneSeed | graph/graph_store.py:169-184 | One seed gives that seed's ball, as sets. |
| Answers.SubgraphIgnoresSeedOrder | graph/graph_store.py:169-184 | Seed order and repeated seeds change neither the entities nor the edges nor how many there are. |
| Answers.PathAfterCascade | graph/graph_store.py:59-68 | After deleting x, a path search between other ids finds a shortest path among the old walks that avoid x, and finds none only if none is short enough. |
| Answers.BallAfterCascade | graph/graph_store.py:59-68 | After deleting x, a ball around another id holds exactly the other entities and edges reachable without passing x. |
| Walks.WalksAvoiding | graph/graph_store.py:62-65 | Removing the edges at x removes exactly the walks through x. |
| Walks.WithinSymmetric | graph/graph_store.py:124-128 | Undirected distance is symmetric, since an edge is followed from either end. |
| Extraction.EntityExtractor.FindSimilar | graph/entity_extractor.py:120-128 | The lowered name itself when it is a key, else the first key in insertion order that it is similar to, else None. |
| Extraction.EntityExtractor.ResolveName | graph/entity_extractor.py:104-107 | Looks the endpoint up under the matching key, an empty match counting as none, else under its lowered form. |
| Extraction.EntityExtractor.Extract | graph/entity_extractor.py:53-118 | Computes the merged entities and resolved edges of a reply; an exception escapes, and a reply that is not JSON yields nothing. |
| Extraction.KeptUnmatched | graph/entity_extractor.py:84-97 | No kept key equals or is similar to one kept earlier. |
| Extraction.KeptFiled | graph/entity_extractor.py:90-96 | Every kept entity has a stripped, non-empty name and is filed under its lowered form. |
| Extraction.DroppedMatchesEarlier | graph/entity_extractor.py:88-97 | A dropped non-blank name equals or is similar to a key kept before it. |
| Extraction.SimilarStable | graph/entity_extractor.py:120-128 | A match found when a name was offered is the match found against the final map, whatever was kept in between. |
| Extraction.ResolutionStable | graph/entity_extractor.py:99-107 | An endpoint equal to an extracted name up to case and strip resolves to the very entity that name was kept as or merged into. |
| Extraction.NamedEdgesSurvive | graph/entity_extractor.py:99-116 | An item whose endpoints name extracted entities always becomes an edge from the source's entity to the target's. |
| Extraction.EdgesComeFromItems | graph/entity_extractor.py:99-116 | Every edge comes from an item whose two endpoints resolved, and runs between those entities. |
| Extraction.ExtractionSelfContained | graph/entity_extractor.py:99-118 | Extraction never returns an edge with an endpoint outside the entities it returns. |
| Extraction.MergeIdempotent | graph/entity_extractor.py:80-97 | Merging the kept entities again keeps all of them: the merge is a fixed point. |
| ExtractionLaws.ExtractedExactly | graph/entity_extractor.py:80-118 | For a reply that parses: the entities are, in order, exactly the items that are not blank and not like one kept before; the edges are, in order, exactly the edge items whose two ends name kept items, each running between those. |
| ExtractionLaws.ResolvesToNamed | graph/entity_extractor.py:104-109 | An end resolves to the kept item of equal key, else to the first kept item it is similar to, and to none exactly when there is neither. |
| ExtractionLaws.ExtractedKeepsNamed | graph/entity_extractor.py:99-118 | Among what is returned: the host of every item that is not blank, and the edge between hosts of every edge item whose two ends name such items. |
| ExtractionLaws.HostNamed | graph/entity_extractor.py:88-97 | The host of an item is the kept item its name resolves to. |
| ExtractionLaws.ExtractedOtherwise | graph/entity_extractor.py:60-78 | A call that raises is an error and nothing else is; a reply that is not JSON yields an empty batch. |
| GraphRag.GraphRAG.IngestChunk | graph/graph_rag.py:56-63 | Extracts one chunk and persists its entities, then its edges, stopping at the first failure. |
| GraphRag.GraphRAG.BuildFromDocuments | graph/graph_rag.py:48-65 | Leaves the store, the returned subgraph and the failure flag that absorbing the replies for all chunks in order gives. |
| GraphRag.IngestStopped | graph/graph_rag.py:55-65 | Once an ingestion has failed, the remaining chunks change nothing. |
| GraphRag.ChunksTextByText | graph/graph_rag.py:55-56 | The chunks come text by text, in order, each text split on its own. |
| GraphRag.IngestExactly | graph/graph_rag.py:48-65 | An ingestion goes through iff every extraction succeeds and no id among those stored and extracted occurs twice; it has then stored and returns all that was extracted, in order. |
| GraphRag.IngestStopsAt | graph/graph_rag.py:57-63 | A failed ingestion stopped at one reply: those before it went through; it raised, or was stored up to its first clash, edges only after all its entities. |
| GraphRag.IngestKeepsGrounded | graph/graph_rag.py:48-65 | Whatever the model replies and wherever the ingestion stops, no stored edge dangles. |
| GraphRag.IngestReturnsWhatItStored | graph/graph_rag.py:48-65 | A finished ingestion has added exactly what it returns, after what was there, in order. |
| GraphRag.ReferentialIntegrity | graph/graph_rag.py:48-65 | From an empty store, no run of whole entity, fact, update, delete and ingestion requests, one after the other, leaves an edge with an endpoint that is not stored. |
| GraphRag.HandMadeEdgeGroundedIff | graph/api.py:86-88 | An edge added by hand keeps that integrity exactly when it is refused as a duplicate or both its endpoints are stored. |
| GraphRuns.UninterruptedDelete | graph/graph_store.py:59-68 | The three commands of a deletion, uninterrupted, amount to the cascade. |
| GraphRuns.UninterruptedIngest | graph/graph_rag.py:57-63 | The two commands of a chunk, uninterrupted, amount to a sequential ingestion of it. |
| GraphRuns.SingleCommands | graph/graph_store.py:42-57 | A request that is one command does what it does in a sequential run. |
| GraphRuns.TakesExactly | graph/graph_store.py:91-94 | A batch insert stores exactly the documents up to the first whose id is taken or repeated. |
| GraphRuns.NextSettledIff | graph/graph_store.py:59-94 | A database command keeps the absence of dangling edges, those of deletions under way aside, exactly when it is not stray. |
| GraphRuns.IntegrityExact | graph/graph_rag.py:48-65 | Over every run of overlapping requests: no edge ever dangles, those of deletions under way aside, iff no step stores an edge with an end that is neither stored nor being deleted. |
| GraphRuns.StrayWasDeleted | graph/graph_rag.py:58-63 | When the edges of a chunk are about to dangle, one of their ends was deleted after the chunk's entities were stored and before its edges are. |
| GraphRuns.IntegrityWithoutOverlap | graph/graph_rag.py:48-65 | With no edge added by hand and no deletion between the two writes of a chunk it is an end of, no edge dangles once deletions are through, however the requests overlap. |
| GraphRuns.DeleteBetweenWritesStrands | graph/graph_rag.py:58-63 | A deletion of an end of a chunk's first edge between the chunk's two writes leaves a dangling edge with no request under way to remove it. |
| RagChunker.ChunkText | graph/graph_rag.py:17-32 | Terminates for chunk_size >= 1 and yields the recursive form on suffixes. |
| RagChunker.FindEnd | graph/graph_rag.py:22-29 | The separator loop stops at the first separator with an occurrence strictly after the start. |
| RagChunker.RFind | graph/graph_rag.py:26 | The last occurrence wholly inside the bounds, or -1 exactly when there is none. |
| RagChunker.ChunkEndOnSuffix | graph/graph_rag.py:20-31 | Where a chunk ends depends only on the text from its start on. |
| RagChunker.SplitConcat | graph/graph_rag.py:17-32 | The chunks concatenate to exactly the text. |
| RagChunker.SplitSizes | graph/graph_rag.py:17-32 | Every chunk has 1 to chunk_size characters. |
| RagChunker.SplitBoundaries | graph/graph_rag.py:22-29 | Every chunk ends just after the last in-window occurrence of the first separator, by priority, that occurs strictly after its start; at full length if none does; at the end of the text if it fits. |
| EpisodeBuilder.ChunkText | graph_service/domain/episode_builder.py:13-27 | Yields the stripped non-blank windows in order. |
| EpisodeBuilder.PhraseKept | graph_service/domain/episode_builder.py:18-25 | The positions of a phrase with no outer whitespace lie, as they stand in the document, inside one chunk, when it has at most max(1, size) and at most max(0, overlap) + 1 characters. |
| EpisodeBuilder.PhraseBoundSharp | graph_service/domain/episode_builder.py:18-25 | For every setting some document has a phrase one character over that bound that no chunk holds whole. |
| EpisodeBuilder.NothingLost | graph_service/domain/episode_builder.py:13-27 | Every position of the document that does not hold whitespace lies in some chunk. |
| EpisodeBuilder.ChunkShape | graph_service/domain/episode_builder.py:22-25 | Every chunk has 1 to max(1, size) characters and no outer whitespace, and is what the document holds at its place. |
| EpisodeBuilder.ChunkCount | graph_service/domain/episode_builder.py:18-25 | With step = max(1, max(1, size) - max(0, overlap)): at most ceil(len / step) chunks, and exactly that many iff no window is all whitespace. |
| EpisodeBuilder.ChunksExactly | graph_service/domain/episode_builder.py:13-27 | The chunks are, in order, the stripped stretches of at most max(1, size) characters that start at the multiples of that step inside the document and are not blank. |
| EpisodeBuilder.Episodes | graph_service/domain/episode_builder.py:30-50 | One episode per chunk, in order, numbered from 1. |
| UploadEvidence.BuildUploadEvidence | thinker/orchestrator.py:252-272 | Yields what spending the budget on the sources, in order, gives. |
| UploadEvidence.SpendWithinBudget | thinker/orchestrator.py:262-272 | Entry i is a non-empty trimmed prefix of source i, the total stays within the budget, and either every source has an entry or the budget is used up exactly. |
| UploadEvidence.CutExactlyWhenOverrun | thinker/orchestrator.py:264-271 | An entry differs from its source exactly when the source overruns what the earlier entries have left. |
| UploadEvidence.SpendExactly | thinker/orchestrator.py:264-271 | Every entry is its source when that fits what is left, and else everything of its first so many characters but the whitespace at their end. |
| UploadEvidence.EvidenceExactly | thinker/orchestrator.py:252-272 | The evidence has at most 12000 characters, an entry per source unless exactly 12000 are used, and every entry is as long as they allow. |
| UploadEvidence.SpendAllWhenFits | thinker/orchestrator.py:262-272 | The evidence is all sources uncut iff together they fit the budget. |
| UploadEvidence.FileTextsAppend | thinker/orchestrator.py:258 | The file sources are the stripped texts of the non-blank files, in order. |
| UploadEvidence.FileTextsExactly | thinker/orchestrator.py:258 | They are, in order, the stripped texts of exactly the files that are not blank. |
| UploadEvidence.SourcesExactly | thinker/orchestrator.py:259-260 | The seed is a source only when every file is blank and it is not. |
| UploadEvidence.NoEvidenceIff | thinker/orchestrator.py:258-272 | There is no evidence exactly when every file and the seed text are blank. |
| Text.StripFacts | thinker/orchestrator.py:258-260 | Stripping keeps one stretch, drops only whitespace around it, leaves no outer whitespace, and empties exactly the blank texts. |
| ThinkerJobs.InMemoryThinkerJobStore.CreateJob | thinker/jobs.py:38-55 | Files a fresh job under its id and returns a copy. |
| ThinkerJobs.InMemoryThinkerJobStore.GetJob | thinker/jobs.py:57-58 | A copy of the stored job, or the key error. |
| ThinkerJobs.InMemoryThinkerJobStore.TransitionJob | thinker/jobs.py:163-187 | Assigns the fields of the one stored job in place as the table allows; refuses otherwise, changing nothing; other jobs are untouched. |
| ThinkerJobs.InMemoryThinkerJobStore.MarkRunning | thinker/jobs.py:60-68 | The registry after the call, and what it returns or raises. |
| ThinkerJobs.InMemoryThinkerJobStore.MarkSucceeded | thinker/jobs.py:70-84 | The registry after the call, and what it returns or raises. |
| ThinkerJobs.InMemoryThinkerJobStore.MarkFailed | thinker/jobs.py:86-102 | The registry after the call, and what it returns or raises. |
| ThinkerJobs.InMemoryThinkerJobStore.MarkMaterialized | thinker/jobs.py:104-118 | The registry after the call, and what it returns or raises. |
| ThinkerJobs.InMemoryThinkerJobStore.MarkSkipped | thinker/jobs.py:120-136 | The registry after the call, and what it returns or raises. |
| ThinkerJobs.InMemoryThinkerJobStore.RetryJob | thinker/jobs.py:138-155 | The registry after the call, and what it returns or raises. |
| ThinkerJobs.StoreAlwaysCoherent | thinker/jobs.py:26-187 | After any calls, accepted or rejected: error fields and retryable are set iff failed, the continue flag is true unless failed, a result implies succeeded, materialized or skipped, and materialized implies a result. |
| ThinkerJobs.CallEffect | thinker/jobs.py:163-187 | A rejected call changes nothing; an accepted one changes only its job, along the table, and never its inputs. |
| ThinkerJobs.CallOutcome | thinker/jobs.py:60-187 | Each call: a key error iff the job is unknown, a value error iff its status or result does not admit the call, and otherwise the status, result and error fields that call promises, with no other job touched. |
| ThinkerJobs.CreateOutcome | thinker/jobs.py:38-55 | A new job is created, with the inputs given and neither result nor error. |
| ThinkerJobs.TerminalIsAbsorbing | thinker/jobs.py:26-33 | Materialized and skipped jobs never change again under any sequence of calls. |
| ThinkerJobs.OffersAreAccepted | thinker/models.py:32-42 | The offered actions are exactly the user calls the store accepts and exactly the table's entries for them. |
| ThinkerProtocol.NextKeepsInv | thinker/api.py:94-222 | Every atomic step of an endpoint or executor keeps the whole-system invariant. |
| ThinkerProtocol.ExactlyOneExecutor | thinker/api.py:94-114 | In every interleaving a job has exactly one live executor while created or running, in the phase its status says, and none otherwise. |
| ThinkerProtocol.NoRefusals | thinker/api.py:192-222 | No executor call is ever refused, no job goes from created to failed, and every run gets its job's stored inputs. |
| ThinkerProtocol.Conservation | thinker/api.py:157-222 | Runs = 1 + retries, minus one if created now; failures = retries, plus one if failed now or skipped without a result; successes = one iff a result is held. |
| ThinkerProtocol.RunsGetPostedInputs | thinker/api.py:157-177 | Every run of a job, retries included, gets exactly the inputs it was posted with. |
| ThinkerProtocol.OutcomeRecorded | thinker/api.py:201-222 | What an awaiting executor brings home, result or error, is always recorded on its job and on no other. |
| ThinkerProtocol.StartRecorded | thinker/api.py:201-210 | An executor that starts sets its job running and keeps the rest of its record. |
| ThinkerProtocol.EndpointAnswers | thinker/api.py:117-189 | Each endpoint: 404 iff the job is unknown, 409 iff its record does not admit the request, and otherwise the record the call promises, which is then the one stored. |
| ThinkerProtocol.PostAnswers | thinker/api.py:94-114 | A posted job is answered with its created record, and one executor with its inputs is spawned. |
| ThinkerProtocol.ClosedExactly | thinker/api.py:127-189 | In every run a job is materialized iff a request to materialize it was accepted, and skipped iff a request to skip it was. |
| ThinkerProtocol.ResultFixed | thinker/jobs.py:104-136 | A stored result is never changed or lost by any later steps. |
| ThinkerProtocol.InputsFixed | thinker/jobs.py:38-55 | A job's inputs never change by any later steps. |
| ThinkerApi.Service.CreateJob | thinker/api.py:94-114 | Performs the creation step: a new job and one task with the request's inputs. |
| ThinkerApi.Service.GetJob | thinker/api.py:117-124 | Answers with the job or 404 and changes nothing. |
| ThinkerApi.Service.MaterializeJob | thinker/api.py:127-154 | Performs the materialize step with its 404 and 409 answers; a success, and only that, carries the payload made of the stored result and the adopted inputs. |
| ThinkerModels.MaterializeFields | thinker/materializer.py:15-41 | Field by field, the payload has what was adopted, and the stored result where nothing was. |
| ThinkerApi.Service.RetryJob | thinker/api.py:157-177 | Performs the retry step: back to created and one new task with the stored inputs, or 404, or 409. |
| ThinkerApi.Service.SkipJob | thinker/api.py:180-189 | Performs the skip step with its 404 and 409 answers. |
| ThinkerApi.Service.StartTask | thinker/api.py:201-210 | Performs the stretch of an executor up to its await, including the failure path when the claim is refused. |
| ThinkerApi.Service.RecordFailure | thinker/api.py:211-220 | The `except` block: record the failure, or be refused. |
| ThinkerApi.Service.FinishTask | thinker/api.py:222 | Performs the stretch after the orchestrator returned. |
| ThinkerApi.Service.FailTask | thinker/api.py:211-220 | Performs the stretch after the orchestrator raised. |
| GraphJobs.InMemoryGraphJobStore.CreateJob | graph_service/storage/job_store.py:19-35 | Files a queued job under its id. |
| GraphJobs.InMemoryGraphJobStore.UpdateJob | graph_service/storage/job_store.py:79-87 | Replaces the one entry by its updated copy whatever its status, or raises the key error and changes nothing. |
| GraphJobs.UpdateOutcome | graph_service/storage/job_store.py:45-87 | An update is refused iff the job is unknown; else it sets the fields that mark stands for, keeps the rest of the record, and touches no other. |
| GraphJobs.InMemoryGraphMetadataStore.SaveMetadata | graph_service/storage/graph_metadata_store.py:28-47 | Overwrites the entry of one graph. |
| BuildEpisodes.AddEpisodesSequentially | graph_service/workers/build_worker.py:199-229 | Accumulates the single results in order, or raises what the first raising call raised. |
| BuildEpisodes.AddEpisodesWithFallback | graph_service/workers/build_worker.py:158-197 | The bulk result when there is more than one episode and the bulk call returns, else the sequential one. |
| BuildEpisodes.SequentialOutcome | graph_service/workers/build_worker.py:207-229 | One at a time succeeds iff every call does, and then counts every node and edge of every call once. |
| BuildEpisodes.FallbackFailsIff | graph_service/workers/build_worker.py:158-197 | The stage fails iff the bulk call is not used or raises, and some single call raises. |
| BuildEpisodes.FallbackExactly | graph_service/workers/build_worker.py:158-229 | With more than one episode and a bulk result, its nodes and its edges; otherwise those of all single calls, or the first exception among them. |
| BuildProtocol.WorkCounts | graph_service/workers/build_worker.py:94-129 | The work ends in the statistics of the bulk result or of the single calls together, with the chunk total and the time, or in failure with the message of the preparation or of the first single call to raise. |
| BuildProtocol.NextKeepsInv | graph_service/workers/build_worker.py:63-156 | Every atomic step of request threads and dispatcher keeps the whole-system invariant. |
| BuildProtocol.OnePlaceEach | graph_service/workers/build_worker.py:79-156 | In every run each job is in exactly one of: not enqueued, waiting, executing, finished; and its status goes with that place. |
| BuildProtocol.AtMostOneRunning | graph_service/workers/build_worker.py:79-92 | A job is running iff it is the one the dispatcher has begun, so at most one is. |
| BuildProtocol.DispatcherSurvivesInOrder | graph_service/workers/build_worker.py:79-92 | No exception escapes into the dispatcher, and enqueued = finished, then executing, then waiting, in order. |
| BuildProtocol.TerminalIsFinal | graph_service/storage/job_store.py:49-69 | Completed and failed records never change again in any run, although the store would allow it. |
| BuildProtocol.StatsExactlyWhenCompleted | graph_service/workers/build_worker.py:131-150 | At every moment a graph has statistics iff some job for it is completed or the dispatcher, having just saved them, is completing one. |
| BuildProtocol.StatsAreTheLast | graph_service/storage/graph_metadata_store.py:28-55 | Unless just saved for a job about to complete, they are what the last such job to finish recorded in its own metadata, key by key, and their chunk count is that of its document. |
| BuildProtocol.LatestStatsMeaning | graph_service/storage/graph_metadata_store.py:45-47 | Overwriting per graph leaves, for each graph, the statistics of its last success. |
| BuildLaws.OutcomesComeFromWork | graph_service/workers/build_worker.py:91-156 | In every run a finished job ended as its own work did, with those statistics or that message. |
| BuildLaws.SavedStatsComeFromWork | graph_service/workers/build_worker.py:126-138 | In every run the statistics stored for a graph are those the work for some job on it produced. |
| BuildLaws.FinishedRecordTells | graph_service/storage/job_store.py:49-69 | The record of a finished job: completed with its statistics under their keys, or failed with its message, and when. |
| BuildLaws.OpenRecordTellsNothing | graph_service/storage/job_store.py:19-47 | The record of a job that has not ended holds the request and neither a time, an error nor statistics. |
| BuildProtocol.NamesSurvive | graph_service/workers/build_worker.py:140-150 | The project id and graph name a job is created with stay in its metadata, completion included. |
| BuildWorkers.BuildWorker.CreateBuildJob | graph_service/api/graphs.py:43-50 | Performs the submit step. |
| BuildWorkers.BuildWorker.EnqueueCommand | graph_service/workers/build_worker.py:63-71 | Performs the enqueue step. |
| BuildWorkers.BuildWorker.FetchCommand | graph_service/workers/build_worker.py:79-84 | Performs the fetch step; an empty queue leaves the dispatcher idle. |
| BuildWorkers.BuildWorker.BeginJob | graph_service/workers/build_worker.py:91-92 | Performs the begin step, outside the `try`. |
| BuildWorkers.BuildWorker.DoWork | graph_service/workers/build_worker.py:94-129 | Performs the work step with the loops above. |
| BuildWorkers.BuildWorker.SaveStats | graph_service/workers/build_worker.py:131-138 | Performs the save step. |
| BuildWorkers.BuildWorker.CompleteJob | graph_service/workers/build_worker.py:139-150 | Performs the completion step, whose own failure would still be caught. |
| BuildWorkers.BuildWorker.FailJob | graph_service/workers/build_worker.py:151-156 | Performs the failure step. |
| QueryService.SerializeEntity | graph_service/domain/query_service.py:139-188 | The related edges in order, a loop once and outgoing; the related nodes exactly the existing nodes at the other ends, distinct and sorted. |
| QueryService.ListEntities | graph_service/domain/query_service.py:38-58 | One such context per listed node, in order; exactly the labels seen on listed nodes, sorted; and both counts. |
| QueryService.ListedExactly | graph_service/domain/query_service.py:43-50 | The listed nodes are, in order, exactly those with a label besides Entity and Node and, if a type is asked for, with that type among such labels. |
| QueryService.NodeMapTakesLast | graph_service/domain/query_service.py:41 | Where nodes share a uuid, the last of them is the one looked up. |
| QueryService.BeforeMeaning | graph_service/domain/query_service.py:176 | The sorting order is that of the first difference. |
| QueryService.Handshake | graph_service/domain/query_service.py:147-167 | Related edges summed over all nodes = edges whose source is a node + non-loop edges whose target is a node. |
| QueryService.BothEndsAgree | graph_service/domain/query_service.py:147-167 | A non-loop edge is listed as outgoing at its source and as incoming at its target, each naming the other. |
| QueryService.DirectionsMatch | graph_service/domain/query_service.py:147-167 | Between two nodes, the outgoing entries at one and the incoming entries at the other are equally many, namely the edges from the one to the other, for every name and fact. |
| QueryService.LoopsOutgoing | graph_service/domain/query_service.py:147-167 | A loop is listed once at its node, as outgoing, and never as incoming. |
| QueryService.RelatedInOrder | graph_service/domain/query_service.py:147-167 | The entries come in the order of the edges. |
| QueryService.DedupeStrings | graph_service/domain/query_service.py:217-225 | The loop with its seen-set yields the values kept first. |
| QueryService.DedupedFacts | graph_service/domain/query_service.py:217-225 | Exactly the non-empty values, each once, a prefix of the input giving a prefix of the output. |

## Left out

- HTTP parsing, the gateway proxy, the databases and the language and graph libraries: their answers are inputs of the model.
- `SequenceMatcher`, JSON parsing, PDF and Unicode handling: a similarity predicate, a lowering function and a whitespace predicate stand in.
- Timestamps other than completion and build times, edge weights, free-form attribute dictionaries and the ontology of a build request.
- Interleaving inside one database command, and of searches with writes: a batch insert or a `delete_many` is one step, and a search reads one state of the store.
- The order in which the database returns documents: insertion order is used. No theorem about the searches depends on it.
- Facts whose object is a deleted entity: the cascade removes facts by subject only, and nothing is claimed about objects.
- Task cancellation, interpreter shutdown, the shutdown flag of the dispatcher, and printing; a timeout is one of the ways a call raises.
- Request validation and `_classify_job_error` (thinker/api.py:225-233): an error carries an arbitrary code, message and retry flag.
- Deep isolation of the objects passed into `create_job`: inputs are values here.
- `evolution/`, `simulation/`, `bridge/`, the snapshot store and worker, and the schema compiler: floating-point scores, pass-through calls and flat maps.
- RagChunker.ChunkText: takes chunk_size >= 1; for smaller sizes the loop in the source makes no progress.
- QueryService.SortedIds: the library sort is modelled by insertion; only its outcome matters.
- The inner loops of the two searches, the separator loop, and the resolution of one endpoint are methods of their own here; the source writes them inline.
