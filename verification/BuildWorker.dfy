/** `graph_service/workers/build_worker.py` and the route that feeds it, acting on the two stores in place.
    Each method is one atomic stretch and does exactly the protocol step it is named after. */
module BuildWorkers {
  import opened GraphJobs
  import opened BuildEpisodes
  import opened BuildProtocol
  import EpisodeBuilder
  import T = Text

  class BuildWorker {
    const jobStore: InMemoryGraphJobStore
    const metadataStore: InMemoryGraphMetadataStore
    const space: T.Space
    var queue: seq<Command>
    /** Where the dispatcher thread is. */
    var dispatcher: Dispatcher
    /** Requests between creating their job and enqueueing it. */
    ghost var pending: set<Command>
    /** History only. */
    ghost var enqueued: seq<Command>
    ghost var finished: seq<Finish>

    ghost function State(): System
      reads this, jobStore, metadataStore
    {
      System(space, jobStore.jobs, pending, queue, dispatcher, metadataStore.metadata, enqueued, finished)
    }

    constructor (jobStore: InMemoryGraphJobStore, metadataStore: InMemoryGraphMetadataStore, space: T.Space)
      requires jobStore.jobs == map[] && metadataStore.metadata == map[]
      ensures this.jobStore == jobStore && this.metadataStore == metadataStore && this.space == space
      ensures State() == Initial(space)
    {
      this.jobStore, this.metadataStore, this.space := jobStore, metadataStore, space;
      queue, dispatcher, pending, enqueued, finished := [], Idle, {}, [], [];
    }

    /** The first half of `POST /graphs/{id}/build`; `id` is the uuid drawn for the job. */
    method CreateBuildJob(id: JobId, graphId: GraphId, payload: Payload) returns (c: Command)
      requires id !in jobStore.jobs
      modifies `pending, jobStore
      ensures c == Command(id, graphId, payload) && State() == Next(old(State()), Submit(c))
    {
      c := Command(id, graphId, payload);
      var job := jobStore.CreateJob(id, BUILD, graphId, RequestMetadata(payload));
      pending := pending + {c};
    }

    /** The second half: `enqueue`. */
    method EnqueueCommand(c: Command)
      requires c in pending
      modifies `pending, `queue, `enqueued
      ensures State() == Next(old(State()), Enqueue(c))
    {
      queue := queue + [c];
      pending, enqueued := pending - {c}, enqueued + [c];
    }

    /** One `queue.get` of the dispatch loop; an empty queue leaves the dispatcher idle. */
    method FetchCommand()
      requires dispatcher == Idle
      modifies `queue, `dispatcher
      ensures State() == Next(old(State()), Fetch)
    {
      if queue != [] {
        dispatcher := Fetched(queue[0]);
        queue := queue[1..];
      }
    }

    /** `mark_running`, which sits outside the `try`. */
    method BeginJob()
      requires dispatcher.Fetched?
      modifies `dispatcher, jobStore
      ensures State() == Next(old(State()), Begin)
    {
      var updated := jobStore.UpdateJob(dispatcher.command.jobId, ToRunning);
      dispatcher := if updated.Some? then Working(dispatcher.command) else Dead;
    }

    /** The build itself, up to the statistics. */
    method DoWork(graphiti: Graphiti, now: Time)
      requires dispatcher.Working?
      modifies `dispatcher
      ensures State() == Next(old(State()), Work(graphiti, now))
    {
      var c := dispatcher.command;
      var episodes := EpisodeBuilder.Episodes(space, c.payload.documentText, c.payload.chunkSize,
                                              c.payload.chunkOverlap);
      if graphiti.setup.Some? {
        dispatcher := Failing(c, graphiti.setup.value);
        return;
      }
      var results := AddEpisodesWithFallback(graphiti, episodes);
      match results
      case Raised(message) => dispatcher := Failing(c, message);
      case Built(nodes, edges) =>
        dispatcher := Saving(c, Stats(c.graphId, |episodes|, |nodes|, |edges|, now));
    }

    /** `save_metadata`. */
    method SaveStats()
      requires dispatcher.Saving?
      modifies `dispatcher, metadataStore
      ensures State() == Next(old(State()), Save)
    {
      metadataStore.SaveMetadata(dispatcher.stats);
      dispatcher := Completing(dispatcher.command, dispatcher.stats);
    }

    /** `mark_completed`, still inside the `try`. */
    method CompleteJob(now: Time)
      requires dispatcher.Completing?
      modifies `dispatcher, `finished, jobStore
      ensures State() == Next(old(State()), Complete(now))
    {
      var c, stats := dispatcher.command, dispatcher.stats;
      var updated := jobStore.UpdateJob(c.jobId, ToCompleted(FinalMetadata(c.payload, stats), now));
      if updated.Some? {
        dispatcher := Idle;
        finished := finished + [Finish(c, Success(stats), now)];
      } else {
        dispatcher := Failing(c, UNKNOWN_JOB);
      }
    }

    /** The `except` block: `mark_failed`. */
    method FailJob(now: Time)
      requires dispatcher.Failing?
      modifies `dispatcher, `finished, jobStore
      ensures State() == Next(old(State()), RecordFailure(now))
    {
      var c, message := dispatcher.command, dispatcher.message;
      var updated := jobStore.UpdateJob(c.jobId, ToFailed(message, now));
      if updated.Some? {
        dispatcher := Idle;
        finished := finished + [Finish(c, Failure(message), now)];
      } else {
        dispatcher := Dead;
      }
    }
  }
}
