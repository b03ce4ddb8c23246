/** `graph_service/storage/job_store.py` and `graph_metadata_store.py`: job records and build statistics.
    The job store checks that a job exists, and nothing about its status. */
module GraphJobs {
  import opened Wrappers

  type JobId = string
  type GraphId = string
  type Time = int

  datatype Status = Queued | Running | Completed | Failed | Degraded

  /** A value in a job's metadata dictionary. */
  datatype MetaValue = Text(text: string) | Count(count: nat) | At(time: Time)

  type Metadata = map<string, MetaValue>

  datatype GraphJob = GraphJob(jobId: JobId, jobType: string, graphId: GraphId, status: Status,
                               completedAt: Option<Time>, errorMessage: Option<string>,
                               degradedReason: Option<string>, metadata: Metadata)

  function NewJob(id: JobId, jobType: string, graphId: GraphId, metadata: Metadata): GraphJob {
    GraphJob(id, jobType, graphId, Queued, None, None, None, metadata)
  }

  /** The keyword updates of each `mark_*`. */
  datatype Change =
    | ToRunning
    | ToCompleted(metadata: Metadata, now: Time)
    | ToFailed(message: string, now: Time)
    | ToDegraded(reason: string)

  function Changed(j: GraphJob, c: Change): GraphJob {
    match c
    case ToRunning => j.(status := Running)
    case ToCompleted(metadata, now) =>
      j.(status := Completed, completedAt := Some(now), errorMessage := None, degradedReason := None,
         metadata := if metadata != map[] then metadata else j.metadata)
    case ToFailed(message, now) =>
      j.(status := Failed, completedAt := Some(now), errorMessage := Some(message), degradedReason := None)
    case ToDegraded(reason) => j.(status := Degraded, degradedReason := Some(reason))
  }

  type Jobs = map<JobId, GraphJob>

  /** `_update_job`; `None` is the `KeyError`. */
  function Update(jobs: Jobs, id: JobId, c: Change): Option<Jobs> {
    if id in jobs then Some(jobs[id := Changed(jobs[id], c)]) else None
  }

  /** What each `mark_*` makes of a record. */
  ghost predicate Marked(j: GraphJob, c: Change, j': GraphJob) {
    && j'.jobId == j.jobId && j'.jobType == j.jobType && j'.graphId == j.graphId
    && match c
       case ToRunning =>
         && j'.status == Running && j'.completedAt == j.completedAt && j'.errorMessage == j.errorMessage
         && j'.degradedReason == j.degradedReason && j'.metadata == j.metadata
       case ToCompleted(metadata, now) =>
         && j'.status == Completed && j'.completedAt == Some(now) && j'.errorMessage.None?
         && j'.degradedReason.None? && j'.metadata == if metadata.Keys == {} then j.metadata else metadata
       case ToFailed(message, now) =>
         && j'.status == Failed && j'.completedAt == Some(now) && j'.errorMessage == Some(message)
         && j'.degradedReason.None? && j'.metadata == j.metadata
       case ToDegraded(reason) =>
         && j'.status == Degraded && j'.completedAt == j.completedAt && j'.errorMessage == j.errorMessage
         && j'.degradedReason == Some(reason) && j'.metadata == j.metadata
  }

  /** An update is refused exactly when the job is unknown, and otherwise marks its record and no other. */
  lemma UpdateOutcome(jobs: Jobs, id: JobId, c: Change)
    ensures Update(jobs, id, c).None? <==> id !in jobs
    ensures id in jobs ==> var jobs' := Update(jobs, id, c).value;
      jobs'.Keys == jobs.Keys && Marked(jobs[id], c, jobs'[id])
      && forall k :: k in jobs && k != id ==> jobs'[k] == jobs[k]
  {
  }

  class InMemoryGraphJobStore {
    var jobs: Jobs

    constructor ()
      ensures jobs == map[]
    {
      jobs := map[];
    }

    method CreateJob(id: JobId, jobType: string, graphId: GraphId, metadata: Metadata) returns (r: GraphJob)
      modifies this
      ensures r == NewJob(id, jobType, graphId, metadata) && jobs == old(jobs)[id := r]
    {
      r := NewJob(id, jobType, graphId, metadata);
      jobs := jobs[id := r];
    }

    method GetJob(id: JobId) returns (r: Option<GraphJob>)
      ensures r == if id in jobs then Some(jobs[id]) else None
    {
      r := if id in jobs then Some(jobs[id]) else None;
    }

    method UpdateJob(id: JobId, c: Change) returns (r: Option<GraphJob>)
      modifies this
      ensures r.Some? <==> id in old(jobs)
      ensures match Update(old(jobs), id, c)
        case Some(jobs') => jobs == jobs' && r == Some(jobs'[id])
        case None => jobs == old(jobs)
    {
      if id !in jobs { return None; }
      var updated := Changed(jobs[id], c);
      jobs := jobs[id := updated];
      r := Some(updated);
    }
  }

  /** Build statistics of one graph. */
  datatype Stats = Stats(graphId: GraphId, chunkCount: nat, nodeCount: nat, edgeCount: nat, lastBuiltAt: Time)

  class InMemoryGraphMetadataStore {
    var metadata: map<GraphId, Stats>

    constructor ()
      ensures metadata == map[]
    {
      metadata := map[];
    }

    method SaveMetadata(stats: Stats)
      modifies this
      ensures metadata == old(metadata)[stats.graphId := stats]
    {
      metadata := metadata[stats.graphId := stats];
    }
  }
}
