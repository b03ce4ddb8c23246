/** The graph build service as interleaved atomic steps.

    Request threads create a job and then enqueue its command, in two separate steps; one dispatcher
    thread fetches commands and carries each through. `enqueued` and `finished` record what has happened
    and steer nothing. */
module BuildProtocol {
  import opened Wrappers
  import opened GraphJobs
  import opened BuildEpisodes
  import EpisodeBuilder
  import T = Text

  /** The part of a build request that the worker reads, the ontology aside. */
  datatype Payload = Payload(projectId: string, graphName: string, documentText: string,
                             chunkSize: int, chunkOverlap: int)

  datatype Command = Command(jobId: JobId, graphId: GraphId, payload: Payload)

  /** Where the dispatcher thread is. `Dead` is an exception that escaped `_execute`. */
  datatype Dispatcher =
    | Idle
    | Fetched(command: Command)
    | Working(command: Command)
    | Saving(command: Command, stats: Stats)
    | Completing(command: Command, stats: Stats)
    | Failing(command: Command, message: string)
    | Dead

  datatype Outcome = Success(stats: Stats) | Failure(message: string)

  datatype Finish = Finish(command: Command, outcome: Outcome, now: Time)

  datatype System = System(space: T.Space, jobs: Jobs, pending: set<Command>, queue: seq<Command>,
                           dispatcher: Dispatcher, metadata: map<GraphId, Stats>,
                           enqueued: seq<Command>, finished: seq<Finish>)

  datatype Step =
    | Submit(command: Command)
    | Enqueue(command: Command)
    | Fetch
    | Begin
    | Work(graphiti: Graphiti, now: Time)
    | Save
    | Complete(now: Time)
    | RecordFailure(now: Time)

  function Initial(space: T.Space): System {
    System(space, map[], {}, [], Idle, map[], [], [])
  }

  const BUILD := "build_graph"
  const UNKNOWN_JOB := "Unknown graph job"

  /** The metadata a job is created with. */
  function RequestMetadata(p: Payload): Metadata {
    map["project_id" := Text(p.projectId), "graph_name" := Text(p.graphName)]
  }

  /** The metadata a job is completed with, which replaces the former. */
  function FinalMetadata(p: Payload, s: Stats): Metadata {
    map["project_id" := Text(p.projectId), "graph_name" := Text(p.graphName),
        "chunk_count" := Count(s.chunkCount), "node_count" := Count(s.nodeCount),
        "edge_count" := Count(s.edgeCount), "last_built_at" := At(s.lastBuiltAt)]
  }

  function Submitted(c: Command): GraphJob {
    NewJob(c.jobId, BUILD, c.graphId, RequestMetadata(c.payload))
  }

  /** How many chunks the document of a request splits into. */
  function ChunkTotal(space: T.Space, p: Payload): nat {
    |EpisodeBuilder.Chunks(space, p.documentText, p.chunkSize, p.chunkOverlap)|
  }

  /** The work between `mark_running` and `save_metadata`. */
  function AfterWork(c: Command, g: Graphiti, space: T.Space, now: Time): Dispatcher {
    var chunks := ChunkTotal(space, c.payload);
    if g.setup.Some? then Failing(c, g.setup.value)
    else
      match WithFallback(g, chunks)
      case Raised(message) => Failing(c, message)
      case Built(nodes, edges) => Saving(c, Stats(c.graphId, chunks, |nodes|, |edges|, now))
  }

  /** These are the statistics of this work: the chunks of the document, and the nodes and edges of the bulk
      result when there is one, else of all the single calls together. */
  ghost predicate RightStats(space: T.Space, c: Command, g: Graphiti, now: Time, stats: Stats) {
    var n := ChunkTotal(space, c.payload);
    && g.setup.None? && stats.graphId == c.graphId && stats.chunkCount == n && stats.lastBuiltAt == now
    && if n > 1 && g.bulk.Built? then stats.nodeCount == |g.bulk.nodes| && stats.edgeCount == |g.bulk.edges|
       else
         && (forall i :: 0 <= i < n ==> g.single(i).Built?)
         && stats.nodeCount == NodeSum(g, n) && stats.edgeCount == EdgeSum(g, n)
  }

  /** The preparation raised this message, or, with no bulk result, the first single call to raise did. */
  ghost predicate RightFailure(space: T.Space, c: Command, g: Graphiti, message: string) {
    var n := ChunkTotal(space, c.payload);
    if g.setup.Some? then message == g.setup.value
    else (n <= 1 || g.bulk.Raised?) && FirstRaise(g, n, message)
  }

  /** The work ends in saving the right statistics or in failing with the right message. */
  lemma WorkCounts(c: Command, g: Graphiti, space: T.Space, now: Time)
    ensures match AfterWork(c, g, space, now)
      case Saving(c', stats) => c' == c && RightStats(space, c, g, now, stats)
      case Failing(c', message) => c' == c && RightFailure(space, c, g, message)
      case _ => false
  {
    hide ChunkTotal, WithFallback, FirstRaise;
    FallbackExactly(g, ChunkTotal(space, c.payload));
  }

  /** One atomic step. A step that is not possible now leaves the system as it is. */
  function Next(s: System, step: Step): System {
    match step
    case Submit(c) =>
      // uuid4 never repeats an id
      if c.jobId in s.jobs then s
      else s.(jobs := s.jobs[c.jobId := Submitted(c)], pending := s.pending + {c})
    case Enqueue(c) =>
      if c !in s.pending then s
      else s.(pending := s.pending - {c}, queue := s.queue + [c], enqueued := s.enqueued + [c])
    case Fetch =>
      if s.dispatcher != Idle || s.queue == [] then s
      else s.(dispatcher := Fetched(s.queue[0]), queue := s.queue[1..])
    case Begin =>
      if !s.dispatcher.Fetched? then s
      else
        var updated := Update(s.jobs, s.dispatcher.command.jobId, ToRunning);
        if updated.Some? then s.(jobs := updated.value, dispatcher := Working(s.dispatcher.command))
        else s.(dispatcher := Dead)
    case Work(g, now) =>
      if !s.dispatcher.Working? then s else s.(dispatcher := AfterWork(s.dispatcher.command, g, s.space, now))
    case Save =>
      if !s.dispatcher.Saving? then s
      else s.(metadata := s.metadata[s.dispatcher.stats.graphId := s.dispatcher.stats],
              dispatcher := Completing(s.dispatcher.command, s.dispatcher.stats))
    case Complete(now) =>
      if !s.dispatcher.Completing? then s
      else
        var c, stats := s.dispatcher.command, s.dispatcher.stats;
        var updated := Update(s.jobs, c.jobId, ToCompleted(FinalMetadata(c.payload, stats), now));
        if updated.Some? then
          s.(jobs := updated.value, dispatcher := Idle, finished := s.finished + [Finish(c, Success(stats), now)])
        else s.(dispatcher := Failing(c, UNKNOWN_JOB))
    case RecordFailure(now) =>
      if !s.dispatcher.Failing? then s
      else
        var c, message := s.dispatcher.command, s.dispatcher.message;
        var updated := Update(s.jobs, c.jobId, ToFailed(message, now));
        if updated.Some? then
          s.(jobs := updated.value, dispatcher := Idle, finished := s.finished + [Finish(c, Failure(message), now)])
        else s.(dispatcher := Dead)
  }

  function Run(space: T.Space, steps: seq<Step>): System {
    if steps == [] then Initial(space) else Next(Run(space, steps[..|steps| - 1]), steps[|steps| - 1])
  }

  // ---- The invariant ----

  /** The command the dispatcher holds. */
  function Current(d: Dispatcher): Option<Command> {
    if d == Idle || d == Dead then None else Some(d.command)
  }

  /** Between `mark_running` and the final mark. */
  predicate Busy(d: Dispatcher) {
    Current(d).Some? && !d.Fetched?
  }

  /** The record a finished job has. */
  function FinalRecord(f: Finish): GraphJob {
    Changed(Submitted(f.command),
            match f.outcome
            case Success(stats) => ToCompleted(FinalMetadata(f.command.payload, stats), f.now)
            case Failure(message) => ToFailed(message, f.now))
  }

  /** The record of the `i`-th command ever enqueued. */
  function RecordAt(enqueued: seq<Command>, finished: seq<Finish>, busy: bool, i: nat): GraphJob
    requires i < |enqueued|
  {
    if i < |finished| then FinalRecord(finished[i])
    else if i == |finished| && busy then Changed(Submitted(enqueued[i]), ToRunning)
    else Submitted(enqueued[i])
  }

  /** What the build statistics should be once these jobs have finished: the latest success per graph. */
  function LatestStats(finished: seq<Finish>): map<GraphId, Stats> {
    if finished == [] then map[]
    else
      var earlier, last := LatestStats(finished[..|finished| - 1]), finished[|finished| - 1];
      if last.outcome.Success? then earlier[last.outcome.stats.graphId := last.outcome.stats] else earlier
  }

  /** Commands pass through in order: finished, then the dispatcher's, then the waiting ones. */
  ghost predicate InLine(enqueued: seq<Command>, finished: seq<Finish>, current: Option<Command>, queue: seq<Command>) {
    var front := |finished| + One(current.Some?);
    && front <= |enqueued|
    && (forall i :: 0 <= i < |finished| ==> finished[i].command == enqueued[i])
    && (current.Some? ==> current.value == enqueued[|finished|])
    && queue == enqueued[front..]
  }

  /** No job id is used twice among the commands not yet enqueued and those enqueued. */
  ghost predicate IdsDistinct(enqueued: seq<Command>, pending: set<Command>) {
    && (forall i, j :: 0 <= i < j < |enqueued| ==> enqueued[i].jobId != enqueued[j].jobId)
    && (forall c, i :: c in pending && 0 <= i < |enqueued| ==> enqueued[i].jobId != c.jobId)
    && (forall c, d :: c in pending && d in pending && c.jobId == d.jobId ==> c == d)
  }

  ghost predicate IsEnqueued(enqueued: seq<Command>, id: JobId) {
    exists i :: 0 <= i < |enqueued| && enqueued[i].jobId == id
  }

  ghost predicate IsPending(pending: set<Command>, id: JobId) {
    exists c :: c in pending && c.jobId == id
  }

  /** Every job was submitted. */
  ghost predicate Placed(ids: set<JobId>, enqueued: seq<Command>, pending: set<Command>) {
    forall id :: id in ids ==> IsPending(pending, id) || IsEnqueued(enqueued, id)
  }

  /** Every record is the one its place in line calls for. */
  ghost predicate RecordsFit(jobs: Jobs, enqueued: seq<Command>, finished: seq<Finish>, busy: bool,
                             pending: set<Command>)
  {
    && (forall i :: 0 <= i < |enqueued| ==>
          enqueued[i].jobId in jobs && jobs[enqueued[i].jobId] == RecordAt(enqueued, finished, busy, i))
    && (forall c :: c in pending ==> c.jobId in jobs && jobs[c.jobId] == Submitted(c))
  }

  /** These statistics are about this command's graph and count its document's chunks. */
  ghost predicate StatsOf(space: T.Space, c: Command, stats: Stats) {
    stats.graphId == c.graphId && stats.chunkCount == ChunkTotal(space, c.payload)
  }

  /** The statistics are those of the finished jobs, plus those just saved for a job about to complete. */
  ghost predicate StatsFit(space: T.Space, metadata: map<GraphId, Stats>, finished: seq<Finish>, d: Dispatcher) {
    && metadata == (if d.Completing? then LatestStats(finished)[d.command.graphId := d.stats]
                    else LatestStats(finished))
    && (d.Saving? || d.Completing? ==> StatsOf(space, d.command, d.stats))
    && (forall i :: 0 <= i < |finished| && finished[i].outcome.Success? ==>
          StatsOf(space, finished[i].command, finished[i].outcome.stats))
  }

  ghost predicate Inv(s: System) {
    && s.dispatcher != Dead
    && InLine(s.enqueued, s.finished, Current(s.dispatcher), s.queue)
    && IdsDistinct(s.enqueued, s.pending)
    && Placed(s.jobs.Keys, s.enqueued, s.pending)
    && RecordsFit(s.jobs, s.enqueued, s.finished, Busy(s.dispatcher), s.pending)
    && StatsFit(s.space, s.metadata, s.finished, s.dispatcher)
  }

  // ---- Every step keeps it ----

  lemma PlacedNewPending(ids: set<JobId>, enqueued: seq<Command>, pending: set<Command>, c: Command)
    requires Placed(ids, enqueued, pending)
    ensures Placed(ids + {c.jobId}, enqueued, pending + {c})
  {
    forall id | id in ids + {c.jobId} ensures IsPending(pending + {c}, id) || IsEnqueued(enqueued, id) {
      if id == c.jobId {
        assert c in pending + {c};
      } else if IsPending(pending, id) {
        var d :| d in pending && d.jobId == id;
        assert d in pending + {c};
      }
    }
  }

  lemma PlacedEnqueue(ids: set<JobId>, enqueued: seq<Command>, pending: set<Command>, c: Command)
    requires Placed(ids, enqueued, pending)
    ensures Placed(ids, enqueued + [c], pending - {c})
  {
    forall id | id in ids ensures IsPending(pending - {c}, id) || IsEnqueued(enqueued + [c], id) {
      if IsPending(pending, id) {
        var d :| d in pending && d.jobId == id;
        assert if d == c then (enqueued + [c])[|enqueued|].jobId == id else d in pending - {c};
      } else {
        var i :| 0 <= i < |enqueued| && enqueued[i].jobId == id;
        assert (enqueued + [c])[i].jobId == id;
      }
    }
  }

  lemma SubmitKeepsInv(s: System, c: Command)
    requires Inv(s)
    ensures Inv(Next(s, Submit(c)))
  {
    hide InLine, StatsFit, Placed, Submitted, FinalRecord, Changed;
    if c.jobId !in s.jobs {
      PlacedNewPending(s.jobs.Keys, s.enqueued, s.pending, c);
      assert s.jobs[c.jobId := Submitted(c)].Keys == s.jobs.Keys + {c.jobId};
    }
  }

  lemma RecordsEnqueue(jobs: Jobs, enqueued: seq<Command>, finished: seq<Finish>, busy: bool,
                       pending: set<Command>, c: Command)
    requires RecordsFit(jobs, enqueued, finished, busy, pending) && c in pending
    requires |finished| + One(busy) <= |enqueued|
    ensures RecordsFit(jobs, enqueued + [c], finished, busy, pending - {c})
  {
    forall i | 0 <= i < |enqueued| + 1
      ensures jobs[(enqueued + [c])[i].jobId] == RecordAt(enqueued + [c], finished, busy, i)
    {
      if i < |enqueued| { assert jobs[enqueued[i].jobId] == RecordAt(enqueued, finished, busy, i); }
    }
  }

  lemma LineEnqueue(enqueued: seq<Command>, finished: seq<Finish>, current: Option<Command>,
                    queue: seq<Command>, c: Command)
    requires InLine(enqueued, finished, current, queue)
    ensures InLine(enqueued + [c], finished, current, queue + [c])
  {
    var front := |finished| + One(current.Some?);
    assert (enqueued + [c])[front..] == enqueued[front..] + [c];
  }

  lemma IdsEnqueue(enqueued: seq<Command>, pending: set<Command>, c: Command)
    requires IdsDistinct(enqueued, pending) && c in pending
    ensures IdsDistinct(enqueued + [c], pending - {c})
  {
  }

  lemma EnqueueKeepsInv(s: System, c: Command)
    requires Inv(s)
    ensures Inv(Next(s, Enqueue(c)))
  {
    assert |s.finished| + One(Busy(s.dispatcher)) <= |s.enqueued|;
    hide RecordsFit, StatsFit, Placed, InLine, IdsDistinct;
    if c in s.pending {
      LineEnqueue(s.enqueued, s.finished, Current(s.dispatcher), s.queue, c);
      IdsEnqueue(s.enqueued, s.pending, c);
      PlacedEnqueue(s.jobs.Keys, s.enqueued, s.pending, c);
      RecordsEnqueue(s.jobs, s.enqueued, s.finished, Busy(s.dispatcher), s.pending, c);
    }
  }

  lemma FetchKeepsInv(s: System)
    requires Inv(s)
    ensures Inv(Next(s, Fetch))
  {
    hide RecordsFit, Placed, IdsDistinct;
    if s.dispatcher == Idle && s.queue != [] {
      assert s.queue[0] == s.enqueued[|s.finished|];
    }
  }

  /** Rewriting the record of the command at position `n` and nothing else. */
  lemma RecordsRewrite(jobs: Jobs, enqueued: seq<Command>, finished: seq<Finish>, finished': seq<Finish>,
                       pending: set<Command>, busy: bool, busy': bool, n: nat, j: GraphJob)
    requires RecordsFit(jobs, enqueued, finished, busy, pending) && IdsDistinct(enqueued, pending)
    requires n == |finished| < |enqueued| && finished <= finished'
    requires |finished'| <= n + 1 && (busy' ==> finished' == finished)
    requires j == RecordAt(enqueued, finished', busy', n)
    ensures RecordsFit(jobs[enqueued[n].jobId := j], enqueued, finished', busy', pending)
  {
    hide FinalRecord, Submitted, Changed;
    var jobs' := jobs[enqueued[n].jobId := j];
    forall i | 0 <= i < |enqueued|
      ensures enqueued[i].jobId in jobs' && jobs'[enqueued[i].jobId] == RecordAt(enqueued, finished', busy', i)
    {
      assert jobs[enqueued[i].jobId] == RecordAt(enqueued, finished, busy, i);
    }
  }

  lemma CurrentStored(s: System)
    requires Inv(s) && Current(s.dispatcher).Some?
    ensures var c, n := Current(s.dispatcher).value, |s.finished|;
      && n < |s.enqueued| && s.enqueued[n] == c && c.jobId in s.jobs
      && s.jobs[c.jobId] == if Busy(s.dispatcher) then Changed(Submitted(c), ToRunning) else Submitted(c)
  {
    var n := |s.finished|;
    assert s.jobs[s.enqueued[n].jobId] == RecordAt(s.enqueued, s.finished, Busy(s.dispatcher), n);
  }

  lemma BeginKeepsInv(s: System)
    requires Inv(s)
    ensures Inv(Next(s, Begin))
  {
    CurrentStoredIfAny(s);
    hide InLine, RecordsFit, StatsFit, Placed, IdsDistinct, Changed, Submitted, LatestStats;
    if s.dispatcher.Fetched? {
      var c := s.dispatcher.command;
      RecordsRewrite(s.jobs, s.enqueued, s.finished, s.finished, s.pending, false, true, |s.finished|,
                     Changed(Submitted(c), ToRunning));
      assert s.jobs[c.jobId := Changed(Submitted(c), ToRunning)].Keys == s.jobs.Keys;
      StatsFitKept(s.space, s.metadata, s.finished, s.dispatcher, Working(c));
    }
  }

  lemma CurrentStoredIfAny(s: System)
    requires Inv(s)
    ensures Current(s.dispatcher).Some? ==> var c, n := Current(s.dispatcher).value, |s.finished|;
      && n < |s.enqueued| && s.enqueued[n] == c && c.jobId in s.jobs
      && s.jobs[c.jobId] == if Busy(s.dispatcher) then Changed(Submitted(c), ToRunning) else Submitted(c)
  {
    if Current(s.dispatcher).Some? { CurrentStored(s); }
  }

  lemma StatsFitKept(space: T.Space, metadata: map<GraphId, Stats>, finished: seq<Finish>,
                     d: Dispatcher, d': Dispatcher)
    requires StatsFit(space, metadata, finished, d) && !d.Completing? && !d'.Completing?
    requires d'.Saving? ==> StatsOf(space, d'.command, d'.stats)
    ensures StatsFit(space, metadata, finished, d')
  {
  }

  lemma WorkKeepsInv(s: System, g: Graphiti, now: Time)
    requires Inv(s)
    ensures Inv(Next(s, Work(g, now)))
  {
    hide InLine, RecordsFit, StatsFit, Placed, IdsDistinct, WithFallback;
    if s.dispatcher.Working? {
      StatsFitKept(s.space, s.metadata, s.finished, s.dispatcher, AfterWork(s.dispatcher.command, g, s.space, now));
    }
  }

  lemma SaveKeepsInv(s: System)
    requires Inv(s)
    ensures Inv(Next(s, Save))
  {
    hide InLine, RecordsFit, Placed, IdsDistinct;
  }

  lemma StatsAfter(space: T.Space, metadata: map<GraphId, Stats>, d: Dispatcher, finished: seq<Finish>, f: Finish)
    requires StatsFit(space, metadata, finished, d)
    requires match f.outcome
      case Success(stats) => d == Completing(f.command, stats)
      case Failure(message) => d == Failing(f.command, message)
    ensures StatsFit(space, metadata, finished + [f], Idle)
  {
    assert (finished + [f])[..|finished|] == finished;
  }

  lemma LineFinish(enqueued: seq<Command>, finished: seq<Finish>, f: Finish, queue: seq<Command>)
    requires InLine(enqueued, finished, Some(f.command), queue)
    ensures InLine(enqueued, finished + [f], None, queue)
  {
  }

  lemma FinishKeepsInv(s: System, f: Finish)
    requires Inv(s) && |s.finished| < |s.enqueued| && s.enqueued[|s.finished|] == f.command
    requires f.command.jobId in s.jobs
    requires match f.outcome
      case Success(stats) => s.dispatcher == Completing(f.command, stats)
      case Failure(message) => s.dispatcher == Failing(f.command, message)
    ensures Inv(s.(jobs := s.jobs[f.command.jobId := FinalRecord(f)], dispatcher := Idle, finished := s.finished + [f]))
  {
    hide InLine, RecordsFit, StatsFit, Placed, IdsDistinct, FinalRecord, Changed, Submitted;
    LineFinish(s.enqueued, s.finished, f, s.queue);
    StatsAfter(s.space, s.metadata, s.dispatcher, s.finished, f);
    RecordsRewrite(s.jobs, s.enqueued, s.finished, s.finished + [f], s.pending,
                   true, false, |s.finished|, FinalRecord(f));
    assert s.jobs[f.command.jobId := FinalRecord(f)].Keys == s.jobs.Keys;
  }

  /** Finishing from the running record gives the final record. */
  lemma FinalFromRunning(c: Command, stats: Stats, message: string, now: Time)
    ensures var running := Changed(Submitted(c), ToRunning);
      && Changed(running, ToCompleted(FinalMetadata(c.payload, stats), now))
           == FinalRecord(Finish(c, Success(stats), now))
      && Changed(running, ToFailed(message, now)) == FinalRecord(Finish(c, Failure(message), now))
  {
  }

  lemma CompleteKeepsInv(s: System, now: Time)
    requires Inv(s)
    ensures Inv(Next(s, Complete(now)))
  {
    hide Inv, FinalRecord, Changed, Submitted, FinalMetadata;
    CurrentStoredIfAny(s);
    if s.dispatcher.Completing? {
      FinalFromRunning(s.dispatcher.command, s.dispatcher.stats, "", now);
      FinishKeepsInv(s, Finish(s.dispatcher.command, Success(s.dispatcher.stats), now));
    }
  }

  lemma RecordFailureKeepsInv(s: System, now: Time)
    requires Inv(s)
    ensures Inv(Next(s, RecordFailure(now)))
  {
    hide Inv, FinalRecord, Changed, Submitted, FinalMetadata;
    CurrentStoredIfAny(s);
    if s.dispatcher.Failing? {
      FinalFromRunning(s.dispatcher.command, Stats("", 0, 0, 0, 0), s.dispatcher.message, now);
      FinishKeepsInv(s, Finish(s.dispatcher.command, Failure(s.dispatcher.message), now));
    }
  }

  lemma NextKeepsInv(s: System, step: Step)
    requires Inv(s)
    ensures Inv(Next(s, step))
  {
    hide Inv, Next;
    match step
    case Submit(c) => SubmitKeepsInv(s, c);
    case Enqueue(c) => EnqueueKeepsInv(s, c);
    case Fetch => FetchKeepsInv(s);
    case Begin => BeginKeepsInv(s);
    case Work(g, now) => WorkKeepsInv(s, g, now);
    case Save => SaveKeepsInv(s);
    case Complete(now) => CompleteKeepsInv(s, now);
    case RecordFailure(now) => RecordFailureKeepsInv(s, now);
  }

  lemma InitialInv(space: T.Space)
    ensures Inv(Initial(space))
  {
  }

  lemma {:induction false} AlwaysInv(space: T.Space, steps: seq<Step>)
    ensures Inv(Run(space, steps))
  {
    hide Inv, Next;
    if steps == [] {
      InitialInv(space);
    } else {
      AlwaysInv(space, steps[..|steps| - 1]);
      NextKeepsInv(Run(space, steps[..|steps| - 1]), steps[|steps| - 1]);
    }
  }

  // ---- Safety over all runs ----

  /** The places a job can be in. */
  datatype Place = NotEnqueued | Waiting | Executing | Finished

  ghost predicate IsAt(s: System, id: JobId, p: Place) {
    match p
    case NotEnqueued => IsPending(s.pending, id)
    case Waiting => IsEnqueued(s.queue, id)
    case Executing => Current(s.dispatcher).Some? && Current(s.dispatcher).value.jobId == id
    case Finished => exists i :: 0 <= i < |s.finished| && s.finished[i].command.jobId == id
  }

  /** The status that goes with a place. */
  ghost predicate StatusAt(s: System, status: Status, p: Place) {
    match p
    case NotEnqueued => status == Queued
    case Waiting => status == Queued
    case Executing => status == if s.dispatcher.Fetched? then Queued else Running
    case Finished => status == Completed || status == Failed
  }

  /** The place of the `i`-th command ever enqueued. */
  function PlaceAt(finished: nat, current: nat, i: nat): Place {
    if i < finished then Finished else if i < finished + current then Executing else Waiting
  }

  lemma EnqueuedPlace(s: System, i: nat)
    requires Inv(s) && i < |s.enqueued|
    ensures var id, p := s.enqueued[i].jobId, PlaceAt(|s.finished|, One(Current(s.dispatcher).Some?), i);
      id in s.jobs && IsAt(s, id, p) && StatusAt(s, s.jobs[id].status, p)
  {
    hide IdsDistinct, Placed, StatsFit;
    var front := |s.finished| + One(Current(s.dispatcher).Some?);
    assert s.jobs[s.enqueued[i].jobId] == RecordAt(s.enqueued, s.finished, Busy(s.dispatcher), i);
    if i < |s.finished| {
      assert s.finished[i].command.jobId == s.enqueued[i].jobId;
    } else if i >= front {
      assert s.queue[i - front].jobId == s.enqueued[i].jobId;
    }
  }

  /** A job is in no place but that of its position in line. */
  lemma EnqueuedOnlyThere(s: System, i: nat)
    requires Inv(s) && i < |s.enqueued|
    ensures forall q :: IsAt(s, s.enqueued[i].jobId, q) ==>
      q == PlaceAt(|s.finished|, One(Current(s.dispatcher).Some?), i)
  {
    hide RecordsFit, Placed, StatsFit;
    var id, front := s.enqueued[i].jobId, |s.finished| + One(Current(s.dispatcher).Some?);
    forall k | 0 <= k < |s.queue| && s.queue[k].jobId == id ensures front + k == i {
      assert s.enqueued[front + k].jobId == id;
    }
    forall k | 0 <= k < |s.finished| && s.finished[k].command.jobId == id ensures k == i {
      assert s.enqueued[k].jobId == id;
    }
    assert !IsPending(s.pending, id);
  }

  lemma PendingOnlyThere(s: System, c: Command)
    requires Inv(s) && c in s.pending
    ensures forall q :: IsAt(s, c.jobId, q) ==> q == NotEnqueued
  {
    hide RecordsFit, Placed, StatsFit;
    var front := |s.finished| + One(Current(s.dispatcher).Some?);
    forall k | 0 <= k < |s.queue| ensures s.queue[k].jobId != c.jobId {
      assert s.queue[k] == s.enqueued[front + k];
    }
    forall k | 0 <= k < |s.finished| ensures s.finished[k].command.jobId != c.jobId {
      assert s.finished[k].command == s.enqueued[k];
    }
  }

  /** In every run each job is in exactly one place, and its status is one that goes with that place. */
  lemma OnePlaceEach(space: T.Space, steps: seq<Step>, id: JobId) returns (p: Place)
    requires id in Run(space, steps).jobs
    ensures IsAt(Run(space, steps), id, p) && StatusAt(Run(space, steps), Run(space, steps).jobs[id].status, p)
    ensures forall q :: IsAt(Run(space, steps), id, q) ==> q == p
  {
    AlwaysInv(space, steps);
    p := UniquePlace(Run(space, steps), id);
  }

  lemma UniquePlace(s: System, id: JobId) returns (p: Place)
    requires Inv(s) && id in s.jobs
    ensures IsAt(s, id, p) && StatusAt(s, s.jobs[id].status, p)
    ensures forall q :: IsAt(s, id, q) ==> q == p
  {
    hide InLine, StatsFit, IdsDistinct;
    if IsPending(s.pending, id) {
      var c :| c in s.pending && c.jobId == id;
      p := NotEnqueued;
      PendingOnlyThere(s, c);
    } else {
      assert IsEnqueued(s.enqueued, id);
      var i: nat :| i < |s.enqueued| && s.enqueued[i].jobId == id;
      hide IsAt, StatusAt;
      EnqueuedPlace(s, i);
      p := PlaceAt(|s.finished|, One(Current(s.dispatcher).Some?), i);
      EnqueuedOnlyThere(s, i);
    }
  }

  /** At most one job is running: the one the dispatcher has begun. */
  lemma AtMostOneRunning(space: T.Space, steps: seq<Step>, id: JobId)
    requires id in Run(space, steps).jobs
    ensures Run(space, steps).jobs[id].status == Running <==>
      Busy(Run(space, steps).dispatcher) && Run(space, steps).dispatcher.command.jobId == id
  {
    var s := Run(space, steps);
    AlwaysInv(space, steps);
    var p := UniquePlace(s, id);
    hide Inv, IsEnqueued, IsPending;
    assert IsAt(s, id, Executing) ==> p == Executing;
  }

  function Commands(fs: seq<Finish>): (r: seq<Command>)
    ensures |r| == |fs| && forall i :: 0 <= i < |fs| ==> r[i] == fs[i].command
  {
    seq(|fs|, i requires 0 <= i < |fs| => fs[i].command)
  }

  /** No exception ever escapes into the dispatcher thread, and jobs finish in the order in which they
      were enqueued, none overtaking and none lost. */
  lemma DispatcherSurvivesInOrder(space: T.Space, steps: seq<Step>)
    ensures var s := Run(space, steps);
      && s.dispatcher != Dead
      && s.enqueued == Commands(s.finished)
           + (if Current(s.dispatcher).Some? then [Current(s.dispatcher).value] else []) + s.queue
  {
    AlwaysInv(space, steps);
    var s := Run(space, steps);
    hide RecordsFit, StatsFit, IdsDistinct, Placed, Run;
    assert Commands(s.finished) == s.enqueued[..|s.finished|];
  }

  /** Completed and failed records never change again, although the store would let them. */
  lemma {:induction false} TerminalIsFinal(space: T.Space, steps: seq<Step>, more: seq<Step>, id: JobId)
    requires id in Run(space, steps).jobs
    requires Run(space, steps).jobs[id].status == Completed || Run(space, steps).jobs[id].status == Failed
    ensures id in Run(space, steps + more).jobs && Run(space, steps + more).jobs[id] == Run(space, steps).jobs[id]
    decreases |more|
  {
    hide Inv, Next;
    if more == [] {
      assert steps + more == steps;
    } else {
      var init := more[..|more| - 1];
      TerminalIsFinal(space, steps, init, id);
      assert (steps + more)[..|steps + more| - 1] == steps + init;
      AlwaysInv(space, steps + init);
      NextKeepsTerminal(Run(space, steps + init), more[|more| - 1], id);
    }
  }

  lemma NextKeepsTerminal(s: System, step: Step, id: JobId)
    requires Inv(s) && id in s.jobs && (s.jobs[id].status == Completed || s.jobs[id].status == Failed)
    ensures id in Next(s, step).jobs && Next(s, step).jobs[id] == s.jobs[id]
  {
    hide Inv, AfterWork, FinalMetadata;
    CurrentStoredIfAny(s);
  }

  // ---- Build statistics ----

  /** Position `i` is the last success for graph `g` among the finished jobs. */
  ghost predicate LastSuccess(finished: seq<Finish>, g: GraphId, i: nat) {
    && i < |finished| && finished[i].command.graphId == g && finished[i].outcome.Success?
    && forall j :: i < j < |finished| && finished[j].command.graphId == g ==> finished[j].outcome.Failure?
  }

  lemma {:induction false} LatestStatsMeaning(finished: seq<Finish>, g: GraphId)
    requires forall i :: 0 <= i < |finished| && finished[i].outcome.Success? ==>
      finished[i].outcome.stats.graphId == finished[i].command.graphId
    ensures g in LatestStats(finished) <==> exists i: nat :: LastSuccess(finished, g, i)
    ensures g in LatestStats(finished) ==>
      forall i: nat :: LastSuccess(finished, g, i) ==> LatestStats(finished)[g] == finished[i].outcome.stats
  {
    if finished != [] {
      var init, last, n := finished[..|finished| - 1], finished[|finished| - 1], |finished| - 1;
      LatestStatsMeaning(init, g);
      if last.outcome.Success? && last.command.graphId == g {
        assert LastSuccess(finished, g, n);
      } else {
        forall i: nat ensures LastSuccess(finished, g, i) <==> LastSuccess(init, g, i) {
          if LastSuccess(init, g, i) {
            assert forall j :: i < j < n ==> init[j] == finished[j];
          }
        }
      }
    }
  }

  lemma {:induction false} LastOne(finished: seq<Finish>, g: GraphId, i: nat) returns (k: nat)
    requires i < |finished| && finished[i].command.graphId == g && finished[i].outcome.Success?
    ensures LastSuccess(finished, g, k)
    decreases |finished| - i
  {
    if j :| i < j < |finished| && finished[j].command.graphId == g && finished[j].outcome.Success? {
      k := LastOne(finished, g, j);
    } else {
      k := i;
    }
  }

  ghost predicate HasCompleted(jobs: Jobs, g: GraphId) {
    exists id :: id in jobs && jobs[id].graphId == g && jobs[id].status == Completed
  }

  /** The statistics of this graph have been saved, and the job they describe is about to be completed. */
  predicate JustSaved(d: Dispatcher, g: GraphId) {
    d.Completing? && d.command.graphId == g
  }

  /** The statistics hold an entry for a graph exactly when some job for it is completed, or the dispatcher
      is completing one. */
  lemma StatsExactlyWhenCompleted(space: T.Space, steps: seq<Step>, g: GraphId)
    ensures var s := Run(space, steps);
      && (g in s.metadata <==> HasCompleted(s.jobs, g) || JustSaved(s.dispatcher, g))
      && (JustSaved(s.dispatcher, g) ==> s.metadata[g] == s.dispatcher.stats)
  {
    AlwaysInv(space, steps);
    var s := Run(space, steps);
    hide Run, Inv;
    StatsAreLatest(s, g);
    if g in s.metadata && !JustSaved(s.dispatcher, g) {
      var i: nat :| LastSuccess(s.finished, g, i);
      FinishedRecord(s, i);
    }
    if HasCompleted(s.jobs, g) {
      var id :| id in s.jobs && s.jobs[id].graphId == g && s.jobs[id].status == Completed;
      var p := UniquePlace(s, id);
      var i: nat :| i < |s.finished| && s.finished[i].command.jobId == id;
      FinishedRecord(s, i);
      var k := LastOne(s.finished, g, i);
    }
  }

  lemma StatsAreLatest(s: System, g: GraphId)
    requires Inv(s)
    ensures JustSaved(s.dispatcher, g) ==> g in s.metadata && s.metadata[g] == s.dispatcher.stats
    ensures g in s.metadata <==> JustSaved(s.dispatcher, g) || exists i: nat :: LastSuccess(s.finished, g, i)
    ensures g in s.metadata && !JustSaved(s.dispatcher, g) ==>
      forall i: nat :: LastSuccess(s.finished, g, i) ==> s.metadata[g] == s.finished[i].outcome.stats
  {
    hide InLine, RecordsFit, Placed, IdsDistinct, ChunkTotal;
    LatestStatsMeaning(s.finished, g);
  }

  /** The metadata of a completed job, key by key. */
  ghost predicate Reports(m: Metadata, p: Payload, stats: Stats) {
    && m.Keys == {"project_id", "graph_name", "chunk_count", "node_count", "edge_count", "last_built_at"}
    && m["project_id"] == Text(p.projectId) && m["graph_name"] == Text(p.graphName)
    && m["chunk_count"] == Count(stats.chunkCount) && m["node_count"] == Count(stats.nodeCount)
    && m["edge_count"] == Count(stats.edgeCount) && m["last_built_at"] == At(stats.lastBuiltAt)
  }

  lemma FinalMetadataReports(p: Payload, stats: Stats)
    ensures Reports(FinalMetadata(p, stats), p, stats)
  {
  }

  /** Outside that moment such an entry is what the last of those jobs to finish recorded in its own metadata. */
  lemma StatsAreTheLast(space: T.Space, steps: seq<Step>, g: GraphId) returns (f: Finish)
    requires g in Run(space, steps).metadata && !JustSaved(Run(space, steps).dispatcher, g)
    ensures var s := Run(space, steps);
      && (exists i: nat :: LastSuccess(s.finished, g, i) && s.finished[i] == f)
      && f.command.jobId in s.jobs && s.jobs[f.command.jobId].status == Completed
      && Reports(s.jobs[f.command.jobId].metadata, f.command.payload, s.metadata[g])
      && s.metadata[g].chunkCount == ChunkTotal(space, f.command.payload)
  {
    AlwaysInv(space, steps);
    var s := Run(space, steps);
    hide Run, Inv;
    StatsAreLatest(s, g);
    var i: nat :| LastSuccess(s.finished, g, i);
    FinishedRecord(s, i);
    FinishedStats(s, i);
    SpaceFixed(space, steps);
    f := s.finished[i];
    FinalMetadataReports(f.command.payload, s.metadata[g]);
  }

  lemma FinishedStats(s: System, i: nat)
    requires Inv(s) && i < |s.finished| && s.finished[i].outcome.Success?
    ensures StatsOf(s.space, s.finished[i].command, s.finished[i].outcome.stats)
  {
    hide InLine, RecordsFit, Placed, IdsDistinct;
  }

  lemma {:induction false} SpaceFixed(space: T.Space, steps: seq<Step>)
    ensures Run(space, steps).space == space
  {
    hide Next;
    if steps != [] {
      SpaceFixed(space, steps[..|steps| - 1]);
      NextKeepsSpace(Run(space, steps[..|steps| - 1]), steps[|steps| - 1]);
    }
  }

  lemma NextKeepsSpace(s: System, step: Step)
    ensures Next(s, step).space == s.space
  {
    hide AfterWork, Changed, Submitted, FinalMetadata;
  }

  lemma FinishedRecord(s: System, i: nat)
    requires Inv(s) && i < |s.finished|
    ensures s.finished[i].command.jobId in s.jobs
    ensures s.jobs[s.finished[i].command.jobId] == FinalRecord(s.finished[i])
  {
    hide StatsFit, Placed, IdsDistinct, FinalRecord;
    assert s.enqueued[i] == s.finished[i].command;
    assert s.jobs[s.enqueued[i].jobId] == RecordAt(s.enqueued, s.finished, Busy(s.dispatcher), i);
  }

  /** The record carries the graph, project and graph name of this request. */
  ghost predicate Named(j: GraphJob, c: Command) {
    && "project_id" in j.metadata && j.metadata["project_id"] == Text(c.payload.projectId)
    && "graph_name" in j.metadata && j.metadata["graph_name"] == Text(c.payload.graphName)
    && j.graphId == c.graphId
  }

  lemma RecordNamed(enqueued: seq<Command>, finished: seq<Finish>, busy: bool, i: nat)
    requires i < |enqueued| && (i < |finished| ==> finished[i].command == enqueued[i])
    ensures Named(RecordAt(enqueued, finished, busy, i), enqueued[i])
  {
  }

  lemma SubmittedNamed(c: Command)
    ensures Named(Submitted(c), c)
  {
  }

  /** The graph, project and graph name a job is submitted with stay in its record for good. */
  lemma NamesSurvive(space: T.Space, steps: seq<Step>, c: Command)
    requires c in Run(space, steps).pending || c in Run(space, steps).enqueued
    ensures c.jobId in Run(space, steps).jobs && Named(Run(space, steps).jobs[c.jobId], c)
  {
    AlwaysInv(space, steps);
    var s := Run(space, steps);
    hide Run, StatsFit, Placed, IdsDistinct, Submitted, RecordAt, Named;
    if c in s.enqueued {
      var i :| 0 <= i < |s.enqueued| && s.enqueued[i] == c;
      RecordNamed(s.enqueued, s.finished, Busy(s.dispatcher), i);
      assert s.jobs[s.enqueued[i].jobId] == RecordAt(s.enqueued, s.finished, Busy(s.dispatcher), i);
    } else {
      SubmittedNamed(c);
    }
  }
}
