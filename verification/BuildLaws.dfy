/** Where the outcome of a build comes from, and what its record says, in every run of the service. */
module BuildLaws {
  import opened Wrappers
  import opened GraphJobs
  import opened BuildEpisodes
  import opened BuildProtocol
  import T = Text

  // ---- Outcomes come from the work ----

  ghost predicate RightOutcome(space: T.Space, c: Command, g: Graphiti, now: Time, o: Outcome) {
    match o
    case Success(stats) => RightStats(space, c, g, now, stats)
    case Failure(message) => RightFailure(space, c, g, message)
  }

  /** Earlier in this run the dispatcher did the work for `c`, and this is its outcome. */
  ghost predicate Produced(space: T.Space, steps: seq<Step>, c: Command, o: Outcome) {
    exists k, g, now :: 0 <= k < |steps| && steps[k] == Work(g, now)
      && Run(space, steps[..k]).dispatcher == Working(c) && RightOutcome(space, c, g, now, o)
  }

  /** The outcome the dispatcher still has to record. */
  function Due(d: Dispatcher): Option<(Command, Outcome)> {
    match d
    case Saving(c, stats) => Some((c, Success(stats)))
    case Completing(c, stats) => Some((c, Success(stats)))
    case Failing(c, message) => Some((c, Failure(message)))
    case _ => None
  }

  lemma NextDue(s: System, step: Step)
    requires Inv(s)
    ensures var d := Due(Next(s, step).dispatcher);
      d.None? || d == Due(s.dispatcher) || (
        && step.Work? && s.dispatcher == Working(d.value.0)
        && RightOutcome(s.space, d.value.0, step.graphiti, step.now, d.value.1))
  {
    CurrentStoredIfAny(s);
    hide Inv, AfterWork, RightStats, RightFailure, ChunkTotal, FinalMetadata, Changed, Submitted;
    if step.Work? && s.dispatcher.Working? { WorkCounts(s.dispatcher.command, step.graphiti, s.space, step.now); }
  }

  lemma NextFinished(s: System, step: Step)
    ensures var finished := Next(s, step).finished;
      finished == s.finished
      || exists f :: finished == s.finished + [f] && Due(s.dispatcher) == Some((f.command, f.outcome))
  {
    hide AfterWork, FinalMetadata, Changed, Submitted;
    var finished := Next(s, step).finished;
    if finished != s.finished {
      var f := finished[|s.finished|];
      assert finished == s.finished + [f] && Due(s.dispatcher) == Some((f.command, f.outcome));
    }
  }

  lemma ProducedStays(space: T.Space, steps: seq<Step>, c: Command, o: Outcome)
    requires steps != [] && Produced(space, steps[..|steps| - 1], c, o)
    ensures Produced(space, steps, c, o)
  {
    hide Run, RightOutcome;
    var n := |steps| - 1;
    var k, g, now :| 0 <= k < n && steps[..n][k] == Work(g, now)
      && Run(space, steps[..n][..k]).dispatcher == Working(c) && RightOutcome(space, c, g, now, o);
    assert steps[..n][..k] == steps[..k];
    assert steps[k] == Work(g, now) && Run(space, steps[..k]).dispatcher == Working(c);
  }

  lemma {:induction false} AllProduced(space: T.Space, steps: seq<Step>)
    ensures var s := Run(space, steps);
      && (Due(s.dispatcher).Some? ==> Produced(space, steps, Due(s.dispatcher).value.0, Due(s.dispatcher).value.1))
      && forall i :: 0 <= i < |s.finished| ==> Produced(space, steps, s.finished[i].command, s.finished[i].outcome)
  {
    hide Next, Produced, Due, RightOutcome, Inv;
    if steps == [] {
      NothingDue(space);
    } else {
      var n := |steps| - 1;
      var init := steps[..n];
      var s, s' := Run(space, init), Run(space, steps);
      AllProduced(space, init);
      AlwaysInv(space, init);
      SpaceFixed(space, init);
      NextDue(s, steps[n]);
      NextFinished(s, steps[n]);
      if Due(s'.dispatcher).Some? {
        var c, o := Due(s'.dispatcher).value.0, Due(s'.dispatcher).value.1;
        if Due(s'.dispatcher) == Due(s.dispatcher) { ProducedStays(space, steps, c, o); }
        else { ProducedNow(space, steps, c, o); }
      }
      forall i | 0 <= i < |s'.finished| ensures Produced(space, steps, s'.finished[i].command, s'.finished[i].outcome) {
        ProducedStays(space, steps, s'.finished[i].command, s'.finished[i].outcome);
      }
    }
  }

  lemma NothingDue(space: T.Space)
    ensures Due(Initial(space).dispatcher).None? && Initial(space).finished == []
  {
  }

  lemma ProducedNow(space: T.Space, steps: seq<Step>, c: Command, o: Outcome)
    requires steps != [] && steps[|steps| - 1].Work? && Run(space, steps[..|steps| - 1]).dispatcher == Working(c)
    requires RightOutcome(space, c, steps[|steps| - 1].graphiti, steps[|steps| - 1].now, o)
    ensures Produced(space, steps, c, o)
  {
    hide Run, RightOutcome;
    var last := steps[|steps| - 1];
    assert steps[|steps| - 1] == Work(last.graphiti, last.now);
  }

  /** In every run, a finished job ended as its own work did: with the statistics of the bulk result, or of
      the single calls together, or with the message of what raised. */
  lemma OutcomesComeFromWork(space: T.Space, steps: seq<Step>, i: nat)
    requires i < |Run(space, steps).finished|
    ensures var f := Run(space, steps).finished[i]; Produced(space, steps, f.command, f.outcome)
  {
    hide Run, Produced;
    AllProduced(space, steps);
  }

  /** The statistics stored for a graph at any moment were produced by the work for some job on it. */
  lemma SavedStatsComeFromWork(space: T.Space, steps: seq<Step>, g: GraphId) returns (c: Command)
    requires g in Run(space, steps).metadata
    ensures c.graphId == g && Produced(space, steps, c, Success(Run(space, steps).metadata[g]))
  {
    AlwaysInv(space, steps);
    AllProduced(space, steps);
    var s := Run(space, steps);
    hide Run, Inv, Produced;
    StatsAreLatest(s, g);
    if JustSaved(s.dispatcher, g) {
      c := s.dispatcher.command;
    } else {
      var i: nat :| LastSuccess(s.finished, g, i);
      assert s.finished[i].outcome == Success(s.finished[i].outcome.stats);
      c := s.finished[i].command;
    }
  }

  // ---- What the records say ----

  /** The metadata of a job that is not completed. */
  ghost predicate Requested(m: Metadata, p: Payload) {
    && m.Keys == {"project_id", "graph_name"}
    && m["project_id"] == Text(p.projectId) && m["graph_name"] == Text(p.graphName)
  }

  /** The record of a job that has ended. */
  ghost predicate Tells(j: GraphJob, f: Finish) {
    && j.jobId == f.command.jobId && j.graphId == f.command.graphId && j.jobType == "build_graph"
    && j.completedAt == Some(f.now) && j.degradedReason.None?
    && match f.outcome
       case Success(stats) =>
         j.status == Completed && j.errorMessage.None? && Reports(j.metadata, f.command.payload, stats)
       case Failure(message) =>
         j.status == Failed && j.errorMessage == Some(message) && Requested(j.metadata, f.command.payload)
  }

  /** A finished job's record tells its outcome: the statistics under their keys, or the error message. */
  lemma FinishedRecordTells(space: T.Space, steps: seq<Step>, i: nat)
    requires i < |Run(space, steps).finished|
    ensures var s, f := Run(space, steps), Run(space, steps).finished[i];
      f.command.jobId in s.jobs && Tells(s.jobs[f.command.jobId], f)
  {
    AlwaysInv(space, steps);
    hide Run, Inv;
    FinishedRecord(Run(space, steps), i);
    FinalRecordTells(Run(space, steps).finished[i]);
  }

  lemma FinalRecordTells(f: Finish)
    ensures Tells(FinalRecord(f), f)
  {
  }

  /** The record of a job that has not ended. */
  ghost predicate Untold(j: GraphJob, c: Command) {
    && j.jobId == c.jobId && j.graphId == c.graphId && j.jobType == "build_graph"
    && (j.status == Queued || j.status == Running)
    && j.completedAt.None? && j.errorMessage.None? && j.degradedReason.None? && Requested(j.metadata, c.payload)
  }

  /** A job that has not ended is queued or running, and its record tells nothing but the request. */
  lemma OpenRecordTellsNothing(space: T.Space, steps: seq<Step>, c: Command)
    requires var s := Run(space, steps);
      c in s.pending || c in s.queue || Current(s.dispatcher) == Some(c)
    ensures c.jobId in Run(space, steps).jobs && Untold(Run(space, steps).jobs[c.jobId], c)
  {
    AlwaysInv(space, steps);
    var s := Run(space, steps);
    hide Run, StatsFit, Placed, IdsDistinct, Untold;
    SubmittedUntold(c);
    CurrentStoredIfAny(s);
    if c in s.queue {
      var k :| 0 <= k < |s.queue| && s.queue[k] == c;
      var i := |s.finished| + One(Current(s.dispatcher).Some?) + k;
      assert s.enqueued[i] == c;
      assert s.jobs[c.jobId] == RecordAt(s.enqueued, s.finished, Busy(s.dispatcher), i);
    }
  }

  lemma SubmittedUntold(c: Command)
    ensures Untold(Submitted(c), c) && Untold(Changed(Submitted(c), ToRunning), c)
  {
  }
}
