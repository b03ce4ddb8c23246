/** `thinker/api.py` as interleaved atomic steps: one step per stretch of code between awaits.

    Endpoints and executor tasks share one event loop, so a stretch without an await runs alone. A task
    runs up to the await on the orchestrator in `Start`, and from there to its end in `Return` or `Raise`;
    any other step may come between. The log records what has happened and steers nothing. */
module ThinkerProtocol {
  import opened Wrappers
  import opened ThinkerModels
  import opened ThinkerJobs

  datatype Phase = Spawned | Awaiting | Ended

  /** One `_execute_job` task, with the inputs it was spawned with. */
  datatype Task = Task(job: JobId, inputs: Inputs, phase: Phase) {
    predicate Live() { phase != Ended }
  }

  datatype Event =
    | Moved(job: JobId, from: Status, to: Status)
    | Ran(job: JobId, inputs: Inputs)
    | Refused(job: JobId)

  datatype System = System(jobs: Jobs, tasks: seq<Task>, log: seq<Event>)

  /** HTTP outcomes; steps of background tasks answer nobody. */
  datatype Response = Done(job: Job) | NotFound | Conflict | Nobody

  datatype Step =
    | PostJob(id: JobId, inputs: Inputs)
    | PollJob(id: JobId)
    | PostRetry(id: JobId)
    | PostSkip(id: JobId)
    | PostMaterialize(id: JobId)
    | Start(task: nat)
    | Return(task: nat, result: ThinkerResult)
    | Raise(task: nat, errorCode: string, errorMessage: string, retryable: bool)

  const INITIAL := System(map[], [], [])

  function Answer(r: Result<Job, StoreError>): Response {
    match r
    case Ok(job) => Done(job)
    case Err(KeyError) => NotFound
    case Err(ValueError) => Conflict
  }

  /** A user call on an existing job, logged when it is accepted. */
  function UserMove(s: System, call: Call): (System, Response)
    requires !call.CreateJob? && !call.GetJob?
  {
    var (jobs', r) := Perform(s.jobs, call);
    if r.Err? then (s, Answer(r))
    else (s.(jobs := jobs', log := s.log + [Moved(call.id, s.jobs[call.id].status, r.value.status)]), Answer(r))
  }

  /** A store call by an executor, logged either way; the flag is false when the store refused it. */
  function ExecutorMove(s: System, call: Call): (System, bool)
    requires !call.CreateJob? && !call.GetJob?
  {
    var (jobs', r) := Perform(s.jobs, call);
    if r.Ok? then (s.(jobs := jobs', log := s.log + [Moved(call.id, s.jobs[call.id].status, r.value.status)]), true)
    else (s.(log := s.log + [Refused(call.id)]), false)
  }

  function SetPhase(s: System, t: nat, phase: Phase): System
    requires t < |s.tasks|
  {
    s.(tasks := s.tasks[t := s.tasks[t].(phase := phase)])
  }

  function Spawn(s: System, id: JobId, inputs: Inputs): System {
    s.(tasks := s.tasks + [Task(id, inputs, Spawned)])
  }

  const UNCLASSIFIED := "thinker_execution_failed"

  /** One atomic step. A step that is not possible now leaves the system as it is. */
  function Next(s: System, step: Step): (System, Response) {
    match step
    case PostJob(id, inputs) =>
      // uuid4 never repeats an id
      if id in s.jobs then (s, Nobody)
      else
        var (jobs', r) := Perform(s.jobs, CreateJob(id, inputs));
        (Spawn(s.(jobs := jobs'), id, inputs), Answer(r))
    case PollJob(id) => (s, Answer(Perform(s.jobs, GetJob(id)).1))
    case PostRetry(id) =>
      var (s', r) := UserMove(s, RetryJob(id));
      if r.Done? then (Spawn(s', id, r.job.inputs), r) else (s', r)
    case PostSkip(id) => UserMove(s, MarkSkipped(id))
    case PostMaterialize(id) =>
      if id !in s.jobs then (s, NotFound)
      else if s.jobs[id].status != Succeeded then (s, Conflict)
      else if s.jobs[id].result.None? then (s, Conflict)
      else UserMove(s, MarkMaterialized(id))
    case Start(t) =>
      if t >= |s.tasks| || s.tasks[t].phase != Spawned then (s, Nobody)
      else
        var task := s.tasks[t];
        var (s1, ok) := ExecutorMove(s, MarkRunning(task.job));
        if ok then (SetPhase(s1.(log := s1.log + [Ran(task.job, task.inputs)]), t, Awaiting), Nobody)
        else
          // mark_running is inside the try: its own refusal is recorded as a failure of the job
          var (s2, _) := ExecutorMove(s1, MarkFailed(task.job, UNCLASSIFIED, "", true, true));
          (SetPhase(s2, t, Ended), Nobody)
    case Return(t, result) =>
      if t >= |s.tasks| || s.tasks[t].phase != Awaiting then (s, Nobody)
      else
        var (s1, _) := ExecutorMove(s, MarkSucceeded(s.tasks[t].job, Some(result)));
        (SetPhase(s1, t, Ended), Nobody)
    case Raise(t, code, message, retryable) =>
      if t >= |s.tasks| || s.tasks[t].phase != Awaiting then (s, Nobody)
      else
        var (s1, _) := ExecutorMove(s, MarkFailed(s.tasks[t].job, code, message, retryable, true));
        (SetPhase(s1, t, Ended), Nobody)
  }

  function Run(steps: seq<Step>): System {
    if steps == [] then INITIAL else Next(Run(steps[..|steps| - 1]), steps[|steps| - 1]).0
  }

  // ---- Executors and statuses ----

  /** The phase the one live executor of a job with this status is in; none is live otherwise. */
  function Expected(status: Status): Option<Phase> {
    match status
    case Created => Some(Spawned)
    case Running => Some(Awaiting)
    case _ => None
  }

  /** Live tasks belong to stored jobs, carry their inputs, and are in the phase the status calls for. */
  ghost predicate TasksFit(jobs: Jobs, tasks: seq<Task>) {
    forall t :: 0 <= t < |tasks| ==>
      && tasks[t].job in jobs && tasks[t].inputs == jobs[tasks[t].job].inputs
      && (tasks[t].Live() ==> Expected(jobs[tasks[t].job].status) == Some(tasks[t].phase))
  }

  ghost predicate AtMostOneLive(tasks: seq<Task>) {
    forall t, u :: 0 <= t < u < |tasks| && tasks[t].Live() && tasks[u].Live() ==> tasks[t].job != tasks[u].job
  }

  ghost predicate HasLive(tasks: seq<Task>, id: JobId) {
    exists t :: 0 <= t < |tasks| && tasks[t].job == id && tasks[t].Live()
  }

  ghost predicate AllServed(jobs: Jobs, tasks: seq<Task>) {
    forall id :: id in jobs && Expected(jobs[id].status).Some? ==> HasLive(tasks, id)
  }

  ghost predicate ExecutorsOk(jobs: Jobs, tasks: seq<Task>) {
    TasksFit(jobs, tasks) && AtMostOneLive(tasks) && AllServed(jobs, tasks)
  }

  // ---- What the log says ----

  function CountMoves(log: seq<Event>, id: JobId, from: Option<Status>, to: Status): nat {
    if log == [] then 0
    else
      var e := log[|log| - 1];
      CountMoves(log[..|log| - 1], id, from, to)
      + if e.Moved? && e.job == id && e.to == to && (from.None? || from == Some(e.from)) then 1 else 0
  }

  /** How often the job entered this status by a transition. */
  function Entered(log: seq<Event>, id: JobId, to: Status): nat {
    CountMoves(log, id, None, to)
  }

  function Retries(log: seq<Event>, id: JobId): nat {
    CountMoves(log, id, Some(Failed), Created)
  }

  function Runs(log: seq<Event>, id: JobId): nat {
    if log == [] then 0
    else Runs(log[..|log| - 1], id) + if log[|log| - 1].Ran? && log[|log| - 1].job == id then 1 else 0
  }

  /** Runs, failures and successes of a job, as its present record accounts for them. */
  ghost predicate Accounted(log: seq<Event>, id: JobId, j: Job) {
    && Entered(log, id, Running) + One(j.status.Created?) == 1 + Retries(log, id)
    && Entered(log, id, Failed) == Retries(log, id) + One(j.status.Failed? || (j.status.Skipped? && j.result.None?))
    && Entered(log, id, Succeeded)
         == One(j.status.Succeeded? || j.status.Materialized? || (j.status.Skipped? && j.result.Some?))
    && Entered(log, id, Materialized) == One(j.status.Materialized?)
    && Runs(log, id) == Entered(log, id, Running)
  }

  /** Nothing is on record for a job that does not exist. */
  ghost predicate Unheard(log: seq<Event>, id: JobId) {
    Entered(log, id, Running) == Entered(log, id, Failed) == Entered(log, id, Succeeded)
      == Entered(log, id, Materialized) == Retries(log, id) == Runs(log, id) == 0
  }

  /** No executor call was ever refused, no job ever failed without having run, and every run got the
      inputs its job was created with. */
  ghost predicate LogClean(jobs: Jobs, log: seq<Event>) {
    forall i :: 0 <= i < |log| ==>
      match log[i]
      case Refused(_) => false
      case Moved(_, from, to) => !(from == Created && to == Failed) && to in Allowed(from)
      case Ran(id, inputs) => id in jobs && inputs == jobs[id].inputs
  }

  /** Records are coherent, and a succeeded job holds a result: the orchestrator always returns one. */
  ghost predicate ResultsHeld(jobs: Jobs) {
    forall id :: id in jobs ==> Coherent(jobs[id]) && (jobs[id].status.Succeeded? ==> jobs[id].result.Some?)
  }

  ghost predicate Squared(jobs: Jobs, log: seq<Event>, id: JobId) {
    if id in jobs then Accounted(log, id, jobs[id]) else Unheard(log, id)
  }

  ghost predicate AllAccounted(jobs: Jobs, log: seq<Event>) {
    forall id :: Squared(jobs, log, id)
  }

  ghost predicate RecordsOk(jobs: Jobs, log: seq<Event>) {
    LogClean(jobs, log) && ResultsHeld(jobs) && AllAccounted(jobs, log)
  }

  ghost predicate Inv(s: System) {
    ExecutorsOk(s.jobs, s.tasks) && RecordsOk(s.jobs, s.log)
  }

  // ---- Steps keep the records straight ----

  lemma CountAppend(log: seq<Event>, e: Event, id: JobId, from: Option<Status>, to: Status)
    ensures CountMoves(log + [e], id, from, to) == CountMoves(log, id, from, to)
      + One(e.Moved? && e.job == id && e.to == to && (from.None? || from == Some(e.from)))
    ensures Runs(log + [e], id) == Runs(log, id) + One(e.Ran? && e.job == id)
  {
    assert (log + [e])[..|log|] == log;
  }

  /** `e` records an entry of this job into `to`. */
  predicate Enters(e: Event, id: JobId, to: Status) {
    e.Moved? && e.job == id && e.to == to
  }

  lemma CountsAppend(log: seq<Event>, e: Event, id: JobId)
    ensures Entered(log + [e], id, Running) == Entered(log, id, Running) + One(Enters(e, id, Running))
    ensures Entered(log + [e], id, Failed) == Entered(log, id, Failed) + One(Enters(e, id, Failed))
    ensures Entered(log + [e], id, Succeeded) == Entered(log, id, Succeeded) + One(Enters(e, id, Succeeded))
    ensures Entered(log + [e], id, Materialized) == Entered(log, id, Materialized) + One(Enters(e, id, Materialized))
    ensures Retries(log + [e], id) == Retries(log, id) + One(Enters(e, id, Created) && e.from == Failed)
    ensures Runs(log + [e], id) == Runs(log, id) + One(e.Ran? && e.job == id)
  {
    CountAppend(log, e, id, None, Running);
    CountAppend(log, e, id, None, Failed);
    CountAppend(log, e, id, None, Succeeded);
    CountAppend(log, e, id, None, Materialized);
    CountAppend(log, e, id, Some(Failed), Created);
  }

  /** An accepted transition of the kind the API makes. */
  ghost predicate GoodMove(j: Job, j': Job) {
    && j'.status in Allowed(j.status) && !(j.status.Created? && j'.status.Failed?)
    && Coherent(j) && (j.status.Succeeded? ==> j.result.Some?)
    && Coherent(j') && (j'.status.Succeeded? ==> j'.result.Some?)
    && j'.inputs == j.inputs && (j'.status.Skipped? ==> j'.result == j.result)
  }

  /** The log after the move; entering running is followed by the run itself. */
  function LogMove(log: seq<Event>, id: JobId, j: Job, j': Job): seq<Event> {
    var moved := log + [Moved(id, j.status, j'.status)];
    if j'.status.Running? then moved + [Ran(id, j.inputs)] else moved
  }

  lemma AccountMove(log: seq<Event>, id: JobId, j: Job, j': Job)
    requires Accounted(log, id, j) && GoodMove(j, j')
    ensures Accounted(LogMove(log, id, j, j'), id, j')
  {
    hide CountMoves, Entered, Retries, Runs;
    var moved := log + [Moved(id, j.status, j'.status)];
    CountsAppend(log, Moved(id, j.status, j'.status), id);
    CountsAppend(moved, Ran(id, j.inputs), id);
  }

  lemma OthersAccounted(jobs: Jobs, log: seq<Event>, e: Event, id: JobId)
    requires e.job != id
    requires Squared(jobs, log, id)
    ensures Squared(jobs, log + [e], id)
  {
    hide CountMoves, Entered, Retries, Runs;
    CountsAppend(log, e, id);
  }

  lemma MoveKeepsAccounts(jobs: Jobs, log: seq<Event>, id: JobId, j': Job)
    requires AllAccounted(jobs, log) && id in jobs && GoodMove(jobs[id], j')
    ensures AllAccounted(jobs[id := j'], LogMove(log, id, jobs[id], j'))
  {
    hide Accounted, Unheard, GoodMove;
    var j, jobs' := jobs[id], jobs[id := j'];
    var moved := log + [Moved(id, j.status, j'.status)];
    forall k ensures Squared(jobs', LogMove(log, id, j, j'), k) {
      assert Squared(jobs, log, k);
      if k == id {
        AccountMove(log, id, j, j');
      } else {
        OthersAccounted(jobs, log, Moved(id, j.status, j'.status), k);
        OthersAccounted(jobs, moved, Ran(id, j.inputs), k);
      }
    }
  }

  lemma MoveKeepsClean(jobs: Jobs, log: seq<Event>, id: JobId, j': Job)
    requires LogClean(jobs, log) && id in jobs && GoodMove(jobs[id], j')
    ensures LogClean(jobs[id := j'], LogMove(log, id, jobs[id], j'))
  {
    var log', jobs' := LogMove(log, id, jobs[id], j'), jobs[id := j'];
    forall i | 0 <= i < |log'|
      ensures match log'[i]
        case Refused(_) => false
        case Moved(_, from, to) => !(from == Created && to == Failed) && to in Allowed(from)
        case Ran(k, inputs) => k in jobs' && inputs == jobs'[k].inputs
    {
      if i < |log| { assert log'[i] == log[i]; }
    }
  }

  lemma MoveKeepsRecords(jobs: Jobs, log: seq<Event>, id: JobId, j': Job)
    requires RecordsOk(jobs, log) && id in jobs && GoodMove(jobs[id], j')
    ensures RecordsOk(jobs[id := j'], LogMove(log, id, jobs[id], j'))
  {
    hide LogClean, AllAccounted;
    MoveKeepsClean(jobs, log, id, j');
    MoveKeepsAccounts(jobs, log, id, j');
  }

  lemma NewJobRecorded(jobs: Jobs, log: seq<Event>, id: JobId, inputs: Inputs)
    requires RecordsOk(jobs, log) && id !in jobs
    ensures RecordsOk(jobs[id := NewJob(id, inputs)], log)
  {
    assert Squared(jobs, log, id);
    NewJobAccounted(log, id, inputs);
    var jobs' := jobs[id := NewJob(id, inputs)];
    forall k ensures Squared(jobs', log, k) {
      assert Squared(jobs, log, k);
    }
  }

  lemma NewJobAccounted(log: seq<Event>, id: JobId, inputs: Inputs)
    requires Unheard(log, id)
    ensures Accounted(log, id, NewJob(id, inputs))
  {
    hide CountMoves, Entered, Retries, Runs;
  }

  // ---- Steps keep exactly one executor where one belongs ----

  lemma RephaseKeepsExecutors(jobs: Jobs, tasks: seq<Task>, t: nat, phase: Phase, j': Job)
    requires ExecutorsOk(jobs, tasks) && t < |tasks| && tasks[t].Live()
    requires Expected(j'.status) == (if phase == Ended then None else Some(phase))
    requires j'.inputs == tasks[t].inputs
    ensures ExecutorsOk(jobs[tasks[t].job := j'], tasks[t := tasks[t].(phase := phase)])
  {
    var id, jobs', tasks' := tasks[t].job, jobs[tasks[t].job := j'], tasks[t := tasks[t].(phase := phase)];
    forall k | k in jobs' && Expected(jobs'[k].status).Some? ensures HasLive(tasks', k) {
      if k == id {
        assert tasks'[t].job == id && tasks'[t].Live();
      } else {
        assert HasLive(tasks, k);
        var u :| 0 <= u < |tasks| && tasks[u].job == k && tasks[u].Live();
        assert tasks'[u] == tasks[u];
      }
    }
  }

  lemma IdleKeepsExecutors(jobs: Jobs, tasks: seq<Task>, id: JobId, j': Job)
    requires ExecutorsOk(jobs, tasks) && id in jobs
    requires Expected(jobs[id].status).None? && Expected(j'.status).None? && j'.inputs == jobs[id].inputs
    ensures ExecutorsOk(jobs[id := j'], tasks)
  {
  }

  lemma SpawnKeepsExecutors(jobs: Jobs, tasks: seq<Task>, id: JobId, j': Job)
    requires ExecutorsOk(jobs, tasks)
    requires id in jobs ==> Expected(jobs[id].status).None? && j'.inputs == jobs[id].inputs
    requires j'.status.Created?
    ensures ExecutorsOk(jobs[id := j'], tasks + [Task(id, j'.inputs, Spawned)])
  {
    var jobs', tasks' := jobs[id := j'], tasks + [Task(id, j'.inputs, Spawned)];
    forall k | k in jobs' && Expected(jobs'[k].status).Some? ensures HasLive(tasks', k) {
      if k == id {
        assert tasks'[|tasks|].job == id && tasks'[|tasks|].Live();
      } else {
        assert HasLive(tasks, k);
        var u :| 0 <= u < |tasks| && tasks[u].job == k && tasks[u].Live();
        assert tasks'[u] == tasks[u];
      }
    }
  }

  // ---- Every step keeps the invariant ----

  /** A live executor's next store call is always accepted. */
  lemma ExecutorAccepted(s: System, t: nat, call: Call)
    requires Inv(s) && t < |s.tasks| && s.tasks[t].Live() && call.id == s.tasks[t].job
    requires match s.tasks[t].phase
      case Spawned => call.MarkRunning?
      case Awaiting => call.MarkSucceeded? || call.MarkFailed?
      case Ended => false
    ensures Perform(s.jobs, call).1.Ok?
  {
  }

  lemma UserMoveKeepsInv(s: System, call: Call)
    requires Inv(s) && (call.MarkSkipped? || call.MarkMaterialized?)
    ensures Inv(UserMove(s, call).0)
  {
    hide ExecutorsOk, RecordsOk;
    var (jobs', r) := Perform(s.jobs, call);
    if r.Ok? {
      RecordsGiveCoherence(s.jobs, s.log, call.id);
      IdleKeepsExecutors(s.jobs, s.tasks, call.id, r.value);
      MoveKeepsRecords(s.jobs, s.log, call.id, r.value);
    }
  }

  lemma RecordsGiveCoherence(jobs: Jobs, log: seq<Event>, id: JobId)
    requires RecordsOk(jobs, log) && id in jobs
    ensures Coherent(jobs[id]) && (jobs[id].status.Succeeded? ==> jobs[id].result.Some?)
  {
  }

  lemma RetryKeepsInv(s: System, id: JobId)
    requires Inv(s)
    ensures Inv(Next(s, PostRetry(id)).0)
  {
    hide ExecutorsOk, RecordsOk;
    var (jobs', r) := Perform(s.jobs, RetryJob(id));
    if r.Ok? {
      RecordsGiveCoherence(s.jobs, s.log, id);
      SpawnKeepsExecutors(s.jobs, s.tasks, id, r.value);
      MoveKeepsRecords(s.jobs, s.log, id, r.value);
    }
  }

  lemma ExecutorStepKeepsInv(s: System, t: nat, call: Call, phase: Phase)
    requires Inv(s) && t < |s.tasks| && s.tasks[t].Live() && call.id == s.tasks[t].job
    requires match s.tasks[t].phase
      case Spawned => call.MarkRunning? && phase == Awaiting
      case Awaiting =>
        ((call.MarkSucceeded? && call.result.Some?) || (call.MarkFailed? && call.canContinue)) && phase == Ended
      case Ended => false
    ensures var (s1, ok) := ExecutorMove(s, call);
      && ok && s1.tasks == s.tasks
      && var s2 := if call.MarkRunning? then s1.(log := s1.log + [Ran(s.tasks[t].job, s.tasks[t].inputs)]) else s1;
      Inv(SetPhase(s2, t, phase))
  {
    ExecutorAccepted(s, t, call);
    ExecutorFits(s, t);
    hide ExecutorsOk, RecordsOk;
    var j' := Perform(s.jobs, call).1.value;
    RecordsGiveCoherence(s.jobs, s.log, call.id);
    RephaseKeepsExecutors(s.jobs, s.tasks, t, phase, j');
    MoveKeepsRecords(s.jobs, s.log, call.id, j');
  }

  lemma ExecutorFits(s: System, t: nat)
    requires Inv(s) && t < |s.tasks|
    ensures s.tasks[t].job in s.jobs && s.tasks[t].inputs == s.jobs[s.tasks[t].job].inputs
    ensures s.tasks[t].Live() ==> Expected(s.jobs[s.tasks[t].job].status) == Some(s.tasks[t].phase)
  {
  }

  lemma NextKeepsInv(s: System, step: Step)
    requires Inv(s)
    ensures Inv(Next(s, step).0)
  {
    match step
    case PostJob(id, inputs) =>
      if id !in s.jobs {
        hide ExecutorsOk, RecordsOk;
        SpawnKeepsExecutors(s.jobs, s.tasks, id, NewJob(id, inputs));
        NewJobRecorded(s.jobs, s.log, id, inputs);
      }
    case PollJob(id) =>
    case PostRetry(id) => RetryKeepsInv(s, id);
    case PostSkip(id) => UserMoveKeepsInv(s, MarkSkipped(id));
    case PostMaterialize(id) => UserMoveKeepsInv(s, MarkMaterialized(id));
    case Start(t) =>
      if t < |s.tasks| && s.tasks[t].phase == Spawned {
        ExecutorStepKeepsInv(s, t, MarkRunning(s.tasks[t].job), Awaiting);
      }
    case Return(t, result) =>
      if t < |s.tasks| && s.tasks[t].phase == Awaiting {
        ExecutorStepKeepsInv(s, t, MarkSucceeded(s.tasks[t].job, Some(result)), Ended);
      }
    case Raise(t, code, message, retryable) =>
      if t < |s.tasks| && s.tasks[t].phase == Awaiting {
        ExecutorStepKeepsInv(s, t, MarkFailed(s.tasks[t].job, code, message, retryable, true), Ended);
      }
  }

  lemma {:induction false} AlwaysInv(steps: seq<Step>)
    ensures Inv(Run(steps))
  {
    hide Inv, Next;
    if steps == [] {
      InitialInv();
    } else {
      AlwaysInv(steps[..|steps| - 1]);
      NextKeepsInv(Run(steps[..|steps| - 1]), steps[|steps| - 1]);
    }
  }

  lemma InitialInv()
    ensures Inv(INITIAL)
  {
  }

  // ---- Safety over all runs ----

  function LiveTasks(s: System, id: JobId): set<nat> {
    set t | 0 <= t < |s.tasks| && s.tasks[t].job == id && s.tasks[t].Live()
  }

  /** In every interleaving a job has exactly one live executor while it is created or running, in the
      phase its status says, and none otherwise. */
  lemma ExactlyOneExecutor(steps: seq<Step>, id: JobId)
    requires id in Run(steps).jobs
    ensures var s := Run(steps);
      && |LiveTasks(s, id)| == One(s.jobs[id].status.Created? || s.jobs[id].status.Running?)
      && forall t :: t in LiveTasks(s, id) ==> Some(s.tasks[t].phase) == Expected(s.jobs[id].status)
  {
    AlwaysInv(steps);
    LiveCount(Run(steps), id);
  }

  lemma LiveCount(s: System, id: JobId)
    requires Inv(s) && id in s.jobs
    ensures |LiveTasks(s, id)| == One(Expected(s.jobs[id].status).Some?)
    ensures forall t :: t in LiveTasks(s, id) ==> Some(s.tasks[t].phase) == Expected(s.jobs[id].status)
  {
    var live := LiveTasks(s, id);
    if Expected(s.jobs[id].status).Some? {
      assert HasLive(s.tasks, id);
      var t :| 0 <= t < |s.tasks| && s.tasks[t].job == id && s.tasks[t].Live();
      forall u | u in live ensures u == t {
        assert s.tasks[u].job == s.tasks[t].job;
      }
      assert live == {t};
    } else {
      assert live == {};
    }
  }

  /** No executor's store call is ever refused, so no task dies with an exception; no job goes from
      created to failed; and every run of the orchestrator gets the inputs the job was created with. */
  lemma NoRefusals(steps: seq<Step>)
    ensures var s := Run(steps); forall i :: 0 <= i < |s.log| ==>
      && !s.log[i].Refused?
      && (s.log[i].Moved? ==> !(s.log[i].from == Created && s.log[i].to == Failed))
      && (s.log[i].Ran? ==> s.log[i].job in s.jobs && s.log[i].inputs == s.jobs[s.log[i].job].inputs)
  {
    AlwaysInv(steps);
  }

  /** Conservation: a job was run once for its creation and once per retry, except a run still to start;
      it failed once per retry, and once more if it is failed now or was skipped without a result; and it
      succeeded at most once. */
  lemma Conservation(steps: seq<Step>, id: JobId)
    requires id in Run(steps).jobs
    ensures var s := Run(steps); var j := s.jobs[id];
      && Runs(s.log, id) == 1 + Retries(s.log, id) - One(j.status.Created?)
      && Entered(s.log, id, Running) == Runs(s.log, id)
      && Entered(s.log, id, Failed)
           == Retries(s.log, id) + One(j.status.Failed? || (j.status.Skipped? && j.result.None?))
      && Entered(s.log, id, Succeeded) == One(j.result.Some?)
  {
    AlwaysInv(steps);
    assert Squared(Run(steps).jobs, Run(steps).log, id);
  }

  /** Inputs never change once a job exists, whatever happens afterwards. */
  lemma {:induction false} InputsFixed(steps: seq<Step>, more: seq<Step>, id: JobId)
    requires id in Run(steps).jobs
    ensures id in Run(steps + more).jobs && Run(steps + more).jobs[id].inputs == Run(steps).jobs[id].inputs
    decreases |more|
  {
    hide Next;
    if more == [] {
      assert steps + more == steps;
    } else {
      var init, last := more[..|more| - 1], more[|more| - 1];
      InputsFixed(steps, init, id);
      assert (steps + more)[..|steps + more| - 1] == steps + init;
      NextKeepsInputs(Run(steps + init), last, id);
    }
  }

  lemma NextKeepsInputs(s: System, step: Step, id: JobId)
    requires id in s.jobs
    ensures id in Next(s, step).0.jobs && Next(s, step).0.jobs[id].inputs == s.jobs[id].inputs
  {
  }

  /** However jobs and tasks interleave, every run of the orchestrator for a job gets exactly the inputs
      the job was posted with, retries included. */
  lemma RunsGetPostedInputs(before: seq<Step>, id: JobId, inputs: Inputs, more: seq<Step>)
    requires id !in Run(before).jobs
    ensures var s := Run(before + [PostJob(id, inputs)] + more);
      forall i :: 0 <= i < |s.log| && s.log[i].Ran? && s.log[i].job == id ==> s.log[i].inputs == inputs
  {
    var posted := before + [PostJob(id, inputs)];
    assert posted[..|posted| - 1] == before;
    assert Run(posted).jobs[id] == NewJob(id, inputs);
    InputsFixed(posted, more, id);
    NoRefusals(posted + more);
  }

  /** What an executor brings home is always recorded: its result, or its error. */
  lemma OutcomeRecorded(steps: seq<Step>, t: nat, result: ThinkerResult, code: string, message: string, retryable: bool)
    requires t < |Run(steps).tasks| && Run(steps).tasks[t].phase == Awaiting
    ensures var s, id := Run(steps), Run(steps).tasks[t].job;
      && id in s.jobs
      && Next(s, Return(t, result)).0.jobs == s.jobs[id := s.jobs[id].(status := Succeeded, result := Some(result))]
      && Next(s, Raise(t, code, message, retryable)).0.jobs
           == s.jobs[id := s.jobs[id].(status := Failed, errorCode := Some(code), errorMessage := Some(message),
                                       retryable := Some(retryable))]
  {
    AlwaysInv(steps);
    ExecutorFits(Run(steps), t);
    RecordsGiveCoherence(Run(steps).jobs, Run(steps).log, Run(steps).tasks[t].job);
  }

  /** A stored result is never changed or lost, whatever happens afterwards. */
  lemma {:induction false} ResultFixed(steps: seq<Step>, more: seq<Step>, id: JobId)
    requires id in Run(steps).jobs && Run(steps).jobs[id].result.Some?
    ensures id in Run(steps + more).jobs && Run(steps + more).jobs[id].result == Run(steps).jobs[id].result
    decreases |more|
  {
    hide Next, Inv;
    if more == [] {
      assert steps + more == steps;
    } else {
      var init, last := more[..|more| - 1], more[|more| - 1];
      ResultFixed(steps, init, id);
      assert (steps + more)[..|steps + more| - 1] == steps + init;
      AlwaysInv(steps + init);
      NextKeepsResult(Run(steps + init), last, id);
    }
  }

  lemma NextKeepsResult(s: System, step: Step, id: JobId)
    requires Inv(s) && id in s.jobs && s.jobs[id].result.Some?
    ensures id in Next(s, step).0.jobs && Next(s, step).0.jobs[id].result == s.jobs[id].result
  {
    RecordsGiveCoherence(s.jobs, s.log, id);
    hide Inv, ExecutorsOk, RecordsOk;
    forall call: Call | !call.CreateJob? && !call.GetJob? ensures ResultKept(s.jobs, Perform(s.jobs, call).0, id) {
      CallKeepsResult(s.jobs, call, id);
    }
    hide Perform, Coherent;
  }

  ghost predicate ResultKept(jobs: Jobs, jobs': Jobs, id: JobId) {
    id in jobs && id in jobs' && jobs'[id].result == jobs[id].result
  }

  lemma CallKeepsResult(jobs: Jobs, call: Call, id: JobId)
    requires id in jobs && Coherent(jobs[id]) && jobs[id].result.Some? && !call.CreateJob?
    ensures ResultKept(jobs, Perform(jobs, call).0, id)
  {
  }

  // ---- What the endpoints answer, and when a job is closed ----

  /** The store call behind an endpoint that acts on an existing job. */
  function CallOf(step: Step): Call
    requires step.PollJob? || step.PostRetry? || step.PostSkip? || step.PostMaterialize?
  {
    match step
    case PollJob(id) => GetJob(id)
    case PostRetry(id) => RetryJob(id)
    case PostSkip(id) => MarkSkipped(id)
    case PostMaterialize(id) => MarkMaterialized(id)
  }

  /** 404 exactly when the job is unknown, 409 exactly when its record does not accept the call, and
      otherwise the record the call promises, which is then the one stored. */
  lemma EndpointAnswers(s: System, step: Step)
    requires step.PollJob? || step.PostRetry? || step.PostSkip? || step.PostMaterialize?
    ensures var (s', r) := Next(s, step);
      && (r == NotFound <==> step.id !in s.jobs)
      && (r == Conflict <==> step.id in s.jobs && !Accepts(s.jobs[step.id], CallOf(step)))
      && !r.Nobody?
      && (!r.Done? ==> s' == s)
      && (r.Done? ==> Outcome(s.jobs[step.id], CallOf(step), r.job) && s'.jobs == s.jobs[step.id := r.job])
  {
    CallOutcome(s.jobs, CallOf(step));
    hide Perform, Outcome;
  }

  /** A posted job is answered with its record, and one executor is spawned for it. */
  lemma PostAnswers(s: System, id: JobId, inputs: Inputs)
    requires id !in s.jobs
    ensures var (s', r) := Next(s, PostJob(id, inputs));
      && r.Done? && r.job.jobId == id && r.job.status == Created && r.job.inputs == inputs
      && s'.jobs == s.jobs[id := r.job] && s'.tasks == s.tasks + [Task(id, inputs, Spawned)]
  {
  }

  /** In every run, a spawned executor that starts sets its job running and keeps the rest of its record. */
  lemma StartRecorded(steps: seq<Step>, t: nat)
    requires t < |Run(steps).tasks| && Run(steps).tasks[t].phase == Spawned
    ensures var s, id := Run(steps), Run(steps).tasks[t].job;
      && id in s.jobs && Next(s, Start(t)).0.jobs == s.jobs[id := s.jobs[id].(status := Running)]
  {
    AlwaysInv(steps);
    ExecutorFits(Run(steps), t);
    RecordsGiveCoherence(Run(steps).jobs, Run(steps).log, Run(steps).tasks[t].job);
  }

  ghost predicate HasStatus(jobs: Jobs, id: JobId, status: Status) {
    id in jobs && jobs[id].status == status
  }

  /** The endpoint was called in this run, and accepted. */
  ghost predicate WasAccepted(steps: seq<Step>, step: Step) {
    exists k :: 0 <= k < |steps| && steps[k] == step && Next(Run(steps[..k]), step).1.Done?
  }

  /** The request that closes a job in this way. */
  function ClosedBy(id: JobId, status: Status): Step
    requires status.Materialized? || status.Skipped?
  {
    if status.Materialized? then PostMaterialize(id) else PostSkip(id)
  }

  /** A call on one job closes it exactly by being the closing one and accepted, and never reopens it. */
  lemma CallCloses(jobs: Jobs, call: Call, id: JobId, status: Status)
    requires status.Materialized? || status.Skipped?
    requires call.CreateJob? ==> call.id !in jobs
    ensures HasStatus(Perform(jobs, call).0, id, status) <==>
      || HasStatus(jobs, id, status)
      || (Perform(jobs, call).1.Ok? && call == if status.Materialized? then MarkMaterialized(id) else MarkSkipped(id))
  {
    if call.CreateJob? { CreateOutcome(jobs, call.id, call.inputs); } else { CallOutcome(jobs, call); }
    hide Perform;
  }

  lemma NextCloses(s: System, step: Step, id: JobId, status: Status)
    requires status.Materialized? || status.Skipped?
    ensures HasStatus(Next(s, step).0.jobs, id, status) <==>
      HasStatus(s.jobs, id, status) || (step == ClosedBy(id, status) && Next(s, step).1.Done?)
  {
    hide HasStatus, Perform;
    match step
    case PostJob(k, inputs) => if k !in s.jobs { CallCloses(s.jobs, CreateJob(k, inputs), id, status); }
    case PollJob(k) =>
    case PostRetry(k) => CallCloses(s.jobs, RetryJob(k), id, status);
    case PostSkip(k) => CallCloses(s.jobs, MarkSkipped(k), id, status);
    case PostMaterialize(k) => CallCloses(s.jobs, MarkMaterialized(k), id, status);
    case Start(t) =>
      if t < |s.tasks| && s.tasks[t].phase == Spawned {
        var call := MarkRunning(s.tasks[t].job);
        CallCloses(s.jobs, call, id, status);
        CallCloses(Perform(s.jobs, call).0, MarkFailed(call.id, UNCLASSIFIED, "", true, true), id, status);
        CallOutcome(s.jobs, call);
      }
    case Return(t, result) =>
      if t < |s.tasks| { CallCloses(s.jobs, MarkSucceeded(s.tasks[t].job, Some(result)), id, status); }
    case Raise(t, code, message, retryable) =>
      if t < |s.tasks| { CallCloses(s.jobs, MarkFailed(s.tasks[t].job, code, message, retryable, true), id, status); }
  }

  /** In every run a job is materialized exactly when a request to materialize it was accepted, and skipped
      exactly when a request to skip it was. */
  lemma {:induction false} ClosedExactly(steps: seq<Step>, id: JobId, status: Status)
    requires status.Materialized? || status.Skipped?
    ensures HasStatus(Run(steps).jobs, id, status) <==> WasAccepted(steps, ClosedBy(id, status))
  {
    hide Next, HasStatus;
    if steps == [] {
      NothingClosed(id, status);
    } else {
      var n := |steps| - 1;
      var init := steps[..n];
      ClosedExactly(init, id, status);
      NextCloses(Run(init), steps[n], id, status);
      assert forall k :: 0 <= k < n ==> init[..k] == steps[..k] && init[k] == steps[k];
      var step := ClosedBy(id, status);
      if WasAccepted(steps, step) {
        var k :| 0 <= k < |steps| && steps[k] == step && Next(Run(steps[..k]), step).1.Done?;
        if k < n { assert init[k] == step && Next(Run(init[..k]), step).1.Done?; }
      }
      if WasAccepted(init, step) {
        var k :| 0 <= k < n && init[k] == step && Next(Run(init[..k]), step).1.Done?;
        assert steps[k] == step && Next(Run(steps[..k]), step).1.Done?;
      }
    }
  }

  lemma NothingClosed(id: JobId, status: Status)
    ensures !HasStatus(INITIAL.jobs, id, status)
  {
  }
}
