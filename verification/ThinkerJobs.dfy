/** `thinker/jobs.py`: the guarded job registry. */
module ThinkerJobs {
  import opened Wrappers
  import opened ThinkerModels

  datatype StoreError = KeyError | ValueError

  type Jobs = map<JobId, Job>

  /** The transition table. */
  function Allowed(from: Status): set<Status> {
    match from
    case Created => {Running, Failed}
    case Running => {Succeeded, Failed}
    case Succeeded => {Materialized, Skipped}
    case Failed => {Created, Skipped}
    case Materialized => {}
    case Skipped => {}
  }

  /** The keyword arguments of `_transition`; `result` distinguishes "not given" from `None`. */
  datatype Change = Change(status: Status, result: Option<Option<ThinkerResult>>, errorCode: Option<string>,
                           errorMessage: Option<string>, retryable: Option<bool>, canContinue: Option<bool>)

  function Cleared(status: Status, result: Option<Option<ThinkerResult>>): Change {
    Change(status, result, None, None, None, Some(true))
  }

  function Changed(j: Job, c: Change): Job {
    Job(j.jobId, j.inputs, c.status, if c.result.Some? then c.result.value else j.result,
        c.errorCode, c.errorMessage, c.retryable,
        if c.canContinue.Some? then c.canContinue.value else j.canContinue)
  }

  /** The calls on the store. */
  datatype Call =
    | CreateJob(id: JobId, inputs: Inputs)
    | GetJob(id: JobId)
    | MarkRunning(id: JobId)
    | MarkSucceeded(id: JobId, result: Option<ThinkerResult>)
    | MarkFailed(id: JobId, errorCode: string, errorMessage: string, retryable: bool, canContinue: bool)
    | MarkMaterialized(id: JobId)
    | MarkSkipped(id: JobId)
    | RetryJob(id: JobId)

  function Transition(jobs: Jobs, id: JobId, c: Change): (Jobs, Result<Job, StoreError>) {
    if id !in jobs then (jobs, Err(KeyError))
    else if c.status !in Allowed(jobs[id].status) then (jobs, Err(ValueError))
    else (jobs[id := Changed(jobs[id], c)], Ok(Changed(jobs[id], c)))
  }

  function Offers(j: Job, a: Action): bool {
    a in AvailableActions(j.status, j.retryable, j.canContinue)
  }

  /** What each call does to the registry and returns. */
  function Perform(jobs: Jobs, call: Call): (Jobs, Result<Job, StoreError>) {
    match call
    case CreateJob(id, inputs) => (jobs[id := NewJob(id, inputs)], Ok(NewJob(id, inputs)))
    case GetJob(id) => (jobs, if id in jobs then Ok(jobs[id]) else Err(KeyError))
    case MarkRunning(id) => Transition(jobs, id, Cleared(Running, None))
    case MarkSucceeded(id, result) => Transition(jobs, id, Cleared(Succeeded, Some(result)))
    case MarkFailed(id, code, message, retryable, canContinue) =>
      Transition(jobs, id, Change(Failed, None, Some(code), Some(message), Some(retryable), Some(canContinue)))
    case MarkMaterialized(id) =>
      if id !in jobs then (jobs, Err(KeyError))
      else if jobs[id].status != Succeeded || jobs[id].result.None? then (jobs, Err(ValueError))
      else Transition(jobs, id, Cleared(Materialized, None))
    case MarkSkipped(id) =>
      if id !in jobs then (jobs, Err(KeyError))
      else if !Offers(jobs[id], Skip) then (jobs, Err(ValueError))
      else Transition(jobs, id, Cleared(Skipped, None))
    case RetryJob(id) =>
      if id !in jobs then (jobs, Err(KeyError))
      else if !Offers(jobs[id], Retry) then (jobs, Err(ValueError))
      else Transition(jobs, id, Cleared(Created, Some(None)))
  }

  /** A stored job, whose fields the registry assigns in place. */
  class ThinkerJob {
    const jobId: JobId
    const inputs: Inputs
    var status: Status
    var result: Option<ThinkerResult>
    var errorCode: Option<string>
    var errorMessage: Option<string>
    var retryable: Option<bool>
    var canContinue: bool

    constructor (jobId: JobId, inputs: Inputs)
      ensures Copy() == NewJob(jobId, inputs) && this.jobId == jobId
    {
      this.jobId, this.inputs := jobId, inputs;
      status, result, errorCode, errorMessage, retryable, canContinue := Created, None, None, None, None, true;
    }

    /** `model_copy(deep=True)`: a value no later assignment can reach. */
    function Copy(): Job
      reads this
    {
      Job(jobId, inputs, status, result, errorCode, errorMessage, retryable, canContinue)
    }
  }

  class InMemoryThinkerJobStore {
    var jobs: map<JobId, ThinkerJob>

    ghost predicate Valid()
      reads this, jobs.Values
    {
      forall id :: id in jobs ==> jobs[id].jobId == id
    }

    function View(): Jobs
      reads this, jobs.Values
    {
      map id | id in jobs :: jobs[id].Copy()
    }

    constructor ()
      ensures Valid() && View() == map[] && fresh(jobs.Values)
    {
      jobs := map[];
    }

    method CreateJob(id: JobId, inputs: Inputs) returns (r: Job)
      requires Valid()
      modifies this
      ensures Valid() && fresh(jobs.Values - old(jobs.Values))
      ensures (View(), Ok(r)) == Perform(old(View()), Call.CreateJob(id, inputs))
    {
      var job := new ThinkerJob(id, inputs);
      jobs := jobs[id := job];
      r := job.Copy();
      forall o | o in jobs.Values && o !in old(jobs.Values) ensures o == job {}
      assert View() == old(View())[id := r];
    }

    method GetJob(id: JobId) returns (r: Result<Job, StoreError>)
      requires Valid()
      ensures (View(), r) == Perform(View(), Call.GetJob(id))
    {
      r := if id in jobs then Ok(jobs[id].Copy()) else Err(KeyError);
    }

    /** `_transition`: check the table, then assign the fields of the stored job one by one. */
    method TransitionJob(id: JobId, c: Change) returns (r: Result<Job, StoreError>)
      requires Valid()
      modifies jobs.Values
      ensures Valid() && jobs == old(jobs)
      ensures (View(), r) == Transition(old(View()), id, c)
    {
      if id !in jobs { return Err(KeyError); }
      var job := jobs[id];
      if c.status !in Allowed(job.status) { return Err(ValueError); }
      job.status := c.status;
      if c.result.Some? { job.result := c.result.value; }
      job.errorCode := c.errorCode;
      job.errorMessage := c.errorMessage;
      job.retryable := c.retryable;
      if c.canContinue.Some? { job.canContinue := c.canContinue.value; }
      forall k | k in jobs && k != id ensures jobs[k].Copy() == old(jobs[k].Copy()) {
        assert jobs[k].jobId == k != job.jobId;
      }
      assert View() == old(View())[id := job.Copy()];
      return Ok(job.Copy());
    }

    method MarkRunning(id: JobId) returns (r: Result<Job, StoreError>)
      requires Valid()
      modifies jobs.Values
      ensures Valid() && jobs == old(jobs) && (View(), r) == Perform(old(View()), Call.MarkRunning(id))
    {
      r := TransitionJob(id, Cleared(Running, None));
    }

    method MarkSucceeded(id: JobId, result: Option<ThinkerResult>) returns (r: Result<Job, StoreError>)
      requires Valid()
      modifies jobs.Values
      ensures Valid() && jobs == old(jobs) && (View(), r) == Perform(old(View()), Call.MarkSucceeded(id, result))
    {
      r := TransitionJob(id, Cleared(Succeeded, Some(result)));
    }

    method MarkFailed(id: JobId, code: string, message: string, retryable: bool, canContinue: bool)
      returns (r: Result<Job, StoreError>)
      requires Valid()
      modifies jobs.Values
      ensures Valid() && jobs == old(jobs)
      ensures (View(), r) == Perform(old(View()), Call.MarkFailed(id, code, message, retryable, canContinue))
    {
      r := TransitionJob(id, Change(Failed, None, Some(code), Some(message), Some(retryable), Some(canContinue)));
    }

    method MarkMaterialized(id: JobId) returns (r: Result<Job, StoreError>)
      requires Valid()
      modifies jobs.Values
      ensures Valid() && jobs == old(jobs) && (View(), r) == Perform(old(View()), Call.MarkMaterialized(id))
    {
      if id !in jobs { return Err(KeyError); }
      if jobs[id].status != Succeeded || jobs[id].result.None? { return Err(ValueError); }
      r := TransitionJob(id, Cleared(Materialized, None));
    }

    method MarkSkipped(id: JobId) returns (r: Result<Job, StoreError>)
      requires Valid()
      modifies jobs.Values
      ensures Valid() && jobs == old(jobs) && (View(), r) == Perform(old(View()), Call.MarkSkipped(id))
    {
      if id !in jobs { return Err(KeyError); }
      if Skip !in AvailableActions(jobs[id].status, jobs[id].retryable, jobs[id].canContinue) {
        return Err(ValueError);
      }
      r := TransitionJob(id, Cleared(Skipped, None));
    }

    method RetryJob(id: JobId) returns (r: Result<Job, StoreError>)
      requires Valid()
      modifies jobs.Values
      ensures Valid() && jobs == old(jobs) && (View(), r) == Perform(old(View()), Call.RetryJob(id))
    {
      if id !in jobs { return Err(KeyError); }
      if Retry !in AvailableActions(jobs[id].status, jobs[id].retryable, jobs[id].canContinue) {
        return Err(ValueError);
      }
      r := TransitionJob(id, Cleared(Created, Some(None)));
    }
  }

  // ---- Over every sequence of calls ----

  /** What a caller can rely on when reading any job. */
  ghost predicate Coherent(j: Job) {
    && (j.errorCode.Some? <==> j.status.Failed?)
    && (j.errorMessage.Some? <==> j.status.Failed?)
    && (j.retryable.Some? <==> j.status.Failed?)
    && (!j.canContinue ==> j.status.Failed?)
    && (j.result.Some? ==> j.status.Succeeded? || j.status.Materialized? || j.status.Skipped?)
    && (j.status.Materialized? ==> j.result.Some?)
  }

  ghost predicate AllCoherent(jobs: Jobs) {
    forall id :: id in jobs ==> Coherent(jobs[id]) && jobs[id].jobId == id
  }

  function RunFrom(jobs: Jobs, calls: seq<Call>): Jobs {
    if calls == [] then jobs else Perform(RunFrom(jobs, calls[..|calls| - 1]), calls[|calls| - 1]).0
  }

  lemma PerformKeepsCoherent(jobs: Jobs, call: Call)
    requires AllCoherent(jobs)
    ensures AllCoherent(Perform(jobs, call).0)
  {
  }

  /** After any sequence of calls, accepted or rejected, every stored job is coherent. */
  lemma {:induction false} StoreAlwaysCoherent(calls: seq<Call>)
    ensures AllCoherent(RunFrom(map[], calls))
  {
    hide AllCoherent, Perform;
    if calls == [] {
      EmptyCoherent();
    } else {
      StoreAlwaysCoherent(calls[..|calls| - 1]);
      PerformKeepsCoherent(RunFrom(map[], calls[..|calls| - 1]), calls[|calls| - 1]);
    }
  }

  lemma EmptyCoherent()
    ensures AllCoherent(map[])
  {
  }

  /** A rejected call changes nothing; an accepted one changes at most the job it names, along the table or
      by creating it, and never its inputs. */
  lemma CallEffect(jobs: Jobs, call: Call)
    ensures var (jobs', r) := Perform(jobs, call);
      && (r.Err? ==> jobs' == jobs)
      && (r.Ok? ==> call.id in jobs' && jobs'[call.id] == r.value && jobs'.Keys == jobs.Keys + {call.id})
      && (forall id :: id in jobs && id != call.id ==> id in jobs' && jobs'[id] == jobs[id])
      && (r.Ok? && !call.CreateJob? ==>
            && call.id in jobs && jobs'[call.id].inputs == jobs[call.id].inputs
            && (jobs'[call.id] == jobs[call.id] || jobs'[call.id].status in Allowed(jobs[call.id].status)))
  {
  }

  /** Materialized and skipped jobs never change again, whatever is called on them. */
  lemma {:induction false} TerminalIsAbsorbing(jobs: Jobs, calls: seq<Call>, id: JobId)
    requires id in jobs && (jobs[id].status.Materialized? || jobs[id].status.Skipped?)
    requires forall i :: 0 <= i < |calls| && calls[i].CreateJob? ==> calls[i].id != id
    ensures var jobs' := RunFrom(jobs, calls); id in jobs' && jobs'[id] == jobs[id]
  {
    if calls != [] {
      var init := calls[..|calls| - 1];
      TerminalIsAbsorbing(jobs, init, id);
      assert calls[|calls| - 1].CreateJob? ==> calls[|calls| - 1].id != id;
    }
  }

  /** The actions offered are exactly the user calls the store would accept, and exactly the table's
      entries for them. */
  lemma OffersAreAccepted(jobs: Jobs, id: JobId)
    requires id in jobs
    ensures Offers(jobs[id], Retry) <==> Perform(jobs, RetryJob(id)).1.Ok?
    ensures Offers(jobs[id], Retry) <==> Created in Allowed(jobs[id].status)
    ensures Offers(jobs[id], Skip) <==> Perform(jobs, MarkSkipped(id)).1.Ok?
    ensures Offers(jobs[id], Skip) <==> Skipped in Allowed(jobs[id].status)
  {
  }

  // ---- Call by call ----

  /** The records on which a call is accepted. */
  predicate Accepts(j: Job, call: Call) {
    match call
    case CreateJob(_, _) => false
    case GetJob(_) => true
    case MarkRunning(_) => j.status.Created?
    case MarkSucceeded(_, _) => j.status.Running?
    case MarkFailed(_, _, _, _, _) => j.status.Created? || j.status.Running?
    case MarkMaterialized(_) => j.status.Succeeded? && j.result.Some?
    case MarkSkipped(_) => j.status.Failed? || j.status.Succeeded?
    case RetryJob(_) => j.status.Failed?
  }

  predicate NoError(j: Job) {
    j.errorCode.None? && j.errorMessage.None? && j.retryable.None? && j.canContinue
  }

  /** What an accepted call makes of the record `j`. */
  predicate Outcome(j: Job, call: Call, j': Job) {
    && j'.jobId == j.jobId && j'.inputs == j.inputs
    && match call
       case CreateJob(_, _) => false
       case GetJob(_) => j' == j
       case MarkRunning(_) => j'.status == Running && j'.result == j.result && NoError(j')
       case MarkSucceeded(_, result) => j'.status == Succeeded && j'.result == result && NoError(j')
       case MarkFailed(_, code, message, retryable, canContinue) =>
         && j'.status == Failed && j'.result == j.result && j'.errorCode == Some(code)
         && j'.errorMessage == Some(message) && j'.retryable == Some(retryable) && j'.canContinue == canContinue
       case MarkMaterialized(_) => j'.status == Materialized && j'.result == j.result && NoError(j')
       case MarkSkipped(_) => j'.status == Skipped && j'.result == j.result && NoError(j')
       case RetryJob(_) => j'.status == Created && j'.result == None && NoError(j')
  }

  /** Each call on a job: a key error exactly when it is unknown, a value error exactly when its record does
      not accept the call, and otherwise the record the call promises, with no other job touched. */
  lemma CallOutcome(jobs: Jobs, call: Call)
    requires !call.CreateJob?
    ensures var (jobs', r) := Perform(jobs, call);
      && (r == Err(KeyError) <==> call.id !in jobs)
      && (r == Err(ValueError) <==> call.id in jobs && !Accepts(jobs[call.id], call))
      && (r.Err? ==> jobs' == jobs)
      && (r.Ok? ==> Outcome(jobs[call.id], call, r.value) && jobs' == jobs[call.id := r.value])
  {
  }

  /** A new job is created, without a result or an error, and holds the inputs given. */
  lemma CreateOutcome(jobs: Jobs, id: JobId, inputs: Inputs)
    ensures var (jobs', r) := Perform(jobs, CreateJob(id, inputs));
      && r.Ok? && jobs' == jobs[id := r.value]
      && r.value.jobId == id && r.value.inputs == inputs && r.value.status == Created
      && r.value.result == None && NoError(r.value)
  {
  }
}
