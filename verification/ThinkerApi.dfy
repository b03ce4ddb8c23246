/** `thinker/api.py`: the endpoints and the executor task, acting on the shared registry in place.
    Each method is one atomic stretch and does exactly the protocol step it is named after. */
module ThinkerApi {
  import opened Wrappers
  import opened ThinkerModels
  import opened ThinkerJobs
  import opened ThinkerProtocol

  class Service {
    const store: InMemoryThinkerJobStore
    var tasks: seq<Task>
    /** History only. */
    ghost var log: seq<Event>

    ghost predicate Valid()
      reads this, store, store.jobs.Values
    {
      store.Valid()
    }

    ghost function State(): System
      reads this, store, store.jobs.Values
    {
      System(store.View(), tasks, log)
    }

    constructor (store: InMemoryThinkerJobStore)
      requires store.Valid() && store.View() == map[]
      ensures this.store == store && Valid() && State() == INITIAL
    {
      this.store, tasks, log := store, [], [];
    }

    /** `POST /jobs`, once the request is parsed; `id` is the uuid drawn for it. */
    method CreateJob(id: JobId, inputs: Inputs) returns (r: Response)
      requires Valid() && id !in store.View()
      modifies this, store
      ensures Valid() && fresh(store.jobs.Values - old(store.jobs.Values))
      ensures (State(), r) == Next(old(State()), PostJob(id, inputs))
    {
      var job := store.CreateJob(id, inputs);
      tasks := tasks + [Task(id, inputs, Spawned)];
      r := Done(job);
    }

    /** `GET /jobs/{id}`. */
    method GetJob(id: JobId) returns (r: Response)
      requires Valid()
      ensures (State(), r) == Next(State(), PollJob(id))
    {
      var found := store.GetJob(id);
      r := Answer(found);
    }

    /** `POST /materialize`; a success also carries the payload, built from the stored result. */
    method MaterializeJob(id: JobId, adopted: AdoptedInput)
      returns (r: Response, payload: Option<MaterializedPayload>)
      requires Valid()
      modifies `log, store.jobs.Values
      ensures Valid() && store.jobs == old(store.jobs)
      ensures (State(), r) == Next(old(State()), PostMaterialize(id))
      ensures payload.Some? <==> r.Done?
      ensures payload.Some? ==>
        && id in old(store.View()) && old(store.View())[id].result.Some?
        && payload.value == Materialize(old(store.View())[id].result.value, adopted)
    {
      payload := None;
      var current := store.GetJob(id);
      if current.Err? { return NotFound, None; }
      if current.value.status != Succeeded { return Conflict, None; }
      if current.value.result.None? { return Conflict, None; }
      var moved := store.MarkMaterialized(id);
      if moved.Ok? {
        log := log + [Moved(id, current.value.status, moved.value.status)];
        payload := Some(Materialize(current.value.result.value, adopted));
      }
      r := Answer(moved);
    }

    /** `POST /jobs/{id}/retry`: back to created, and a new task with the stored inputs. */
    method RetryJob(id: JobId) returns (r: Response)
      requires Valid()
      modifies `log, `tasks, store.jobs.Values
      ensures Valid() && store.jobs == old(store.jobs)
      ensures (State(), r) == Next(old(State()), PostRetry(id))
    {
      ghost var was := store.View();
      var moved := store.RetryJob(id);
      if moved.Ok? {
        log := log + [Moved(id, was[id].status, moved.value.status)];
        tasks := tasks + [Task(id, moved.value.inputs, Spawned)];
      }
      r := Answer(moved);
    }

    /** `POST /jobs/{id}/skip`. */
    method SkipJob(id: JobId) returns (r: Response)
      requires Valid()
      modifies `log, store.jobs.Values
      ensures Valid() && store.jobs == old(store.jobs)
      ensures (State(), r) == Next(old(State()), PostSkip(id))
    {
      ghost var was := store.View();
      var moved := store.MarkSkipped(id);
      if moved.Ok? { log := log + [Moved(id, was[id].status, moved.value.status)]; }
      r := Answer(moved);
    }

    /** The `except` block of `_execute_job`. */
    method RecordFailure(id: JobId, code: string, message: string, retryable: bool)
      requires Valid()
      modifies `log, store.jobs.Values
      ensures Valid() && store.jobs == old(store.jobs)
      ensures State() == ExecutorMove(old(State()), MarkFailed(id, code, message, retryable, true)).0
    {
      ghost var was := store.View();
      var moved := store.MarkFailed(id, code, message, retryable, true);
      log := log + (if moved.Ok? then [Moved(id, was[id].status, moved.value.status)] else [Refused(id)]);
    }

    /** The `try` block up to the await: claim the job; the flag is false when the store refused. */
    method Claim(id: JobId) returns (ok: bool)
      requires Valid()
      modifies `log, store.jobs.Values
      ensures Valid() && store.jobs == old(store.jobs)
      ensures (State(), ok) == ExecutorMove(old(State()), MarkRunning(id))
    {
      ghost var was := store.View();
      var moved := store.MarkRunning(id);
      log := log + (if moved.Ok? then [Moved(id, was[id].status, moved.value.status)] else [Refused(id)]);
      ok := moved.Ok?;
    }

    /** `_execute_job` up to the await on the orchestrator. */
    method StartTask(t: nat)
      requires Valid() && t < |tasks| && tasks[t].phase == Spawned
      modifies `log, `tasks, store.jobs.Values
      ensures Valid() && store.jobs == old(store.jobs)
      ensures State() == Next(old(State()), Start(t)).0
    {
      hide ExecutorMove;
      var task := tasks[t];
      ExecutorMoveKeepsTasks(State(), MarkRunning(task.job));
      var ok := Claim(task.job);
      if ok {
        log := log + [Ran(task.job, task.inputs)];
        tasks := tasks[t := task.(phase := Awaiting)];
      } else {
        ExecutorMoveKeepsTasks(State(), MarkFailed(task.job, UNCLASSIFIED, "", true, true));
        RecordFailure(task.job, UNCLASSIFIED, "", true);
        tasks := tasks[t := task.(phase := Ended)];
      }
    }

    /** `_execute_job` after the orchestrator returned. */
    method FinishTask(t: nat, result: ThinkerResult)
      requires Valid() && t < |tasks| && tasks[t].phase == Awaiting
      modifies `log, `tasks, store.jobs.Values
      ensures Valid() && store.jobs == old(store.jobs)
      ensures State() == Next(old(State()), Return(t, result)).0
    {
      var task := tasks[t];
      ghost var was := store.View();
      var moved := store.MarkSucceeded(task.job, Some(result));
      log := log + (if moved.Ok? then [Moved(task.job, was[task.job].status, moved.value.status)]
                    else [Refused(task.job)]);
      tasks := tasks[t := task.(phase := Ended)];
    }

    /** `_execute_job` after the orchestrator raised. */
    method FailTask(t: nat, code: string, message: string, retryable: bool)
      requires Valid() && t < |tasks| && tasks[t].phase == Awaiting
      modifies `log, `tasks, store.jobs.Values
      ensures Valid() && store.jobs == old(store.jobs)
      ensures State() == Next(old(State()), Raise(t, code, message, retryable)).0
    {
      hide ExecutorMove;
      var task := tasks[t];
      ExecutorMoveKeepsTasks(State(), MarkFailed(task.job, code, message, retryable, true));
      RecordFailure(task.job, code, message, retryable);
      tasks := tasks[t := task.(phase := Ended)];
    }
  }

  lemma ExecutorMoveKeepsTasks(s: System, call: Call)
    requires !call.CreateJob? && !call.GetJob?
    ensures ExecutorMove(s, call).0.tasks == s.tasks
  {
  }
}
