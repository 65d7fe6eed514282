/**
 * The job handlers of the HTTP service. The registry is a map from job
 * identifier to job that starts empty. `create` and `get` do all their map
 * work under the registry's write lock, so each runs as one atomic step on
 * the map; `delete` never touches the map.
 *
 * The worker library these handlers call is used through its interface
 * only: the job type is the opaque type parameter `J`, and `Job::new` and
 * `Job::stop` are the oracles `newJob(id, owner, commandLine)` and
 * `stop(job, user)`, the latter giving the job as `stop` leaves it.
 */
module JobsApi {
  import opened Wrappers
  import opened Uuids
  import opened Http
  import opened SecurityClaims

  /** The errors of the worker library the handlers are written against. */
  datatype WorkerError = InvalidCommand(commandLine: string) | CommandNotFound | Unauthorized | Io

  /** The body of a job creation request. */
  datatype JobRequest = JobRequest(id: Uuid, commandLine: string)

  /** A call of `Job::new`, as the handler made it. */
  datatype NewJobCall = NewJobCall(id: Uuid, owner: string, commandLine: string)

  /** The HTTP status `create` answers a failed `Job::new` with. */
  function CreateErrorStatus(e: WorkerError): (s: Status)
    ensures s == BadRequest <==> e.CommandNotFound? || e.InvalidCommand?
    ensures s != BadRequest ==> s == InternalServerError
  {
    match e
    case CommandNotFound => BadRequest
    case InvalidCommand(_) => BadRequest
    case _ => InternalServerError
  }

  /** The HTTP status `get` answers the result of `stop` with. */
  function StopStatus(r: Result<(), WorkerError>): (s: Status)
    ensures s == Status.Ok <==> r.Ok?
    ensures s == Forbidden <==> r == Err(WorkerError.Unauthorized)
    ensures s != Status.Ok && s != Forbidden ==> s == InternalServerError
  {
    match r
    case Ok(_) => Status.Ok
    case Err(e) => if e.Unauthorized? then Forbidden else InternalServerError
  }

  class JobRegistry<J> {
    /** The jobs, by identifier. */
    var jobs: map<Uuid, J>
    /** Every call of `Job::new` the handlers have made, in order; each one launches a process. */
    ghost var newJobCalls: seq<NewJobCall>

    /** The registry starts empty. */
    constructor ()
      ensures jobs == map[] && newJobCalls == []
    {
      jobs := map[];
      newJobCalls := [];
    }

    /**
     * `jobs::create`. A taken identifier is a conflict and `Job::new` is not
     * called. Otherwise `Job::new` runs with the caller's subject as owner,
     * and the job is stored only if it succeeds.
     */
    method Create(claims: Claims, request: JobRequest, newJob: (Uuid, string, string) -> Result<J, WorkerError>)
      returns (status: Status)
      modifies this
      ensures request.id in old(jobs) ==>
        status == Conflict && jobs == old(jobs) && newJobCalls == old(newJobCalls)
      ensures request.id !in old(jobs) ==>
        var made := newJob(request.id, claims.sub, request.commandLine);
        && newJobCalls == old(newJobCalls) + [NewJobCall(request.id, claims.sub, request.commandLine)]
        && (made.Ok? ==> status == Created && jobs == old(jobs)[request.id := made.value])
        && (made.Err? ==> status == CreateErrorStatus(made.error) && jobs == old(jobs))
      ensures old(jobs).Keys <= jobs.Keys
    {
      if request.id in jobs {
        status := Conflict;
      } else {
        newJobCalls := newJobCalls + [NewJobCall(request.id, claims.sub, request.commandLine)];
        match newJob(request.id, claims.sub, request.commandLine)
        case Ok(job) =>
          jobs := jobs[request.id := job];
          status := Created;
        case Err(err) =>
          status := CreateErrorStatus(err);
      }
    }

    /**
     * `jobs::get`. Despite its route this handler stops the job: it calls
     * `stop` with the caller's subject on the entry and stores the job as
     * `stop` leaves it. An unknown identifier is `NotFound`.
     */
    method Get(claims: Claims, jobId: Uuid, stop: (J, string) -> (J, Result<(), WorkerError>))
      returns (status: Status)
      modifies this`jobs
      ensures jobId !in old(jobs) ==> status == NotFound && jobs == old(jobs)
      ensures jobId in old(jobs) ==>
        var (after, result) := stop(old(jobs)[jobId], claims.sub);
        status == StopStatus(result) && jobs == old(jobs)[jobId := after]
      ensures jobs.Keys == old(jobs).Keys
    {
      if jobId in jobs {
        var (after, result) := stop(jobs[jobId], claims.sub);
        jobs := jobs[jobId := after];
        status := StopStatus(result);
      } else {
        status := NotFound;
      }
    }
  }

  /**
   * `jobs::delete`, a stub: it never sees the registry and answers `Ok`
   * exactly for identifiers whose text begins with "62".
   */
  function Delete(claims: Claims, jobId: Uuid): (s: Status)
    ensures s == Status.Ok <==> jobId[0] == 0x62
    ensures s != Status.Ok ==> s == NotFound
  {
    Uuids.ToStringStartsWith62(jobId);
    if Uuids.ToString(jobId)[..2] == "62" then Status.Ok else NotFound
  }

  /**
   * Create-once: after a successful creation, creating the same identifier
   * again is a conflict that changes nothing, whatever `Job::new` would do.
   */
  method CreateTwice<J>(registry: JobRegistry<J>, claims: Claims, request: JobRequest,
                        newJob: (Uuid, string, string) -> Result<J, WorkerError>)
    returns (first: Status, second: Status)
    modifies registry
    ensures first == Created ==> second == Conflict
    ensures first == Conflict ==> second == Conflict
    ensures old(registry.jobs).Keys + {request.id} >= registry.jobs.Keys >= old(registry.jobs).Keys
  {
    first := registry.Create(claims, request, newJob);
    second := registry.Create(claims, request, newJob);
  }
}
