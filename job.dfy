/**
 * A job of the worker library: a command line run as a child process whose
 * standard output and standard error both go to the file "<id>.txt".
 * In this version `Job::new` starts the child and waits for it, so a job
 * that is returned has already run to completion.
 *
 * The operating system is one oracle, `os`: given the launch request that
 * `start` issues (program, arguments and the output file for both streams),
 * it says whether creating the file, cloning its handle, spawning the child
 * and waiting for it all succeeded, or which of those steps failed first.
 */
module Jobs {
  import opened Wrappers
  import opened Text
  import opened Uuids
  import opened JobErrors

  datatype Job = Job(id: Uuid, commandLine: string)

  /** `Job::get_id`. */
  function GetId(job: Job): (r: Uuid)
    ensures Job(r, job.commandLine) == job
  {
    job.id
  }

  /** The output file of a job: the identifier's text followed by ".txt". */
  function OutputFileName(id: Uuid): (r: string)
    ensures |r| == 40
    ensures r[..36] == Uuids.ToString(id) && r[36..] == ".txt"
  {
    Uuids.ToString(id) + ".txt"
  }

  /** Distinct jobs never share an output file. */
  lemma OutputFileNameInjective(a: Uuid, b: Uuid)
    ensures OutputFileName(a) == OutputFileName(b) ==> a == b
  {
    var fa, fb := OutputFileName(a), OutputFileName(b);
    assert fa[..36] == Uuids.ToString(a);
    assert fb[..36] == Uuids.ToString(b);
    Uuids.ToStringInjective(a, b);
  }

  /** What `start` hands to the operating system. */
  datatype LaunchRequest = LaunchRequest(program: string, args: seq<string>, stdoutFile: string, stderrFile: string)

  /** The fallible steps of `start`, in the order they run. */
  datatype Step = CreateFile | CloneHandle | Spawn | Wait

  /** The oracle's answer: every step succeeded, or the first one that failed. */
  datatype LaunchOutcome = Completed | FailedAt(step: Step)

  /** Why `start` gave up: no program token, or a failed operating-system step. */
  datatype StartError = Invalid(error: JobError) | Io(step: Step)

  /**
   * `Job::start`. Tokenises the command line first; without a program token
   * it fails before the operating system is asked for anything. Otherwise
   * it issues one launch request: the first token is the program, the
   * remaining tokens the arguments, and both streams go to the job's file.
   */
  method Start(job: Job, os: LaunchRequest -> LaunchOutcome)
    returns (issued: Option<LaunchRequest>, r: Result<(), StartError>)
    ensures issued.None? <==> SplitWhitespace(job.commandLine) == []
    ensures issued.None? ==> r == Err(Invalid(InvalidCommand("")))
    ensures issued.Some? ==>
      var tokens := SplitWhitespace(job.commandLine);
      && issued.value.program == tokens[0]
      && issued.value.args == tokens[1..]
      && issued.value.stdoutFile == OutputFileName(job.id)
      && issued.value.stderrFile == OutputFileName(job.id)
    ensures issued.Some? ==>
      (r.Ok? <==> os(issued.value) == Completed)
      && (r.Err? ==> r.error == Io(os(issued.value).step))
  {
    var parts := SplitWhitespace(job.commandLine);
    if parts == [] {
      return None, Err(Invalid(InvalidCommand("")));
    }
    var command := parts[0];
    var args := parts[1..];
    var filename := OutputFileName(job.id);
    var request := LaunchRequest(command, args, filename, filename);
    issued := Some(request);
    match os(request)
    case Completed =>
      r := Ok(());
    case FailedAt(step) =>
      r := Err(Io(step));
  }

  /**
   * `Job::new`: records the identifier and the command line, then starts
   * the job. Every failure of `start` becomes `InvalidCommand` carrying the
   * original command line; success means the child was spawned and waited for.
   */
  method New(id: Uuid, commandLine: string, os: LaunchRequest -> LaunchOutcome)
    returns (issued: Option<LaunchRequest>, r: Result<Job, JobError>)
    ensures issued.None? <==> SplitWhitespace(commandLine) == []
    ensures issued.Some? ==>
      var tokens := SplitWhitespace(commandLine);
      && issued.value.program == tokens[0]
      && issued.value.args == tokens[1..]
      && issued.value.stdoutFile == issued.value.stderrFile == OutputFileName(id)
    ensures r.Ok? <==> issued.Some? && os(issued.value) == Completed
    ensures r.Ok? ==> r.value.id == id && r.value.commandLine == commandLine && GetId(r.value) == id
    ensures r.Err? ==> r.error == InvalidCommand(commandLine)
    ensures AllWhitespace(commandLine) ==> issued.None? && r == Err(InvalidCommand(commandLine))
  {
    SplitWhitespaceEmptyIff(commandLine);
    var job := Job(id, commandLine);
    var started;
    issued, started := Start(job, os);
    match started
    case Err(_) =>
      r := Err(InvalidCommand(commandLine));
    case Ok(_) =>
      r := Ok(job);
  }

  /**
   * The program and its arguments, joined by single spaces, are split back
   * into the same program and arguments: no token is lost, merged or split.
   */
  lemma LaunchRequestRoundTrip(program: string, args: seq<string>)
    requires IsToken(program)
    requires forall k :: 0 <= k < |args| ==> IsToken(args[k])
    ensures SplitWhitespace(JoinSpaced([program] + args)) == [program] + args
  {
    SplitWhitespaceJoinSpaced([program] + args);
  }

  /** Quotes are ordinary characters: a quoted argument with a space in it is two tokens. */
  lemma QuotesAreNotSpecial()
    ensures SplitWhitespace("echo \"a b\"") == ["echo", "\"a", "b\""]
  {
    var ts := ["echo", "\"a", "b\""];
    assert JoinSpaced(ts[2..]) == "b\"";
    assert JoinSpaced(ts[1..]) == "\"a b\"";
    assert JoinSpaced(ts) == "echo \"a b\"";
    SplitWhitespaceJoinSpaced(ts);
  }
}
