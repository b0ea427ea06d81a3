/** The task executor (python/runtime_failure/tasks/executor.py): one task
    runs through a bounded retry loop and yields an execution result.

    The shell command itself is not modelled. What a run of the command
    reports is a parameter `run`: given the working directory the executor
    chose and the number of the attempt, it says whether the process
    finished (with its exit code and output), hit the timeout, or could not
    be started at all. Whether a directory exists is the parameter
    `dirExists`. */
module TaskExecutor {
  import opened Wrappers
  import opened Text
  import opened TaskModels

  /** What one `subprocess.run` call reports. */
  datatype RunOutcome =
    | Finished(returnCode: int, stdout: string, stderr: string)
    | TimedOut
    | Raised(message: string)

  /** The executor only remembers the workspace it was built with (which may be unset). */
  datatype Executor = Executor(workspace: Option<string>)

  /** `os.path.join(workspace, "tasks")` on a POSIX system. */
  function JoinTasks(workspace: string): (path: string)
    ensures |path| > |workspace|
    ensures path[..|workspace|] == workspace
  {
    if workspace != [] && workspace[|workspace| - 1] == '/' then workspace + "tasks" else workspace + "/tasks"
  }

  /** The `cwd` passed to the subprocess: `workspace/tasks` when a workspace
      is set and that directory exists, otherwise `None` (the default). */
  function WorkingDir(ex: Executor, dirExists: string -> bool): (cwd: Option<string>)
    ensures cwd.Some? <==> ex.workspace.Some? && ex.workspace.value != [] && dirExists(JoinTasks(ex.workspace.value))
    ensures cwd.Some? ==> cwd.value == JoinTasks(ex.workspace.value)
  {
    match ex.workspace
    case None => None
    case Some(ws) =>
      if ws == [] then None
      else
        var dir := JoinTasks(ws);
        if dirExists(dir) then Some(dir) else None
  }

  /** `str(timeout)` for an optional integer. */
  function TimeoutText(timeout: Option<int>): string {
    match timeout
    case None => "None"
    case Some(t) => IntToString(t)
  }

  /** The name of signal `n` in Python's `signal.Signals` on Linux (the
      canonical name where two names share a number, as SIGABRT/SIGIOT);
      the real-time signals between SIGRTMIN and SIGRTMAX have no member. */
  function SignalName(n: int): (name: Option<string>)
    ensures name.Some? <==> 1 <= n <= 31 || n == 34 || n == 64
  {
    match n
    case 1 => Some("SIGHUP")
    case 2 => Some("SIGINT")
    case 3 => Some("SIGQUIT")
    case 4 => Some("SIGILL")
    case 5 => Some("SIGTRAP")
    case 6 => Some("SIGABRT")
    case 7 => Some("SIGBUS")
    case 8 => Some("SIGFPE")
    case 9 => Some("SIGKILL")
    case 10 => Some("SIGUSR1")
    case 11 => Some("SIGSEGV")
    case 12 => Some("SIGUSR2")
    case 13 => Some("SIGPIPE")
    case 14 => Some("SIGALRM")
    case 15 => Some("SIGTERM")
    case 16 => Some("SIGSTKFLT")
    case 17 => Some("SIGCHLD")
    case 18 => Some("SIGCONT")
    case 19 => Some("SIGSTOP")
    case 20 => Some("SIGTSTP")
    case 21 => Some("SIGTTIN")
    case 22 => Some("SIGTTOU")
    case 23 => Some("SIGURG")
    case 24 => Some("SIGXCPU")
    case 25 => Some("SIGXFSZ")
    case 26 => Some("SIGVTALRM")
    case 27 => Some("SIGPROF")
    case 28 => Some("SIGWINCH")
    case 29 => Some("SIGIO")
    case 30 => Some("SIGPWR")
    case 31 => Some("SIGSYS")
    case 34 => Some("SIGRTMIN")
    case 64 => Some("SIGRTMAX")
    case _ => None
  }

  /** `str(CalledProcessError(code, command))` for a non-zero code: a
      negative code is the signal that killed the process, shown as the
      `repr` of its `signal.Signals` member, or as an unknown signal. */
  function ProcessErrorText(command: string, code: int): string {
    if code < 0 then
      match SignalName(-code)
      case Some(name) => "Command '" + command + "' died with <Signals." + name + ": " + IntToString(-code) + ">."
      case None => "Command '" + command + "' died with unknown signal " + IntToString(-code) + "."
    else "Command '" + command + "' returned non-zero exit status " + IntToString(code) + "."
  }

  /** A process killed by SIGKILL that wrote nothing on stderr. */
  lemma KilledProcessMessage(command: string)
    ensures ProcessErrorText(command, -9) == "Command '" + command + "' died with <Signals.SIGKILL: 9>."
  {
    assert IntToString(9) == "9";
  }

  /** A negative code that names no signal. */
  lemma UnknownSignalMessage(command: string)
    ensures ProcessErrorText(command, -40) == "Command '" + command + "' died with unknown signal 40."
  {
    assert SignalName(40) == None;
    assert NatToString(4) == "4" && DigitChar(0) == '0';
    assert IntToString(40) == "40";
  }

  /** What one attempt of `task` amounts to: the stripped output when the
      process exits with 0, otherwise the error message that `execute`
      records for it. */
  function Attempt(task: Task, outcome: RunOutcome): (a: Result<string, string>)
    ensures a.Ok? <==> outcome.Finished? && outcome.returnCode == 0
    ensures a.Ok? ==> a.value == Trim(outcome.stdout, IsPySpace)
    ensures outcome.TimedOut? ==> a == Err("Task timed out after " + TimeoutText(task.timeout) + "s")
    ensures outcome.Finished? && outcome.returnCode != 0 && outcome.stderr != [] ==> a == Err(outcome.stderr)
    ensures outcome.Finished? && outcome.returnCode != 0 && outcome.stderr == [] ==>
              a == Err(ProcessErrorText(task.command, outcome.returnCode))
    ensures outcome.Raised? ==> a == Err(outcome.message)
  {
    match outcome
    case Finished(code, out, err) =>
      if code != 0 then Err(if err != [] then err else ProcessErrorText(task.command, code))
      else Ok(Trim(out, IsPySpace))
    case TimedOut => Err("Task timed out after " + TimeoutText(task.timeout) + "s")
    case Raised(msg) => Err(msg)
  }

  /** The outcome of attempt `k` of `task`, run in the directory the executor chooses. */
  function AttemptAt(ex: Executor, task: Task, dirExists: string -> bool,
                     run: (Option<string>, nat) -> RunOutcome, k: nat): Result<string, string> {
    Attempt(task, run(WorkingDir(ex, dirExists), k))
  }

  /** The retry loop as a function: the result once attempts `k`, `k + 1`, ...
      are made, `lastError` being the message of attempt `k - 1`. */
  function RunFrom(ex: Executor, task: Task, dirExists: string -> bool,
                   run: (Option<string>, nat) -> RunOutcome, k: nat, lastError: string): ExecutionResult
    decreases task.retryCount + 1 - k
  {
    if k > task.retryCount then
      ExecutionResult(task.name, Failed, "", lastError, 0.0, k)
    else
      match AttemptAt(ex, task, dirExists, run, k)
      case Ok(out) => ExecutionResult(task.name, Success, out, "", 0.0, k)
      case Err(msg) => RunFrom(ex, task, dirExists, run, k + 1, msg)
  }

  /** The number of attempts `execute` may make: `retry_count + 1`, or none
      when the count is negative. */
  function MaxAttempts(task: Task): nat {
    if task.retryCount >= 0 then task.retryCount + 1 else 0
  }

  /** `TaskExecutor.execute`. */
  method Execute(ex: Executor, task: Task, dirExists: string -> bool, run: (Option<string>, nat) -> RunOutcome)
    returns (r: ExecutionResult)
    ensures r == RunFrom(ex, task, dirExists, run, 0, "")
  {
    var retries := 0;
    var lastError := "";
    while retries <= task.retryCount
      invariant RunFrom(ex, task, dirExists, run, retries, lastError) == RunFrom(ex, task, dirExists, run, 0, "")
      decreases task.retryCount + 1 - retries
    {
      var outcome := run(WorkingDir(ex, dirExists), retries);
      match outcome
      case Finished(code, out, err) =>
        if code == 0 {
          return ExecutionResult(task.name, Success, Trim(out, IsPySpace), "", 0.0, retries);
        }
        lastError := if err != [] then err else ProcessErrorText(task.command, code);
        retries := retries + 1;
      case TimedOut =>
        lastError := "Task timed out after " + TimeoutText(task.timeout) + "s";
        retries := retries + 1;
      case Raised(msg) =>
        lastError := msg;
        retries := retries + 1;
    }
    return ExecutionResult(task.name, Failed, "", lastError, 0.0, retries);
  }

  /** From attempt `k` on, the loop reports the task's own name, never a
      time, and either SUCCESS or FAILED after at most `retry_count + 1`
      attempts in all. */
  lemma {:induction false} RunFromShape(ex: Executor, task: Task, dirExists: string -> bool,
                                        run: (Option<string>, nat) -> RunOutcome, k: nat, lastError: string)
    requires k <= MaxAttempts(task)
    ensures var r := RunFrom(ex, task, dirExists, run, k, lastError);
      && r.taskName == task.name && r.executionTime == 0.0
      && (r.status == Success || r.status == Failed)
      && k <= r.retriesUsed <= MaxAttempts(task)
    decreases task.retryCount + 1 - k
  {
    if k <= task.retryCount && AttemptAt(ex, task, dirExists, run, k).Err? {
      RunFromShape(ex, task, dirExists, run, k + 1, AttemptAt(ex, task, dirExists, run, k).error);
    }
  }

  /** A success from attempt `k` on is the first successful attempt: every
      attempt from `k` up to it failed, and it is within the bound. */
  lemma {:induction false} RunFromSuccess(ex: Executor, task: Task, dirExists: string -> bool,
                                          run: (Option<string>, nat) -> RunOutcome, k: nat, lastError: string)
    requires k <= MaxAttempts(task)
    requires RunFrom(ex, task, dirExists, run, k, lastError).status == Success
    ensures var r := RunFrom(ex, task, dirExists, run, k, lastError);
      && k <= r.retriesUsed < MaxAttempts(task)
      && AttemptAt(ex, task, dirExists, run, r.retriesUsed) == Ok(r.output) && r.error == ""
      && forall j :: k <= j < r.retriesUsed ==> AttemptAt(ex, task, dirExists, run, j).Err?
    decreases task.retryCount + 1 - k
  {
    if k <= task.retryCount && AttemptAt(ex, task, dirExists, run, k).Err? {
      RunFromSuccess(ex, task, dirExists, run, k + 1, AttemptAt(ex, task, dirExists, run, k).error);
    }
  }

  /** A failure from attempt `k` on means every remaining attempt failed;
      the recorded error is that of the last attempt (or `lastError` when no
      attempt is left). */
  lemma {:induction false} RunFromFailure(ex: Executor, task: Task, dirExists: string -> bool,
                                          run: (Option<string>, nat) -> RunOutcome, k: nat, lastError: string)
    requires k <= MaxAttempts(task)
    requires RunFrom(ex, task, dirExists, run, k, lastError).status == Failed
    ensures var r := RunFrom(ex, task, dirExists, run, k, lastError);
      && r.retriesUsed == MaxAttempts(task) && r.output == ""
      && (forall j :: k <= j < MaxAttempts(task) ==> AttemptAt(ex, task, dirExists, run, j).Err?)
      && r.error == (if k == MaxAttempts(task) then lastError
                     else AttemptAt(ex, task, dirExists, run, MaxAttempts(task) - 1).error)
    decreases task.retryCount + 1 - k
  {
    if k <= task.retryCount && AttemptAt(ex, task, dirExists, run, k).Err? {
      RunFromFailure(ex, task, dirExists, run, k + 1, AttemptAt(ex, task, dirExists, run, k).error);
    }
  }

  /** The result of `execute`: the first successful attempt wins and reports
      how many failed before it; when every one of the `retry_count + 1`
      attempts fails the task is FAILED with the last attempt's message. */
  lemma ExecuteSpec(ex: Executor, task: Task, dirExists: string -> bool, run: (Option<string>, nat) -> RunOutcome)
    ensures var r := RunFrom(ex, task, dirExists, run, 0, "");
      && r.taskName == task.name && r.executionTime == 0.0
      && (r.status == Success || r.status == Failed)
      && (r.status == Success <==> exists j :: 0 <= j < MaxAttempts(task) && AttemptAt(ex, task, dirExists, run, j).Ok?)
      && (r.status == Success ==>
            && 0 <= r.retriesUsed < MaxAttempts(task)
            && AttemptAt(ex, task, dirExists, run, r.retriesUsed) == Ok(r.output) && r.error == ""
            && forall j :: 0 <= j < r.retriesUsed ==> AttemptAt(ex, task, dirExists, run, j).Err?)
      && (r.status == Failed ==>
            && r.retriesUsed == MaxAttempts(task) && r.output == ""
            && r.error == (if r.retriesUsed == 0 then "" else AttemptAt(ex, task, dirExists, run, r.retriesUsed - 1).error))
  {
    var r := RunFrom(ex, task, dirExists, run, 0, "");
    RunFromShape(ex, task, dirExists, run, 0, "");
    if r.status == Success {
      RunFromSuccess(ex, task, dirExists, run, 0, "");
    } else {
      RunFromFailure(ex, task, dirExists, run, 0, "");
    }
  }

  /** Attempts made: the failed ones plus the successful one, never more than `retry_count + 1`. */
  lemma AttemptsBound(ex: Executor, task: Task, dirExists: string -> bool, run: (Option<string>, nat) -> RunOutcome)
    ensures var r := RunFrom(ex, task, dirExists, run, 0, "");
      r.retriesUsed + (if r.status == Success then 1 else 0) <= MaxAttempts(task)
  {
    ExecuteSpec(ex, task, dirExists, run);
  }

  /** `TaskExecutor.dry_run`: a successful result that names the command. */
  function DryRun(task: Task): (r: ExecutionResult)
    ensures Succeeded(r) && r.taskName == task.name
    ensures r.output == "[DRY RUN] Would execute: " + task.command
    ensures r.error == "" && r.retriesUsed == 0 && r.executionTime == 0.0
  {
    NewResult(task.name, Success).(output := "[DRY RUN] Would execute: " + task.command)
  }
}
