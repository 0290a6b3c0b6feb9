/** execute_command: runs one task and classifies what happened into a result.
    The subprocess, the clock and the artifact file are outside the model; what
    they did is given as a Fate and only the classification is modelled. */
module Executor {
  import opened Records

  /** How the spawned shell behaved, as execute_command observes it. */
  datatype Spawn =
    | Completed(code: int)  // communicate returned within the timeout with this return code
    | TimedOut              // communicate raised TimeoutExpired after 60 s; the child was killed and reaped
    | Raised                // Popen, communicate, kill or the reaping communicate raised

  /** Everything one call observes from outside: the child's behaviour, whether
      writing the per-task artifact succeeded on the normal or timeout path,
      whether writing it again inside the exception handler succeeded, the
      measured elapsed time and the completion timestamp. */
  datatype Fate = Fate(
    spawn: Spawn,
    artifactOk: bool,
    handlerArtifactOk: bool,
    elapsed: real,
    stamp: string)

  /** A call either returns a result or lets an exception escape to its caller. */
  datatype Executed = Returned(result: TaskResult) | Escaped

  /** The result reports the task it came from and the measured time and stamp. */
  predicate Describes(r: TaskResult, task: Task, fate: Fate)
  {
    r.requestId == task.requestId && r.command == task.command &&
    r.executionTime == fate.elapsed && r.timestamp == fate.stamp
  }

  /** True when control reaches the exception handler: something in the spawn,
      wait or kill raised, or the artifact write after it raised. */
  predicate HandlerRuns(fate: Fate)
  {
    fate.spawn.Raised? || !fate.artifactOk
  }

  function Execute(task: Task, fate: Fate): (e: Executed)
    // the only way out without a result is a failing write inside the handler
    ensures e.Escaped? <==> HandlerRuns(fate) && !fate.handlerArtifactOk
    ensures e.Returned? ==> Describes(e.result, task, fate) && IsKnownStatus(e.result.status)
    // forward: a run that completed in time reports its own code; success exactly on 0
    ensures fate.spawn.Completed? && fate.artifactOk ==>
      e.Returned? && e.result.returnCode == fate.spawn.code &&
      (e.result.status == Success <==> fate.spawn.code == 0) &&
      (e.result.status == Error <==> fate.spawn.code != 0)
    ensures fate.spawn.TimedOut? && fate.artifactOk ==>
      e.Returned? && e.result.status == Timeout
    // backward: the status tells which branch produced the result
    ensures e.Returned? && e.result.status == Success ==>
      fate.spawn == Completed(0) && fate.artifactOk && e.result.returnCode == 0
    ensures e.Returned? && e.result.status == Error ==>
      fate.spawn.Completed? && fate.spawn.code != 0 && fate.artifactOk &&
      e.result.returnCode == fate.spawn.code
    ensures e.Returned? && e.result.status == Timeout ==>
      fate.spawn == TimedOut && fate.artifactOk && e.result.returnCode == TimeoutCode
    ensures e.Returned? && e.result.status == Exception ==>
      HandlerRuns(fate) && e.result.returnCode == ExceptionCode
  {
    if !HandlerRuns(fate) then
      match fate.spawn
      case Completed(code) =>
        Returned(TaskResult(task.requestId, task.command, fate.elapsed,
                            if code == 0 then Success else Error, code, fate.stamp))
      case TimedOut =>
        Returned(TaskResult(task.requestId, task.command, fate.elapsed,
                            Timeout, TimeoutCode, fate.stamp))
    else if fate.handlerArtifactOk then
      Returned(TaskResult(task.requestId, task.command, fate.elapsed,
                          Exception, ExceptionCode, fate.stamp))
    else
      Escaped
  }

  /** The two sentinels differ, so a timeout and an exception are told apart
      by their return codes as well as by their statuses. */
  lemma SentinelsDiffer(task1: Task, fate1: Fate, task2: Task, fate2: Fate)
    requires Execute(task1, fate1).Returned? && Execute(task1, fate1).result.status == Timeout
    requires Execute(task2, fate2).Returned? && Execute(task2, fate2).result.status == Exception
    ensures Execute(task1, fate1).result.returnCode != Execute(task2, fate2).result.returnCode
  {
  }

  /** The return code alone does not identify a timeout: a shell that died of
      signal 1 reports -1, the timeout sentinel, with status "error". */
  lemma SignalledShellSharesTimeoutCode(task: Task, elapsed: real, stamp: string)
    ensures Execute(task, Fate(Completed(-1), true, true, elapsed, stamp)) ==
      Returned(TaskResult(task.requestId, task.command, elapsed, Error, TimeoutCode, stamp))
  {
  }
}
