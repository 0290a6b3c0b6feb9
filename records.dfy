/** The records that the load-testing harness passes between its roles:
    a task, the result of running it, and the items of the result queue. */
module Records {

  datatype Option<T> = None | Some(value: T)

  /** One unit of work: a sequential request number and the shell command line to run. */
  datatype Task = Task(requestId: int, command: string)

  /** What one execution reports. The status is kept as the text the ledger stores,
      because the statistics compare it as text. */
  datatype TaskResult = TaskResult(
    requestId: int,
    command: string,
    executionTime: real,
    status: string,
    returnCode: int,
    timestamp: string)

  /** An element of the result queue between the dispatcher and the ledger writer:
      a result, or the end-of-batch sentinel. */
  datatype Item = Res(result: TaskResult) | Done

  const Success: string := "success"
  const Error: string := "error"
  const Timeout: string := "timeout"
  const Exception: string := "exception"

  /** Return codes the executor reports in place of an exit code. */
  const TimeoutCode: int := -1
  const ExceptionCode: int := -2

  /** The identifiers are exactly 1..N, each once, where N is their number. */
  ghost predicate OneToN(ids: seq<int>)
  {
    && (forall k :: 0 <= k < |ids| ==> 1 <= ids[k] <= |ids|)
    && (forall j, k :: 0 <= j < k < |ids| ==> ids[j] != ids[k])
    && (forall id :: 1 <= id <= |ids| ==> id in ids)
  }

  function TaskIds(tasks: seq<Task>): seq<int>
  {
    seq(|tasks|, k requires 0 <= k < |tasks| => tasks[k].requestId)
  }

  function ResultIds(rows: seq<TaskResult>): seq<int>
  {
    seq(|rows|, k requires 0 <= k < |rows| => rows[k].requestId)
  }

  predicate IsKnownStatus(s: string)
  {
    s == Success || s == Error || s == Timeout || s == Exception
  }
}
