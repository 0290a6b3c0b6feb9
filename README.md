# parallelreqcheck: a verified model of the load-test harness core

`parallelreqcheck.py` fires a batch of `cray rrs ...` CLI commands through a
process pool, classifies each run as `success`, `error`, `timeout` or
`exception`, streams every result through a queue to a single writer process
that appends it to a CSV ledger, then reads the ledger back and computes
summary statistics. This project models the sequential decision and
bookkeeping logic of that harness in Dafny and proves what it promises:

- `records.dfy` (`Records`): tasks, results, queue items, the four status
  strings and the two sentinel return codes.
- `executor.dfy` (`Executor`): `execute_command`'s classification. The child
  process, the clock and the artifact file are an injected `Fate`: how the
  spawn ended (`Completed(code)`, `TimedOut`, `Raised`), whether the artifact
  write on the normal or timeout path succeeded, whether the write inside the
  exception handler succeeded, the elapsed time and the timestamp.
- `tasks.dfy` (`Tasks`): `generate_tasks` as a loop; `random.choice` is an
  oracle sequence of catalog indices.
- `workers.dfy` (`Workers`): the pool size `min(2 * cpu, 50)` with 4 CPUs
  assumed on `NotImplementedError`.
- `ledger.dfy` (`Ledger`): the ledger file as a class holding its lines, the
  single-consumer `result_writer` loop draining the queue up to `DONE`, and
  the read-back of the ledger.
- `dispatch.dfy` (`Dispatcher`): the loop in `main` that enqueues each pool
  result, counts completions, logs progress every 100, and sends one `DONE`.
  Completion order is an input permutation.
- `stats.dfy` (`Stats`): the four counts, avg/min/max of execution times and
  the guarded request rate.
- `batch.dfy` (`Batch`): `main` end to end, proving that the ledger holds
  the results in completion order, and that a batch whose executions all
  return leaves exactly one row per request number 1..N and a summary whose
  four counts add up to N; `RunHarness` runs it with the fixed catalog and
  1000 requests.

Behaviour of the code worth knowing:

- The artifact write inside the `except Exception` handler
  (parallelreqcheck.py:107-110) is not itself guarded, so when it fails the
  exception leaves `execute_command`, although every other failure is turned
  into a result. The model has `Executed.Escaped` for this case. The pool re-raises it
  in `main`, so the dispatch loop stops, no `DONE` is sent and no summary is
  produced (`Dispatcher.Dispatch`, `Batch.RunBatch`).
- An artifact write failure on the normal or timeout path (:71, :92) is caught
  by the outer handler and reported as `exception`.
- Commands run with `shell=True`, so a missing executable is reported by the
  shell as an ordinary non-zero exit (127) and classified `error`; `exception`
  comes only from a failure to spawn, wait for or kill the shell, or to
  write the artifact file.
- The return code alone does not separate a timeout from a failed run: a shell
  killed by signal 1 has return code -1, the timeout sentinel, with status
  `error` (`Executor.SignalledShellSharesTimeoutCode`). The status field does
  separate them.
- `total_requests` in the summary is the batch size the harness was asked for,
  not the number of ledger rows; the counts add up to it only because the
  ledger holds one row per task (`Batch.RunBatch`).

The aggregator is a pure function of the ledger lines, so running it twice on
the same ledger gives the same summary by construction.

## Model

| member | source | states |
|---|---|---|
| `Executor.Execute` | parallelreqcheck.py:46-119 | a run that completes in time is `success` exactly when its code is 0 and `error` otherwise, reporting its own code; a timeout is `timeout` with -1; a raise or a failed artifact write is `exception` with -2; the status always is one of the four and tells back which branch produced it; the result carries the task's request id and command; the only way no result comes back is a failing write inside the handler |
| `Executor.SentinelsDiffer` | parallelreqcheck.py:97-119 | a timeout result and an exception result never share a return code |
| `Executor.SignalledShellSharesTimeoutCode` | parallelreqcheck.py:64-85 | a completed run with code -1 is reported as `error` with the same return code as a timeout |
| `Tasks.GenerateTasks` | parallelreqcheck.py:143-153 | exactly N tasks; task i has request id i+1 and the catalog command the oracle picked, so every command is a catalog member |
| `Tasks.NumberedIdsCover` | parallelreqcheck.py:146-152 | the request ids of the generated batch are exactly 1..N, each once |
| `Workers.WorkerCount` | parallelreqcheck.py:157-163 | the pool size is the least of twice the CPU count and 50: never above 50, 8 when CPU detection fails, at least 2 when a CPU is detected |
| `Workers.WorkerCountMonotone` | parallelreqcheck.py:163 | more CPUs never give fewer workers |
| `Workers.WorkerCountSaturates` | parallelreqcheck.py:163 | from 25 CPUs on the pool size is the cap 50 |
| `Ledger.RowOf` | parallelreqcheck.py:134-141 | the line written for a result has one field per header column; `Ledger.ParseRowOf` proves the fields are in the order request_id, command, execution_time, status, return_code, timestamp |
| `Ledger.ParseRow` | parallelreqcheck.py:208-216 | a line that parses is exactly the line the writer writes for the parsed result |
| `Ledger.ParseRows` | parallelreqcheck.py:208-216 | the data lines that parse are exactly the writer's lines for the parsed results |
| `Ledger.ReadLedger` | parallelreqcheck.py:205-216 | a readable non-empty ledger yields one result per line after the header |
| `Ledger.ParseRowOf` | parallelreqcheck.py:134-141 | reading back the line written for a result gives that result, fields in the order request_id, command, execution_time, status, return_code, timestamp |
| `Ledger.ReadWritten` | parallelreqcheck.py:123-141 | a ledger of the header and the writer's rows reads back as exactly the written results, in order |
| `Ledger.Drained` | parallelreqcheck.py:127-130 | the writer never takes more results than the queue holds |
| `Ledger.DrainedIsPrefix` | parallelreqcheck.py:127-130 | the results taken are the queue's items before the first `DONE`, in queue order, and `DONE` follows them when the queue holds one |
| `Ledger.LedgerFile.Rewrite` | parallelreqcheck.py:123-125 | opening for writing truncates the file to the one line written |
| `Ledger.LedgerFile.Append` | parallelreqcheck.py:132-141 | opening for appending adds one line at the end and keeps the rest |
| `Ledger.ResultWriter` | parallelreqcheck.py:121-141 | afterwards the ledger is the fixed header followed by one row per result dequeued before the first `DONE`, in dequeue order; nothing after `DONE` is written; it stops exactly when the queue holds a `DONE` |
| `Dispatcher.Dispatch` | parallelreqcheck.py:186-199 | each result the pool yields is enqueued once, in completion order, and counted; a single `DONE` follows when every execution returned; an escaping execution stops the loop with nothing more enqueued; progress is logged at exactly the completed counts 100, 200, ... |
| `Dispatcher.ProgressAtHundreds` | parallelreqcheck.py:193-196 | progress is logged N div 100 times for N results, at exactly the positive multiples of 100 up to N |
| `Dispatcher.DrainedEnqueued` | parallelreqcheck.py:190-199 | the writer fed the dispatcher's queue takes exactly the enqueued results, so the data-row count equals the number of results |
| `Stats.CountStatus` | parallelreqcheck.py:219-222 | a status count never exceeds the number of results |
| `Stats.CountsPartition` | parallelreqcheck.py:219-222 | the four counts add up to at most the number of results, and to exactly that number when every status is one of the four |
| `Stats.CountAll` | parallelreqcheck.py:219-222 | a count equals the number of results exactly when every result has that status |
| `Stats.CountNone` | parallelreqcheck.py:219-222 | a count is zero exactly when no result has that status |
| `Stats.MinOf` | parallelreqcheck.py:226 | the minimum is one of the times and no time is below it |
| `Stats.MaxOf` | parallelreqcheck.py:227 | the maximum is one of the times and no time is above it |
| `Stats.SumBounds` | parallelreqcheck.py:225 | the sum of N times lies between N times the minimum and N times the maximum |
| `Stats.Average` | parallelreqcheck.py:225 | the average is 0 for no times, and otherwise lies between the least and the greatest time |
| `Stats.Minimum` | parallelreqcheck.py:226 | the minimum is 0 for no times, and otherwise is one of the times with none below it |
| `Stats.Maximum` | parallelreqcheck.py:227 | the maximum is 0 for no times, and otherwise is one of the times with none above it |
| `Stats.RequestsPerSecond` | parallelreqcheck.py:233 | the rate is 0 when the total time is not positive, and positive when requests and time are |
| `Stats.Summarize` | parallelreqcheck.py:219-241 | the summary keeps the requested batch size and total time; its four counts add up to at most the number of results and to exactly that number when every status is one of the four; an empty ledger gives 0 for avg, min and max; otherwise min <= avg <= max; the rate is 0 when the total time is not positive |
| `Stats.AllSucceeded` | parallelreqcheck.py:219-233 | when every result succeeded, the success count is the number of results, the other three counts are 0, and the rate is positive once requests and time are |
| `Stats.SummaryTimes` | parallelreqcheck.py:224-227 | the summary's min and max bound every ledger time and are attained, and the average lies between them |
| `Batch.DeliveredOnce` | parallelreqcheck.py:186-191 | when no execution escapes, the results in completion order carry every request id 1..N exactly once |
| `Batch.NoEscapeInArrivals` | parallelreqcheck.py:189 | no delivered execution escapes exactly when no task's execution escapes |
| `Batch.LedgerOfBatch` | parallelreqcheck.py:186-212 | the ledger the writer leaves holds the header and then, in completion order, exactly the results that returned before the first escape; when nothing escaped it has N+1 lines, each request id once, and counts adding up to N |
| `Batch.CompletedBatch` | parallelreqcheck.py:186-222 | when every execution returned, the delivered results carry each request id 1..N once and the four summary counts add up to N |
| `Batch.RunBatch` | parallelreqcheck.py:155-241 | the batch reaches a summary exactly when no execution escapes; the ledger is the header followed by the results in completion order, row k being what the k-th completed execution returned; with a summary there are N rows holding each request id 1..N once, the four counts add up to N and progress was logged N div 100 times; an aborted batch's rows stop right before the first execution that escaped |
| `Batch.ExitZeroRowsSucceed` | parallelreqcheck.py:64-85 | when every command exits 0 in time, every ledger row of the batch is a success with return code 0 |
| `Batch.RunHarness` | parallelreqcheck.py:11-29 | run with the fixed 16-command catalog and 1000 requests, every ledger row names a catalog command, and a completed batch accounts for all 1000 requests with progress logged 10 times |

## Left out

- Process spawning, `communicate` with its 60-second timeout, kill and reap
  (parallelreqcheck.py:55-64, 88-89): the outcome is the `Spawn` input.
- `multiprocessing.Pool`, `imap_unordered`, the manager queue and the writer
  process (:172-200): completion order is a permutation given as input, the
  queue is a sequence, and the writer runs after the dispatcher over the
  finished queue; concurrency bounds (at most W running executions) are not
  modelled.
- The per-task artifact files (:71-76, 92-95, 107-110): only whether each
  write succeeds is modelled; their contents are not.
- `log_message` and console output (:40-44, 165-169, 247-265); progress lines
  are modelled as the list of completed counts at which they are logged. The
  console line at :257 divides by the total time without the guard of :233;
  it is display only.
- CSV quoting and text conversion (:123-141, 206-216): a ledger line is a
  sequence of typed fields, and the reader's lookups by column name are
  modelled by position, which agrees with them because the header is the
  fixed one the writer writes; a ledger with any other first line reads as
  unreadable.
- Output directory creation (:33-34) and the JSON summary dump (:243-244).
- Wall-clock times and `datetime` timestamps (:52, 68, 84, 91, 106, 183, 202):
  opaque inputs. Each execution has one elapsed time, whichever clock reading
  applies on the branch taken.
- Floating point: times and rates are real numbers, so rounding in the sum,
  the average and the rate is not modelled.
- Stats.Average: min <= avg <= max is proved for real numbers only; in binary64
  it can fail (three times of 0.1 average to 0.10000000000000002, above the
  maximum 0.1).
- Tasks.GenerateTasks: the count is a natural number; Python's `range` over a
  negative count gives no tasks, which the harness never asks for (it passes
  1000).
- Batch.RunBatch: on the abort path the model's writer takes every result
  delivered before the escape. The program does not wait for the writer then:
  when `main` raises, the manager is shut down at interpreter exit and the
  writer's `get` fails, so the real ledger may hold only a prefix of those
  results.
- Exceptions that are not `Exception` subclasses (a keyboard interrupt) and
  failures to open the ledger itself are not modelled.
- `json_to_toml.py` and `testformat.py`: wrappers around `tomlkit`, the
  `unicode_escape` codec and `textwrap`, with nothing of their own to verify.
