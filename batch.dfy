/** main: one batch from start to summary. Tasks are generated, executed in
    the order the pool completes them, queued, written to the ledger by the
    single writer, read back and summarised. The processes, the clock and the
    console are outside the model; their contributions are parameters. */
module Batch {
  import opened Records
  import opened Executor
  import opened Tasks
  import opened Workers
  import opened Ledger
  import opened Dispatcher
  import opened Stats

  /** The results hold every request number 1..n exactly once. */
  ghost predicate EachRequestOnce(rows: seq<TaskResult>, n: nat)
  {
    |rows| == n && OneToN(ResultIds(rows))
  }

  /** What the k-th execution to complete returns: the task at index order[k]
      of the generated batch, run under its fate. This is Dispatcher.Arrivals
      written over RunBatch's own inputs, because the generated tasks are local
      to RunBatch and its contract cannot name them; ArrivalsOfGenerated proves
      the two agree. */
  function Arrival(catalog: seq<string>, picks: seq<nat>, fates: seq<Fate>, order: seq<nat>, k: nat): Executed
    requires k < |order| && order[k] < |picks| && order[k] < |fates| && picks[order[k]] < |catalog|
  {
    Execute(Task(order[k] + 1, catalog[picks[order[k]]]), fates[order[k]])
  }

  /** When no execution escapes, the results in completion order carry each
      task's request number once. */
  lemma DeliveredOnce(tasks: seq<Task>, fates: seq<Fate>, order: seq<nat>)
    requires Numbered(tasks) && |fates| == |tasks| && IsPermutation(order, |tasks|)
    requires forall k :: 0 <= k < |order| ==> Arrivals(tasks, fates, order)[k].Returned?
    ensures EachRequestOnce(Results(Arrivals(tasks, fates, order)), |tasks|)
  {
    var n := |tasks|;
    var rows := Results(Arrivals(tasks, fates, order));
    assert forall k :: 0 <= k < n ==> rows[k].requestId == order[k] + 1;
    forall id | 1 <= id <= n
      ensures id in ResultIds(rows)
    {
      assert id - 1 in order;
      var k :| 0 <= k < n && order[k] == id - 1;
      assert ResultIds(rows)[k] == id;
    }
  }

  /** No execution escapes exactly when none of the arrivals is an escape. */
  lemma NoEscapeInArrivals(tasks: seq<Task>, fates: seq<Fate>, order: seq<nat>)
    requires |fates| == |tasks| && IsPermutation(order, |tasks|)
    ensures (forall k :: 0 <= k < |order| ==> Arrivals(tasks, fates, order)[k].Returned?) <==>
            (forall i :: 0 <= i < |tasks| ==> Execute(tasks[i], fates[i]).Returned?)
  {
    var arr := Arrivals(tasks, fates, order);
    if forall k :: 0 <= k < |order| ==> arr[k].Returned? {
      forall i | 0 <= i < |tasks|
        ensures Execute(tasks[i], fates[i]).Returned?
      {
        assert i in order;
        var k :| 0 <= k < |order| && order[k] == i;
        assert arr[k] == Execute(tasks[i], fates[i]);
      }
    }
  }

  /** The writer takes from the dispatcher's queue exactly the results enqueued. */
  lemma QueueDrainsTo(queue: seq<Item>, delivered: seq<TaskResult>, aborted: bool)
    requires queue == Enqueued(delivered) + (if aborted then [] else [Done])
    ensures Drained(queue) == delivered
  {
    DrainedEnqueued(delivered);
    if aborted {
      assert queue == Enqueued(delivered);
    }
  }

  /** The pool's arrivals over the generated batch are the Arrival values. */
  lemma ArrivalsOfGenerated(tasks: seq<Task>, catalog: seq<string>, picks: seq<nat>,
                            fates: seq<Fate>, order: seq<nat>)
    requires |picks| == |tasks| && |fates| == |tasks| && IsPermutation(order, |tasks|)
    requires forall i :: 0 <= i < |tasks| ==> picks[i] < |catalog| && tasks[i] == Task(i + 1, catalog[picks[i]])
    ensures forall k :: 0 <= k < |tasks| ==>
      Arrivals(tasks, fates, order)[k] == Arrival(catalog, picks, fates, order, k)
  {
  }

  /** A batch in which every execution returned: its results carry each
      request id once and the summary's four counts add up to the batch size. */
  lemma CompletedBatch(tasks: seq<Task>, fates: seq<Fate>, order: seq<nat>, totalTime: real)
    requires Numbered(tasks) && |fates| == |tasks| && IsPermutation(order, |tasks|)
    requires forall k :: 0 <= k < |order| ==> Arrivals(tasks, fates, order)[k].Returned?
    ensures var rows := Results(Arrivals(tasks, fates, order));
      var s := Summarize(rows, |tasks|, totalTime);
      EachRequestOnce(rows, |tasks|) &&
      s.successCount + s.errorCount + s.timeoutCount + s.exceptionCount == |tasks|
  {
    var rows := Results(Arrivals(tasks, fates, order));
    DeliveredOnce(tasks, fates, order);
    assert forall k :: 0 <= k < |rows| ==> IsKnownStatus(rows[k].status);
    CountsPartition(rows);
  }

  /** The ledger the writer leaves after the dispatcher delivered its first
      `completed` arrivals: the header, then one row per returned result in
      completion order; an aborted batch stops at the first escape, and a
      completed one holds every request id once with counts adding up to N. */
  lemma LedgerOfBatch(tasks: seq<Task>, catalog: seq<string>, picks: seq<nat>, fates: seq<Fate>,
                      order: seq<nat>, completed: nat, aborted: bool, lines: seq<Line>, totalTime: real)
    requires |picks| == |tasks| && |fates| == |tasks| && IsPermutation(order, |tasks|)
    requires forall i :: 0 <= i < |tasks| ==> picks[i] < |catalog| && tasks[i] == Task(i + 1, catalog[picks[i]])
    requires completed <= |tasks| && (aborted <==> completed < |tasks|)
    requires forall k :: 0 <= k < completed ==> Arrivals(tasks, fates, order)[k].Returned?
    requires aborted ==> Arrivals(tasks, fates, order)[completed].Escaped?
    requires lines == [HeaderLine] + Rows(Results(Arrivals(tasks, fates, order)[..completed]))
    ensures |lines| >= 1 && lines[0] == HeaderLine
    ensures ReadLedger(lines).Some?
    ensures var rows := ReadLedger(lines).value;
      && |rows| == completed
      && (forall k :: 0 <= k < |rows| ==> Arrival(catalog, picks, fates, order, k) == Returned(rows[k]))
      && (aborted ==> Arrival(catalog, picks, fates, order, |rows|).Escaped?)
    ensures !aborted ==>
      var s := Summarize(ReadLedger(lines).value, |tasks|, totalTime);
      && |lines| == |tasks| + 1
      && EachRequestOnce(ReadLedger(lines).value, |tasks|)
      && s.successCount + s.errorCount + s.timeoutCount + s.exceptionCount == |tasks|
  {
    var arr := Arrivals(tasks, fates, order);
    ArrivalsOfGenerated(tasks, catalog, picks, fates, order);
    ReadWritten(Results(arr[..completed]));
    if !aborted {
      assert arr[..completed] == arr;
      CompletedBatch(tasks, fates, order, totalTime);
    }
  }

  method RunBatch(ledger: LedgerFile, total: nat, catalog: seq<string>, picks: seq<nat>,
                  fates: seq<Fate>, order: seq<nat>, probe: CpuProbe, totalTime: real)
      returns (workers: nat, progress: seq<nat>, summary: Option<Summary>)
    requires |picks| == total
    requires forall i :: 0 <= i < total ==> picks[i] < |catalog|
    requires |fates| == total
    requires IsPermutation(order, total)
    modifies ledger
    ensures workers == WorkerCount(probe)
    // the batch reaches its summary exactly when no execution lets an exception escape
    ensures summary.Some? <==>
      forall i :: 0 <= i < total ==> Execute(Task(i + 1, catalog[picks[i]]), fates[i]).Returned?
    // the ledger is the header and the results returned, in completion order;
    // an aborted batch stops at the first execution that escaped
    ensures |ledger.lines| >= 1 && ledger.lines[0] == HeaderLine
    ensures ReadLedger(ledger.lines).Some?
    ensures var rows := ReadLedger(ledger.lines).value;
      && |rows| <= total
      && (forall k :: 0 <= k < |rows| ==> Arrival(catalog, picks, fates, order, k) == Returned(rows[k]))
      && (summary.None? ==> |rows| < total && Arrival(catalog, picks, fates, order, |rows|).Escaped?)
    ensures summary.Some? ==>
      && |ledger.lines| == total + 1
      && EachRequestOnce(ReadLedger(ledger.lines).value, total)
      && summary.value == Summarize(ReadLedger(ledger.lines).value, total, totalTime)
      && summary.value.successCount + summary.value.errorCount +
         summary.value.timeoutCount + summary.value.exceptionCount == total
      && progress == Milestones(total) && |progress| == total / ProgressEvery
  {
    workers := WorkerCount(probe);
    var tasks := GenerateTasks(total, catalog, picks);
    assert forall i :: 0 <= i < total ==> tasks[i] == Task(i + 1, catalog[picks[i]]);
    var queue, completed, aborted;
    queue, completed, progress, aborted := Dispatch(tasks, fates, order);
    QueueDrainsTo(queue, Results(Arrivals(tasks, fates, order)[..completed]), aborted);
    var taken, finished := ResultWriter(ledger, queue);
    NoEscapeInArrivals(tasks, fates, order);
    LedgerOfBatch(tasks, catalog, picks, fates, order, completed, aborted, ledger.lines, totalTime);
    if aborted {
      // the pool re-raises the escaped exception in main: no sentinel, no summary
      summary := None;
      return;
    }
    ProgressAtHundreds(total);
    var read := ReadLedger(ledger.lines);
    summary := Some(Summarize(read.value, total, totalTime));
  }

  /** When every command exits 0 in time and its artifact is written, every
      ledger row RunBatch leaves is a success with return code 0, so with
      Stats.AllSucceeded the success count is N and the other counts are 0. */
  lemma ExitZeroRowsSucceed(catalog: seq<string>, picks: seq<nat>, fates: seq<Fate>,
                            order: seq<nat>, rows: seq<TaskResult>)
    requires |picks| == |fates| && IsPermutation(order, |fates|)
    requires forall i :: 0 <= i < |picks| ==> picks[i] < |catalog|
    requires forall i :: 0 <= i < |fates| ==> fates[i].spawn == Completed(0) && fates[i].artifactOk
    requires |rows| <= |order|
    requires forall k :: 0 <= k < |rows| ==> Arrival(catalog, picks, fates, order, k) == Returned(rows[k])
    ensures forall k :: 0 <= k < |rows| ==> rows[k].status == Success && rows[k].returnCode == 0
  {
  }

  /** main as the harness runs it: the fixed catalog and a batch of 1000. When
      every execution returns, the summary accounts for all 1000 requests and
      every ledger row names a catalog command. */
  method RunHarness(ledger: LedgerFile, picks: seq<nat>, fates: seq<Fate>, order: seq<nat>,
                    probe: CpuProbe, totalTime: real)
      returns (workers: nat, progress: seq<nat>, summary: Option<Summary>)
    requires |picks| == TotalRequests
    requires forall i :: 0 <= i < TotalRequests ==> picks[i] < |Commands|
    requires |fates| == TotalRequests
    requires IsPermutation(order, TotalRequests)
    modifies ledger
    ensures workers == WorkerCount(probe)
    ensures ReadLedger(ledger.lines).Some?
    ensures forall k :: 0 <= k < |ReadLedger(ledger.lines).value| ==>
      ReadLedger(ledger.lines).value[k].command in Commands
    ensures summary.Some? ==>
      && |ReadLedger(ledger.lines).value| == TotalRequests
      && summary.value.totalRequests == TotalRequests
      && summary.value.successCount + summary.value.errorCount +
         summary.value.timeoutCount + summary.value.exceptionCount == TotalRequests
      && |progress| == 10
  {
    workers, progress, summary := RunBatch(ledger, TotalRequests, Commands, picks, fates, order, probe, totalTime);
    ghost var rows := ReadLedger(ledger.lines).value;
    forall k | 0 <= k < |rows|
      ensures rows[k].command in Commands
    {
      assert Arrival(Commands, picks, fates, order, k) == Returned(rows[k]);
    }
  }
}
