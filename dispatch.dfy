/** The dispatch loop of main: every result the pool yields, in completion
    order, is put on the result queue and counted; progress is logged every
    hundred completions; one end-of-batch sentinel follows the last result.
    The pool itself is outside the model: completion order is an input. */
module Dispatcher {
  import opened Records
  import opened Executor
  import opened Ledger

  const ProgressEvery: nat := 100

  /** order lists every task index exactly once: the pool delivers each task's
      result once, in some order. */
  ghost predicate IsPermutation(order: seq<nat>, n: nat)
  {
    && |order| == n
    && (forall k :: 0 <= k < n ==> order[k] < n)
    && (forall j, k :: 0 <= j < k < n ==> order[j] != order[k])
    && (forall i :: 0 <= i < n ==> i in order)
  }

  /** What the pool yields, in completion order. */
  function Arrivals(tasks: seq<Task>, fates: seq<Fate>, order: seq<nat>): seq<Executed>
    requires |fates| == |tasks|
    requires forall k :: 0 <= k < |order| ==> order[k] < |tasks|
  {
    seq(|order|, k requires 0 <= k < |order| => Execute(tasks[order[k]], fates[order[k]]))
  }

  function Results(arr: seq<Executed>): seq<TaskResult>
    requires forall k :: 0 <= k < |arr| ==> arr[k].Returned?
  {
    seq(|arr|, k requires 0 <= k < |arr| => arr[k].result)
  }

  function Enqueued(rs: seq<TaskResult>): seq<Item>
  {
    seq(|rs|, k requires 0 <= k < |rs| => Res(rs[k]))
  }

  /** The completed counts at which progress is logged. */
  function Milestones(completed: nat): seq<nat>
  {
    seq(completed / ProgressEvery, j => ProgressEvery * (j + 1))
  }

  method Dispatch(tasks: seq<Task>, fates: seq<Fate>, order: seq<nat>)
      returns (queue: seq<Item>, completed: nat, progress: seq<nat>, aborted: bool)
    requires |fates| == |tasks|
    requires IsPermutation(order, |tasks|)
    ensures completed <= |tasks|
    ensures forall k :: 0 <= k < completed ==> Arrivals(tasks, fates, order)[k].Returned?
    // an escaping execution ends the loop: the pool re-raises it in main
    ensures aborted <==> completed < |tasks|
    ensures aborted ==> Arrivals(tasks, fates, order)[completed].Escaped?
    ensures queue == Enqueued(Results(Arrivals(tasks, fates, order)[..completed])) +
                     (if aborted then [] else [Done])
    ensures progress == Milestones(completed)
  {
    ghost var arr := Arrivals(tasks, fates, order);
    queue, completed, progress, aborted := [], 0, [], false;
    while completed < |order|
      invariant completed <= |order|
      invariant forall k :: 0 <= k < completed ==> arr[k].Returned?
      invariant queue == Enqueued(Results(arr[..completed]))
      invariant progress == Milestones(completed)
    {
      var e := Execute(tasks[order[completed]], fates[order[completed]]);
      if e.Escaped? {
        aborted := true;
        break;
      }
      EnqueuedSnoc(arr[..completed], e.result);
      assert arr[..completed + 1] == arr[..completed] + [e];
      queue := queue + [Res(e.result)];
      completed := completed + 1;
      MilestonesStep(completed);
      if completed % ProgressEvery == 0 {
        progress := progress + [completed];
      }
    }
    if !aborted {
      queue := queue + [Done];
    }
  }

  lemma EnqueuedSnoc(arr: seq<Executed>, r: TaskResult)
    requires forall k :: 0 <= k < |arr| ==> arr[k].Returned?
    ensures Enqueued(Results(arr + [Returned(r)])) == Enqueued(Results(arr)) + [Res(r)]
  {
  }

  lemma MilestonesStep(n: nat)
    requires n >= 1
    ensures n % ProgressEvery == 0 ==> Milestones(n) == Milestones(n - 1) + [n]
    ensures n % ProgressEvery != 0 ==> Milestones(n) == Milestones(n - 1)
  {
  }

  /** Progress is logged exactly at the positive multiples of a hundred up to
      the completed count, so N div 100 times. */
  lemma ProgressAtHundreds(n: nat)
    ensures |Milestones(n)| == n / ProgressEvery
    ensures forall c :: c in Milestones(n) <==> 1 <= c <= n && c % ProgressEvery == 0
  {
    forall c | 1 <= c <= n && c % ProgressEvery == 0
      ensures c in Milestones(n)
    {
      var j := c / ProgressEvery - 1;
      assert ProgressEvery * (j + 1) == c;
      assert c / ProgressEvery <= n / ProgressEvery;
      assert Milestones(n)[j] == c;
    }
  }

  /** The writer, fed this queue, takes exactly the enqueued results. */
  lemma {:induction false} DrainedEnqueued(rs: seq<TaskResult>)
    ensures Drained(Enqueued(rs) + [Done]) == rs
    ensures Drained(Enqueued(rs)) == rs
  {
    if rs != [] {
      DrainedEnqueued(rs[1..]);
      assert (Enqueued(rs) + [Done])[1..] == Enqueued(rs[1..]) + [Done];
      assert Enqueued(rs)[1..] == Enqueued(rs[1..]);
      assert [rs[0]] + rs[1..] == rs;
    }
  }
}
