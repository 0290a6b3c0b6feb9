/** The summary computed from the ledger's results once the writer is done:
    the four status counts, the execution-time average, minimum and maximum,
    and the request rate. Times are real numbers; float rounding is outside
    the model. */
module Stats {
  import opened Records

  datatype Summary = Summary(
    totalRequests: int,
    totalTimeSeconds: real,
    requestsPerSecond: real,
    successCount: nat,
    errorCount: nat,
    timeoutCount: nat,
    exceptionCount: nat,
    avgExecutionTime: real,
    minExecutionTime: real,
    maxExecutionTime: real)

  /** How many results carry the given status. */
  function CountStatus(rows: seq<TaskResult>, status: string): (c: nat)
    ensures c <= |rows|
  {
    if rows == [] then 0
    else (if rows[0].status == status then 1 else 0) + CountStatus(rows[1..], status)
  }

  function Times(rows: seq<TaskResult>): (ts: seq<real>)
    ensures |ts| == |rows|
  {
    seq(|rows|, k requires 0 <= k < |rows| => rows[k].executionTime)
  }

  function Sum(ts: seq<real>): real
  {
    if ts == [] then 0.0 else ts[0] + Sum(ts[1..])
  }

  function MinOf(ts: seq<real>): (m: real)
    requires ts != []
    ensures m in ts
    ensures forall k :: 0 <= k < |ts| ==> m <= ts[k]
  {
    if |ts| == 1 then ts[0]
    else
      var rest := MinOf(ts[1..]);
      if ts[0] <= rest then ts[0] else rest
  }

  function MaxOf(ts: seq<real>): (m: real)
    requires ts != []
    ensures m in ts
    ensures forall k :: 0 <= k < |ts| ==> ts[k] <= m
  {
    if |ts| == 1 then ts[0]
    else
      var rest := MaxOf(ts[1..]);
      if ts[0] >= rest then ts[0] else rest
  }

  /** The mean time, 0 for no times; it lies between the least and the greatest. */
  function Average(ts: seq<real>): (a: real)
    ensures ts == [] ==> a == 0.0
    ensures ts != [] ==> MinOf(ts) <= a <= MaxOf(ts)
  {
    if ts == [] then 0.0
    else
      SumBounds(ts);
      DivideBounds(Sum(ts), |ts|, MinOf(ts), MaxOf(ts));
      Sum(ts) / (|ts| as real)
  }

  /** The least time, 0 for no times. */
  function Minimum(ts: seq<real>): (m: real)
    ensures ts == [] ==> m == 0.0
    ensures ts != [] ==> m in ts && forall k :: 0 <= k < |ts| ==> m <= ts[k]
  {
    if ts == [] then 0.0 else MinOf(ts)
  }

  /** The greatest time, 0 for no times. */
  function Maximum(ts: seq<real>): (m: real)
    ensures ts == [] ==> m == 0.0
    ensures ts != [] ==> m in ts && forall k :: 0 <= k < |ts| ==> ts[k] <= m
  {
    if ts == [] then 0.0 else MaxOf(ts)
  }

  /** The request rate, guarded against a non-positive elapsed time. */
  function RequestsPerSecond(totalRequests: int, totalTime: real): (rate: real)
    ensures totalTime <= 0.0 ==> rate == 0.0
    ensures totalTime > 0.0 && totalRequests > 0 ==> rate > 0.0
  {
    if totalTime > 0.0 then (totalRequests as real) / totalTime else 0.0
  }

  /** The summary of a ledger's results: each result counted under at most one
      status, zero time figures for an empty ledger, otherwise an average
      between the minimum and the maximum, and a guarded rate. */
  function Summarize(rows: seq<TaskResult>, totalRequests: int, totalTime: real): (s: Summary)
    ensures s.totalRequests == totalRequests && s.totalTimeSeconds == totalTime
    ensures s.successCount + s.errorCount + s.timeoutCount + s.exceptionCount <= |rows|
    ensures (forall k :: 0 <= k < |rows| ==> IsKnownStatus(rows[k].status)) ==>
      s.successCount + s.errorCount + s.timeoutCount + s.exceptionCount == |rows|
    ensures rows == [] ==>
      s.avgExecutionTime == 0.0 && s.minExecutionTime == 0.0 && s.maxExecutionTime == 0.0
    ensures rows != [] ==> s.minExecutionTime <= s.avgExecutionTime <= s.maxExecutionTime
    ensures totalTime <= 0.0 ==> s.requestsPerSecond == 0.0
  {
    var ts := Times(rows);
    CountsPartition(rows);
    Summary(
      totalRequests, totalTime, RequestsPerSecond(totalRequests, totalTime),
      CountStatus(rows, Success), CountStatus(rows, Error),
      CountStatus(rows, Timeout), CountStatus(rows, Exception),
      Average(ts), Minimum(ts), Maximum(ts))
  }

  /** Each result is counted under at most one status; when every status is one
      of the four, the four counts add up to the number of results. */
  lemma {:induction false} CountsPartition(rows: seq<TaskResult>)
    ensures CountStatus(rows, Success) + CountStatus(rows, Error) +
            CountStatus(rows, Timeout) + CountStatus(rows, Exception) <= |rows|
    ensures (forall k :: 0 <= k < |rows| ==> IsKnownStatus(rows[k].status)) ==>
            CountStatus(rows, Success) + CountStatus(rows, Error) +
            CountStatus(rows, Timeout) + CountStatus(rows, Exception) == |rows|
  {
    if rows != [] {
      CountsPartition(rows[1..]);
    }
  }

  /** A count is the whole list exactly when every result has that status. */
  lemma {:induction false} CountAll(rows: seq<TaskResult>, status: string)
    ensures CountStatus(rows, status) == |rows| <==> forall k :: 0 <= k < |rows| ==> rows[k].status == status
  {
    if rows != [] {
      CountAll(rows[1..], status);
      assert forall k :: 1 <= k < |rows| ==> rows[k] == rows[1..][k - 1];
    }
  }

  /** A count is zero exactly when no result has that status. */
  lemma {:induction false} CountNone(rows: seq<TaskResult>, status: string)
    ensures CountStatus(rows, status) == 0 <==> forall k :: 0 <= k < |rows| ==> rows[k].status != status
  {
    if rows != [] {
      CountNone(rows[1..], status);
      assert forall k :: 1 <= k < |rows| ==> rows[k] == rows[1..][k - 1];
    }
  }

  /** k copies of x added up: k * x without a multiplication. */
  function Scaled(k: nat, x: real): real
  {
    if k == 0 then 0.0 else x + Scaled(k - 1, x)
  }

  lemma Distribute(a: real, x: real)
    ensures x + a * x == (a + 1.0) * x
  {
  }

  lemma {:induction false} ScaledIsProduct(k: nat, x: real)
    ensures Scaled(k, x) == (k as real) * x
  {
    if k > 0 {
      var a := (k - 1) as real;
      ScaledIsProduct(k - 1, x);
      Distribute(a, x);
      assert (k as real) == a + 1.0;
    }
  }

  lemma {:induction false} ScaledMonotone(k: nat, x: real, y: real)
    requires x <= y
    ensures Scaled(k, x) <= Scaled(k, y)
  {
    if k > 0 {
      ScaledMonotone(k - 1, x, y);
    }
  }

  /** The sum of n times lies between n copies of the minimum and n copies of the maximum. */
  lemma {:induction false} SumBounds(ts: seq<real>)
    requires ts != []
    ensures Scaled(|ts|, MinOf(ts)) <= Sum(ts) <= Scaled(|ts|, MaxOf(ts))
  {
    if |ts| == 1 {
      assert ts[1..] == [];
    } else {
      var rest := ts[1..];
      SumBounds(rest);
      assert MinOf(ts) <= ts[0] <= MaxOf(ts);
      assert MinOf(ts) <= MinOf(rest) && MaxOf(rest) <= MaxOf(ts);
      ScaledMonotone(|rest|, MinOf(ts), MinOf(rest));
      ScaledMonotone(|rest|, MaxOf(rest), MaxOf(ts));
      assert Sum(ts) == ts[0] + Sum(rest);
      assert Scaled(|ts|, MinOf(ts)) == MinOf(ts) + Scaled(|rest|, MinOf(ts));
      assert Scaled(|ts|, MaxOf(ts)) == MaxOf(ts) + Scaled(|rest|, MaxOf(ts));
    }
  }

  /** Dividing both sides of k copies of lo <= s <= k copies of hi by k. */
  lemma DivideBounds(s: real, k: nat, lo: real, hi: real)
    requires k > 0
    requires Scaled(k, lo) <= s <= Scaled(k, hi)
    ensures lo <= s / (k as real) <= hi
  {
    ScaledIsProduct(k, lo);
    ScaledIsProduct(k, hi);
    var n := k as real;
    var q := s / n;
    assert q * n == s;
  }



  /** A batch in which every result succeeded: the success count is the number
      of results, the other counts are zero, and with time elapsed the rate is
      positive. */
  lemma AllSucceeded(rows: seq<TaskResult>, totalRequests: int, totalTime: real)
    requires forall k :: 0 <= k < |rows| ==> rows[k].status == Success
    ensures var s := Summarize(rows, totalRequests, totalTime);
      s.successCount == |rows| && s.errorCount == 0 && s.timeoutCount == 0 && s.exceptionCount == 0 &&
      (totalRequests > 0 && totalTime > 0.0 ==> s.requestsPerSecond > 0.0)
  {
    CountAll(rows, Success);
    CountNone(rows, Error);
    CountNone(rows, Timeout);
    CountNone(rows, Exception);
  }

  /** The summary's time figures are bounds and an average of the ledger's
      execution times. */
  lemma SummaryTimes(rows: seq<TaskResult>, totalRequests: int, totalTime: real)
    requires rows != []
    ensures var s := Summarize(rows, totalRequests, totalTime);
      s.minExecutionTime <= s.avgExecutionTime <= s.maxExecutionTime &&
      (forall k :: 0 <= k < |rows| ==> s.minExecutionTime <= rows[k].executionTime <= s.maxExecutionTime) &&
      (exists k :: 0 <= k < |rows| && rows[k].executionTime == s.minExecutionTime) &&
      (exists k :: 0 <= k < |rows| && rows[k].executionTime == s.maxExecutionTime)
  {
    var ts := Times(rows);
    var s := Summarize(rows, totalRequests, totalTime);
    assert s.minExecutionTime == MinOf(ts) && s.maxExecutionTime == MaxOf(ts);
    assert s.avgExecutionTime == Average(ts);
    assert forall k :: 0 <= k < |rows| ==> ts[k] == rows[k].executionTime;
    var i :| 0 <= i < |ts| && ts[i] == MinOf(ts);
    var j :| 0 <= j < |ts| && ts[j] == MaxOf(ts);
  }
}
