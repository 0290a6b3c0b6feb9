/** The results ledger: a header line and one line per result, written by the
    single consumer result_writer and read back by the statistics step. CSV
    quoting is outside the model: a line is a sequence of typed fields. */
module Ledger {
  import opened Records

  datatype Field = IntField(i: int) | RealField(r: real) | TextField(s: string)

  type Line = seq<Field>

  /** The fixed header, in column order. */
  const HeaderLine: Line := [
    TextField("request_id"), TextField("command"), TextField("execution_time"),
    TextField("status"), TextField("return_code"), TextField("timestamp")
  ]

  /** The line written for one result. */
  function RowOf(r: TaskResult): (line: Line)
    ensures |line| == |HeaderLine|
  {
    [IntField(r.requestId), TextField(r.command), RealField(r.executionTime),
     TextField(r.status), IntField(r.returnCode), TextField(r.timestamp)]
  }

  function Rows(rs: seq<TaskResult>): (lines: seq<Line>)
    ensures |lines| == |rs|
    ensures forall k :: 0 <= k < |rs| ==> lines[k] == RowOf(rs[k])
  {
    seq(|rs|, k requires 0 <= k < |rs| => RowOf(rs[k]))
  }

  /** Reads one data line back into a result, each field converted to its type;
      a field of the wrong kind makes the conversion fail. */
  function ParseRow(line: Line): (r: Option<TaskResult>)
    ensures r.Some? ==> RowOf(r.value) == line
  {
    if |line| == 6 && line[0].IntField? && line[1].TextField? && line[2].RealField? &&
       line[3].TextField? && line[4].IntField? && line[5].TextField?
    then Some(TaskResult(line[0].i, line[1].s, line[2].r, line[3].s, line[4].i, line[5].s))
    else None
  }

  function ParseRows(lines: seq<Line>): (r: Option<seq<TaskResult>>)
    ensures r.Some? ==> Rows(r.value) == lines
  {
    if lines == [] then Some([])
    else match (ParseRow(lines[0]), ParseRows(lines[1..]))
      case (Some(first), Some(rest)) => Some([first] + rest)
      case _ => None
  }

  /** The reader: the first line names the columns and every further line is a
      result. An empty file holds no results. */
  function ReadLedger(lines: seq<Line>): (r: Option<seq<TaskResult>>)
    ensures r.Some? && lines != [] ==> |r.value| == |lines| - 1
  {
    if lines == [] then Some([])
    else if lines[0] != HeaderLine then None
    else ParseRows(lines[1..])
  }

  lemma ParseRowOf(r: TaskResult)
    ensures ParseRow(RowOf(r)) == Some(r)
  {
  }

  /** What the writer writes, the reader reads back unchanged. */
  lemma {:induction false} ReadWritten(rs: seq<TaskResult>)
    ensures ReadLedger([HeaderLine] + Rows(rs)) == Some(rs)
  {
    ParseRowsOfRows(rs);
    assert ([HeaderLine] + Rows(rs))[1..] == Rows(rs);
  }

  lemma {:induction false} ParseRowsOfRows(rs: seq<TaskResult>)
    ensures ParseRows(Rows(rs)) == Some(rs)
  {
    if rs != [] {
      ParseRowOf(rs[0]);
      assert Rows(rs)[1..] == Rows(rs[1..]);
      ParseRowsOfRows(rs[1..]);
      assert [rs[0]] + rs[1..] == rs;
    }
  }

  /** The results a consumer takes from the queue before the first end-of-batch
      sentinel; everything after the sentinel is never taken. */
  function Drained(queue: seq<Item>): (rs: seq<TaskResult>)
    ensures |rs| <= |queue|
  {
    if queue == [] || queue[0] == Done then []
    else [queue[0].result] + Drained(queue[1..])
  }

  /** The drained results are the queue's items up to the first sentinel, in
      queue order, and the sentinel (if any) comes right after them. */
  lemma {:induction false} DrainedIsPrefix(queue: seq<Item>)
    ensures forall k :: 0 <= k < |Drained(queue)| ==> queue[k] == Res(Drained(queue)[k])
    ensures |Drained(queue)| < |queue| ==> queue[|Drained(queue)|] == Done
    ensures Done in queue <==> |Drained(queue)| < |queue|
  {
    if queue != [] && queue[0] != Done {
      DrainedIsPrefix(queue[1..]);
      assert queue == [queue[0]] + queue[1..];
    }
  }

  lemma RowsSnoc(rs: seq<TaskResult>, r: TaskResult)
    ensures Rows(rs + [r]) == Rows(rs) + [RowOf(r)]
  {
  }

  /** Taking one more item from position i of the queue. */
  lemma DrainedStep(queue: seq<Item>, i: nat)
    requires i < |queue|
    ensures queue[..i + 1] == queue[..i] + [queue[i]]
    ensures queue[i] == Done ==> Drained(queue[i..]) == []
    ensures queue[i] != Done ==> Drained(queue[i..]) == [queue[i].result] + Drained(queue[i + 1..])
  {
  }

  /** The ledger file. Opening it for writing truncates it; opening it for
      appending adds at the end. */
  class LedgerFile {
    var lines: seq<Line>

    constructor (existing: seq<Line>)
      ensures lines == existing
    {
      lines := existing;
    }

    /** Open with "w" and write one line. */
    method Rewrite(line: Line)
      modifies this
      ensures lines == [line]
    {
      lines := [line];
    }

    /** Open with "a" and write one line. */
    method Append(line: Line)
      modifies this
      ensures lines == old(lines) + [line]
    {
      lines := lines + [line];
    }
  }

  /** result_writer: truncate the ledger, write the header, then take items
      from the queue one at a time, appending a line per result, until the
      sentinel. When the queue holds no sentinel the writer takes every item
      and is still waiting for the next one when the model stops. */
  method ResultWriter(file: LedgerFile, queue: seq<Item>) returns (taken: nat, finished: bool)
    modifies file
    ensures file.lines == [HeaderLine] + Rows(Drained(queue))
    ensures finished <==> Done in queue
    ensures taken == if finished then |Drained(queue)| + 1 else |queue|
  {
    file.Rewrite(HeaderLine);
    ghost var written: seq<TaskResult> := [];
    taken := 0;
    while taken < |queue| && queue[taken] != Done
      invariant taken <= |queue|
      invariant file.lines == [HeaderLine] + Rows(written)
      invariant written + Drained(queue[taken..]) == Drained(queue)
      invariant Done !in queue[..taken] && |written| == taken
    {
      var item := queue[taken];
      DrainedStep(queue, taken);
      file.Append(RowOf(item.result));
      RowsSnoc(written, item.result);
      written := written + [item.result];
      taken := taken + 1;
    }
    finished := taken < |queue|;
    if finished {
      // the sentinel: stop without writing it
      DrainedStep(queue, taken);
      taken := taken + 1;
    } else {
      assert queue[..taken] == queue;
    }
  }
}
