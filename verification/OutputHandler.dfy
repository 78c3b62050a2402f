/**
The buffer between the statement client and the printer: rows are collected and printed in batches.
 */
module OutputHandler {
  import opened Sequences
  import opened Wrappers

  type Row = seq<string>

  const MAX_BUFFERED_ROWS := 10_000

  /** What the handler holds back and what the printer has been given, batch by batch. */
  datatype Output = Output(buffer: seq<Row>, printed: seq<seq<Row>>)

  /** Every row that has entered the handler, in the order of entry. */
  function Entered(out: Output): seq<Row> {
    Concat(out.printed) + out.buffer
  }

  ghost predicate GoodBatches(out: Output) {
    && |out.buffer| < MAX_BUFFERED_ROWS
    && (forall i :: 0 <= i < |out.printed| ==> 0 < |out.printed[i]| <= MAX_BUFFERED_ROWS)
  }

  function Flush(out: Output): Output {
    if out.buffer == [] then out else Output([], out.printed + [out.buffer])
  }

  function ProcessRow(out: Output, row: Row): Output {
    var added := out.(buffer := out.buffer + [row]);
    if |added.buffer| >= MAX_BUFFERED_ROWS then Flush(added) else added
  }

  function ProcessAll(out: Output, rows: seq<Row>): Output
    decreases |rows|
  {
    if rows == [] then out else ProcessAll(ProcessRow(out, rows[0]), rows[1..])
  }

  /** One turn of the loop over the client's pages: the page's rows, then a flush if the buffer is old. */
  function ProcessPage(out: Output, data: Option<seq<Row>>, tooOld: bool): Output {
    var fed := if data.Some? then ProcessAll(out, data.value) else out;
    if tooOld then Flush(fed) else fed
  }

  /** Flushing neither loses nor adds nor reorders rows, and leaves nothing behind. */
  lemma FlushKeepsRows(out: Output)
    requires |out.buffer| <= MAX_BUFFERED_ROWS && GoodBatches(out.(buffer := []))
    ensures Entered(Flush(out)) == Entered(out) && Flush(out).buffer == [] && GoodBatches(Flush(out))
  {
    ConcatSnoc(out.printed, out.buffer);
  }

  lemma RowEnters(out: Output, row: Row)
    requires GoodBatches(out)
    ensures Entered(ProcessRow(out, row)) == Entered(out) + [row] && GoodBatches(ProcessRow(out, row))
  {
    var added := out.(buffer := out.buffer + [row]);
    assert Entered(added) == Entered(out) + [row];
    FlushKeepsRows(added);
  }

  lemma {:induction false} RowsEnter(out: Output, rows: seq<Row>)
    requires GoodBatches(out)
    ensures Entered(ProcessAll(out, rows)) == Entered(out) + rows && GoodBatches(ProcessAll(out, rows))
    decreases |rows|
  {
    if rows == [] {
    } else {
      RowEnters(out, rows[0]);
      RowsEnter(ProcessRow(out, rows[0]), rows[1..]);
    }
  }

  lemma PageEnters(out: Output, data: Option<seq<Row>>, tooOld: bool)
    requires GoodBatches(out)
    ensures Entered(ProcessPage(out, data, tooOld)) == Entered(out) + (if data.Some? then data.value else [])
    ensures GoodBatches(ProcessPage(out, data, tooOld))
  {
    if data.Some? {
      RowsEnter(out, data.value);
    }
    FlushKeepsRows(if data.Some? then ProcessAll(out, data.value) else out);
  }

  /** Without age the printer is called for full batches only. */
  lemma {:induction false} FullBatches(out: Output, rows: seq<Row>)
    requires GoodBatches(out)
    ensures var after := ProcessAll(out, rows);
            && out.printed <= after.printed
            && (forall i :: |out.printed| <= i < |after.printed| ==> |after.printed[i]| == MAX_BUFFERED_ROWS)
    decreases |rows|
  {
    if rows == [] {
    } else {
      RowEnters(out, rows[0]);
      FullBatches(ProcessRow(out, rows[0]), rows[1..]);
    }
  }

  /** An old buffer is printed with the page; a young one is held back until it is full. */
  lemma AgeDecides(out: Output, data: Option<seq<Row>>)
    requires GoodBatches(out)
    ensures ProcessPage(out, data, true).buffer == []
    ensures var after := ProcessPage(out, data, false);
            && out.printed <= after.printed
            && (forall i :: |out.printed| <= i < |after.printed| ==> |after.printed[i]| == 10_000)
  {
    if data.Some? {
      FullBatches(out, data.value);
    }
  }

  class OutputHandler {
    var closed: bool
    var rowBuffer: seq<Row>
    /** The calls the printer has received. */
    var printed: seq<seq<Row>>
    /** How often the printer has been told to finish. */
    var finishes: nat

    constructor ()
      ensures Valid() && !closed && Out() == Output([], [])
    {
      closed, rowBuffer, printed, finishes := false, [], [], 0;
    }

    ghost predicate Valid()
      reads this
    {
      finishes == if closed then 1 else 0
    }

    function Out(): Output
      reads this
    {
      Output(rowBuffer, printed)
    }

    method FlushBuffer()
      modifies `rowBuffer, `printed
      ensures Out() == Flush(old(Out()))
    {
      if rowBuffer != [] {
        printed := printed + [rowBuffer];
        rowBuffer := [];
      }
    }

    method Process(row: Row)
      modifies `rowBuffer, `printed
      ensures Out() == ProcessRow(old(Out()), row)
    {
      rowBuffer := rowBuffer + [row];
      if |rowBuffer| >= MAX_BUFFERED_ROWS {
        FlushBuffer();
      }
    }

    /** The body of the loop over the client's pages. */
    method ProcessData(data: Option<seq<Row>>, tooOld: bool)
      modifies `rowBuffer, `printed
      ensures Out() == ProcessPage(old(Out()), data, tooOld)
    {
      if data.Some? {
        var i := 0;
        while i < |data.value|
          invariant i <= |data.value|
          invariant ProcessAll(Out(), data.value[i..]) == ProcessAll(old(Out()), data.value)
        {
          Process(data.value[i]);
          assert data.value[i..][1..] == data.value[i + 1..];
          i := i + 1;
        }
      }
      if tooOld {
        FlushBuffer();
      }
    }

    /** Only the first close prints what is left, and then has the printer finish: once, however often it is called. */
    method Close()
      requires Valid()
      modifies this
      ensures Valid() && closed && Out() == if old(closed) then old(Out()) else Flush(old(Out()))
    {
      if !closed {
        closed := true;
        FlushBuffer();
        finishes := finishes + 1;
      }
    }
  }
}
