/**
 * What one ingest call is expected to do, as a trace of observable events:
 * the progress messages it prints, the connection it opens and every call
 * that hands a batch of rows to the INSERT builder, with the statement that
 * call executes. The ingest method of the service is proved to produce
 * exactly `IngestTrace`; the lemmas here state what that trace guarantees.
 */
module Ingest {
  import opened Text
  import opened RowNormalizer
  import opened InsertBuilder

  datatype Event =
    | ProcessingFile(path: string)            // "Processing <path>"
    | OpenConnection(url: string)             // the driver is asked for a connection to `url`
    | ProcessingBatch(total: int)             // "Processing batch <total>"
    | ProcessingRemaining(size: int)          // "Processing remaining <size>"
    | Insert(rows: seq<Row>, sql: string)     // one batch handed over and its statement executed
    | Processed(total: int)                   // "Processed <total> rows."

  /**
   * The rows the loop appends for `lines`: every line but the first when
   * `ignoreFirstRow` is set, every line otherwise, each normalized.
   */
  function Rows(lines: seq<string>, delimiter: char, ignoreFirstRow: bool, enforceDoubleQuotes: bool): (rows: seq<Row>)
    ensures |rows| == if ignoreFirstRow && |lines| > 0 then |lines| - 1 else |lines|
    decreases |lines|
  {
    if |lines| == 0 || (ignoreFirstRow && |lines| == 1) then []
    else Rows(lines[..|lines| - 1], delimiter, ignoreFirstRow, enforceDoubleQuotes)
         + [NormalizedRow(lines[|lines| - 1], delimiter, enforceDoubleQuotes)]
  }

  /**
   * Row `i` is the normalized line `i`, or line `i + 1` when the first line
   * is a header: no line is dropped, reordered or duplicated.
   */
  lemma {:induction false} RowsAt(lines: seq<string>, delimiter: char, ignoreFirstRow: bool, enforceDoubleQuotes: bool, i: int)
    requires 0 <= i < |Rows(lines, delimiter, ignoreFirstRow, enforceDoubleQuotes)|
    ensures Rows(lines, delimiter, ignoreFirstRow, enforceDoubleQuotes)[i]
         == NormalizedRow(lines[if ignoreFirstRow then i + 1 else i], delimiter, enforceDoubleQuotes)
    decreases |lines|
  {
    var init := lines[..|lines| - 1];
    var earlier := Rows(init, delimiter, ignoreFirstRow, enforceDoubleQuotes);
    var j := if ignoreFirstRow then i + 1 else i;
    assert Rows(lines, delimiter, ignoreFirstRow, enforceDoubleQuotes)
        == earlier + [NormalizedRow(lines[|lines| - 1], delimiter, enforceDoubleQuotes)];
    if i < |earlier| {
      RowsAt(init, delimiter, ignoreFirstRow, enforceDoubleQuotes, i);
      assert init[j] == lines[j];
    } else {
      assert j == |lines| - 1;
    }
  }

  /** One more line: it is skipped when it is the first line and the header is ignored, otherwise its row is appended. */
  lemma RowsStep(lines: seq<string>, i: int, delimiter: char, ignoreFirstRow: bool, enforceDoubleQuotes: bool)
    requires 0 <= i < |lines|
    ensures Rows(lines[..i + 1], delimiter, ignoreFirstRow, enforceDoubleQuotes)
         == if ignoreFirstRow && i == 0 then []
            else Rows(lines[..i], delimiter, ignoreFirstRow, enforceDoubleQuotes)
                 + [NormalizedRow(lines[i], delimiter, enforceDoubleQuotes)]
  {
    assert lines[..i + 1][..i] == lines[..i];
  }

  /**
   * The batch size the loop behaves as if it had: a flush happens once the
   * buffer, which holds at least one row after an append, reaches
   * `batchSize`, so any `batchSize` below one flushes every row alone.
   */
  function Threshold(batchSize: int): (b: nat)
    ensures b >= 1 && b >= batchSize
    ensures batchSize >= 1 ==> b == batchSize
    ensures batchSize < 1 ==> b == 1
  {
    if batchSize < 1 then 1 else batchSize
  }

  /**
   * The loop's flush test on a buffer of `size` rows, which is never empty
   * when it is made, passes exactly when the buffer has reached the threshold.
   */
  lemma ThresholdFlushTest(batchSize: int, size: int)
    requires size >= 1
    ensures size >= batchSize <==> size >= Threshold(batchSize)
  {
  }

  /** The event pair of one full batch: the message, then the insert. */
  function FlushEvents(tableName: string, total: int, batch: seq<Row>): seq<Event> {
    [ProcessingBatch(total), Insert(batch, InsertStatement(tableName, batch))]
  }

  /**
   * The events of the in-loop flushes for `rows`, taken `b` at a time from
   * the front; `done` rows were flushed before. Rows short of a full batch
   * at the end produce nothing here.
   */
  function FullBatches(tableName: string, rows: seq<Row>, b: nat, done: int): seq<Event>
    requires b >= 1
    decreases |rows|
  {
    if |rows| < b then []
    else FlushEvents(tableName, done + b, rows[..b]) + FullBatches(tableName, rows[b..], b, done + b)
  }

  /** The rows left in the buffer once all full batches of `rows` are flushed. */
  function Remainder(rows: seq<Row>, b: nat): (rest: seq<Row>)
    requires b >= 1
    ensures |rest| < b && |rest| <= |rows|
    decreases |rows|
  {
    if |rows| < b then rows else Remainder(rows[b..], b)
  }

  /** The remainder is the tail of the rows: the ones after the last full batch. */
  lemma {:induction false} RemainderIsSuffix(rows: seq<Row>, b: nat)
    requires b >= 1
    ensures Remainder(rows, b) == rows[|rows| - |Remainder(rows, b)|..]
    decreases |rows|
  {
    if |rows| >= b {
      RemainderIsSuffix(rows[b..], b);
      assert rows[b..][|rows| - b - |Remainder(rows, b)|..] == rows[|rows| - |Remainder(rows, b)|..];
    }
  }

  /** The events of the flush after the loop, if any rows are left. */
  function FinalFlush(tableName: string, rest: seq<Row>): seq<Event> {
    if |rest| == 0 then [] else [ProcessingRemaining(|rest|), Insert(rest, InsertStatement(tableName, rest))]
  }

  /** Everything one ingest of `rows` makes observable, in order. */
  function IngestTrace(filePath: string, url: string, tableName: string, rows: seq<Row>, b: nat): seq<Event>
    requires b >= 1
  {
    [ProcessingFile(filePath), OpenConnection(url)]
      + FullBatches(tableName, rows, b, 0)
      + FinalFlush(tableName, Remainder(rows, b))
      + [Processed(|rows|)]
  }

  // ---------------------------------------------------------------------
  // Reading a trace
  // ---------------------------------------------------------------------

  /** The batches handed to the INSERT builder, in call order. */
  function Batches(trace: seq<Event>): seq<seq<Row>>
    decreases |trace|
  {
    if |trace| == 0 then []
    else (if trace[0].Insert? then [trace[0].rows] else []) + Batches(trace[1..])
  }

  /** The batches laid end to end. */
  function Flatten(batches: seq<seq<Row>>): seq<Row>
    decreases |batches|
  {
    if |batches| == 0 then [] else batches[0] + Flatten(batches[1..])
  }

  /** Number of rows handed over in `trace`. */
  function RowsInserted(trace: seq<Event>): nat {
    |Flatten(Batches(trace))|
  }

  /**
   * The progress messages tell the truth: each "Processing batch n" is
   * followed by the insert of a full batch and `n` counts every row handed
   * over up to and including it (plus `base` rows before the trace); each
   * "Processing remaining n" is followed by the insert of `n` rows, a number
   * between one and a full batch less one; and each insert executes the
   * statement built from its own rows.
   */
  ghost predicate TruthfulProgress(trace: seq<Event>, base: int, b: nat, tableName: string) {
    forall k :: 0 <= k < |trace| ==> TruthfulAt(trace, k, base, b, tableName)
  }

  /** The event at position `k` of `trace` is truthful in the sense of `TruthfulProgress`. */
  ghost predicate TruthfulAt(trace: seq<Event>, k: int, base: int, b: nat, tableName: string)
    requires 0 <= k < |trace|
  {
    (trace[k].ProcessingBatch? ==>
       k + 1 < |trace| && trace[k + 1].Insert? && |trace[k + 1].rows| == b &&
       trace[k].total == base + RowsInserted(trace[..k + 2])) &&
    (trace[k].ProcessingRemaining? ==>
       k + 1 < |trace| && trace[k + 1].Insert? && 1 <= trace[k].size < b &&
       |trace[k + 1].rows| == trace[k].size) &&
    (trace[k].Insert? ==> trace[k].sql == InsertStatement(tableName, trace[k].rows))
  }

  /** A trace that does not end in the middle of a message-and-insert pair. */
  predicate Settled(trace: seq<Event>) {
    |trace| == 0 || !(trace[|trace| - 1].ProcessingBatch? || trace[|trace| - 1].ProcessingRemaining?)
  }

  lemma {:induction false} BatchesAppend(a: seq<Event>, c: seq<Event>)
    ensures Batches(a + c) == Batches(a) + Batches(c)
    decreases |a|
  {
    if |a| > 0 {
      assert (a + c)[1..] == a[1..] + c;
      BatchesAppend(a[1..], c);
    } else {
      assert a + c == c;
    }
  }

  lemma {:induction false} FlattenAppend(x: seq<seq<Row>>, y: seq<seq<Row>>)
    ensures Flatten(x + y) == Flatten(x) + Flatten(y)
    decreases |x|
  {
    if |x| > 0 {
      assert (x + y)[1..] == x[1..] + y;
      FlattenAppend(x[1..], y);
    } else {
      assert x + y == y;
    }
  }

  lemma BatchesSingle(e: Event)
    ensures Batches([e]) == if e.Insert? then [e.rows] else []
  {
    assert [e][1..] == [];
  }

  lemma FlattenSingle(batch: seq<Row>)
    ensures Flatten([batch]) == batch
  {
    assert [batch][1..] == [];
  }

  /** Rows handed over add up across consecutive pieces of a trace. */
  lemma RowsInsertedAppend(a: seq<Event>, c: seq<Event>)
    ensures RowsInserted(a + c) == RowsInserted(a) + RowsInserted(c)
    ensures Flatten(Batches(a + c)) == Flatten(Batches(a)) + Flatten(Batches(c))
  {
    BatchesAppend(a, c);
    FlattenAppend(Batches(a), Batches(c));
  }

  /** Truthful pieces of a trace make a truthful trace, each piece counting on from the rows before it. */
  lemma TruthfulAppend(a: seq<Event>, c: seq<Event>, base: int, b: nat, tableName: string)
    requires TruthfulProgress(a, base, b, tableName) && Settled(a)
    requires TruthfulProgress(c, base + RowsInserted(a), b, tableName)
    ensures TruthfulProgress(a + c, base, b, tableName)
  {
    var t := a + c;
    forall k | 0 <= k < |t|
      ensures TruthfulAt(t, k, base, b, tableName)
    {
      if k < |a| {
        assert TruthfulAt(a, k, base, b, tableName);
        assert t[k] == a[k];
        if t[k].ProcessingBatch? || t[k].ProcessingRemaining? {
          assert t[k + 1] == a[k + 1];
          assert t[..k + 2] == a[..k + 2];
        }
      } else {
        var k' := k - |a|;
        assert TruthfulAt(c, k', base + RowsInserted(a), b, tableName);
        assert t[k] == c[k'];
        if t[k].ProcessingBatch? || t[k].ProcessingRemaining? {
          assert t[k + 1] == c[k' + 1];
          assert t[..k + 2] == a + c[..k' + 2];
          RowsInsertedAppend(a, c[..k' + 2]);
        }
      }
    }
  }

  // ---------------------------------------------------------------------
  // What the in-loop flushes produce
  // ---------------------------------------------------------------------

  /** The event pair of one full batch hands over that batch. */
  lemma FlushEventsBatches(tableName: string, total: int, batch: seq<Row>)
    ensures var t := FlushEvents(tableName, total, batch);
      Batches(t) == [batch] && Flatten(Batches(t)) == batch
  {
    var t := FlushEvents(tableName, total, batch);
    assert t == [t[0]] + [t[1]];
    BatchesSingle(t[0]);
    BatchesSingle(t[1]);
    BatchesAppend([t[0]], [t[1]]);
    FlattenSingle(batch);
  }

  /** The event pair of one full batch carries a truthful message. */
  lemma FlushEventsTruthful(tableName: string, batch: seq<Row>, base: int, b: nat)
    requires |batch| == b
    ensures var t := FlushEvents(tableName, base + b, batch);
      TruthfulProgress(t, base, b, tableName) && Settled(t)
  {
    var t := FlushEvents(tableName, base + b, batch);
    FlushEventsBatches(tableName, base + b, batch);
    assert t[..2] == t;
    assert RowsInserted(t[..2]) == b;
    assert TruthfulAt(t, 0, base, b, tableName);
    assert TruthfulAt(t, 1, base, b, tableName);
  }

  /** One step of `FullBatches`: a full batch at the front, then the rest. */
  lemma FullBatchesUnfold(tableName: string, rows: seq<Row>, b: nat, done: int)
    requires b >= 1 && |rows| >= b
    ensures FullBatches(tableName, rows, b, done)
         == FlushEvents(tableName, done + b, rows[..b]) + FullBatches(tableName, rows[b..], b, done + b)
  {
  }

  /** Every batch in `batches` holds exactly `b` rows. */
  ghost predicate AllOfSize(batches: seq<seq<Row>>, b: nat) {
    forall j :: 0 <= j < |batches| ==> |batches[j]| == b
  }

  /** Putting one more full batch in front keeps the hand-over in order. */
  lemma FlushHandOverStep(tableName: string, total: int, batch: seq<Row>, tail: seq<Event>, after: seq<Row>)
    requires Flatten(Batches(tail)) == after
    ensures Flatten(Batches(FlushEvents(tableName, total, batch) + tail)) == batch + after
  {
    var head := FlushEvents(tableName, total, batch);
    FlushEventsBatches(tableName, total, batch);
    RowsInsertedAppend(head, tail);
  }


  /** The in-loop flushes hand over, in order, every row except the remainder. */
  lemma {:induction false} FullBatchesHandOver(tableName: string, rows: seq<Row>, b: nat, done: int)
    requires b >= 1
    ensures Flatten(Batches(FullBatches(tableName, rows, b, done))) == rows[..|rows| - |Remainder(rows, b)|]
    decreases |rows|
  {
    if |rows| >= b {
      FullBatchesHandOver(tableName, rows[b..], b, done + b);
      FullBatchesHandOverStep(tableName, rows, b, done);
    }
  }

  /** The inductive step of `FullBatchesHandOver`. */
  lemma FullBatchesHandOverStep(tableName: string, rows: seq<Row>, b: nat, done: int)
    requires b >= 1 && |rows| >= b
    requires var rest := rows[b..];
      Flatten(Batches(FullBatches(tableName, rest, b, done + b))) == rest[..|rest| - |Remainder(rest, b)|]
    ensures Flatten(Batches(FullBatches(tableName, rows, b, done))) == rows[..|rows| - |Remainder(rows, b)|]
  {
    var rest := rows[b..];
    var after := rest[..|rest| - |Remainder(rest, b)|];
    FullBatchesUnfold(tableName, rows, b, done);
    FlushHandOverStep(tableName, done + b, rows[..b], FullBatches(tableName, rest, b, done + b), after);
    RemainderUnfold(rows, b);
    PrefixAfter(rows, b, |rows| - |Remainder(rows, b)|);
  }

  /** One step of `Remainder`. */
  lemma RemainderUnfold(rows: seq<Row>, b: nat)
    requires b >= 1 && |rows| >= b
    ensures Remainder(rows, b) == Remainder(rows[b..], b)
  {
  }

  /** A prefix of at least `b` rows is the first `b` rows followed by a prefix of the others. */
  lemma PrefixAfter(rows: seq<Row>, b: nat, n: int)
    requires b <= n <= |rows|
    ensures rows[..n] == rows[..b] + rows[b..][..n - b]
  {
  }

  /** Every in-loop flush hands over exactly `b` rows. */
  lemma {:induction false} FullBatchesSizes(tableName: string, rows: seq<Row>, b: nat, done: int)
    requires b >= 1
    ensures AllOfSize(Batches(FullBatches(tableName, rows, b, done)), b)
    decreases |rows|
  {
    if |rows| >= b {
      FullBatchesSizes(tableName, rows[b..], b, done + b);
      FullBatchesSizesStep(tableName, rows, b, done);
    }
  }

  /** The inductive step of `FullBatchesSizes`. */
  lemma FullBatchesSizesStep(tableName: string, rows: seq<Row>, b: nat, done: int)
    requires b >= 1 && |rows| >= b
    requires AllOfSize(Batches(FullBatches(tableName, rows[b..], b, done + b)), b)
    ensures AllOfSize(Batches(FullBatches(tableName, rows, b, done)), b)
  {
    var head := FlushEvents(tableName, done + b, rows[..b]);
    var tail := FullBatches(tableName, rows[b..], b, done + b);
    FullBatchesUnfold(tableName, rows, b, done);
    FlushEventsBatches(tableName, done + b, rows[..b]);
    BatchesAppend(head, tail);
    var batches := Batches(FullBatches(tableName, rows, b, done));
    assert batches == [rows[..b]] + Batches(tail);
    forall j | 0 <= j < |batches|
      ensures |batches[j]| == b
    {
      if j > 0 {
        assert batches[j] == Batches(tail)[j - 1];
      }
    }
  }

  /** The in-loop flushes report truthful counts, starting from the `done` rows before them. */
  lemma {:induction false} FullBatchesTruthful(tableName: string, rows: seq<Row>, b: nat, done: int)
    requires b >= 1
    ensures var t := FullBatches(tableName, rows, b, done);
      TruthfulProgress(t, done, b, tableName) && Settled(t)
    decreases |rows|
  {
    if |rows| >= b {
      var batch := rows[..b];
      var head := FlushEvents(tableName, done + b, batch);
      var tail := FullBatches(tableName, rows[b..], b, done + b);
      assert FullBatches(tableName, rows, b, done) == head + tail;
      FullBatchesTruthful(tableName, rows[b..], b, done + b);
      FlushEventsTruthful(tableName, batch, done, b);
      FlushEventsBatches(tableName, done + b, batch);
      TruthfulAppend(head, tail, done, b, tableName);
      assert Settled(head + tail) by {
        if |tail| == 0 {
          assert head + tail == head;
        }
      }
    }
  }

  /** The last flush hands over the remainder, with a truthful message, and leaves the trace settled. */
  lemma FinalFlushFacts(tableName: string, rest: seq<Row>, base: int, b: nat)
    requires |rest| < b
    ensures var t := FinalFlush(tableName, rest);
      Flatten(Batches(t)) == rest &&
      TruthfulProgress(t, base, b, tableName) && Settled(t) &&
      (|rest| == 0 <==> Batches(t) == [])
  {
    var t := FinalFlush(tableName, rest);
    if |rest| > 0 {
      assert t == [t[0]] + [t[1]];
      BatchesSingle(t[0]);
      BatchesSingle(t[1]);
      BatchesAppend([t[0]], [t[1]]);
      FlattenSingle(rest);
      assert t[..2] == t;
      assert TruthfulAt(t, 0, base, b, tableName);
      assert TruthfulAt(t, 1, base, b, tableName);
    }
  }

  /**
   * What the buffer holds after one more row: the row appended to the old
   * remainder, or nothing when that completed a batch.
   */
  function NextRemainder(rest: seq<Row>, row: Row, b: nat): seq<Row> {
    if |rest| + 1 < b then rest + [row] else []
  }

  /** The flush events one more row causes: none, or the flush of the batch it completes. */
  function NextFlush(tableName: string, rest: seq<Row>, row: Row, b: nat, total: int): seq<Event> {
    if |rest| + 1 < b then [] else FlushEvents(tableName, total, rest + [row])
  }

  /**
   * Appending one row to the rows seen so far either only grows the buffer
   * or completes a batch, which is then empty. This is the step the ingest
   * loop takes.
   */
  lemma {:induction false} AppendRowRemainder(rows: seq<Row>, row: Row, b: nat)
    requires b >= 1
    ensures Remainder(rows + [row], b) == NextRemainder(Remainder(rows, b), row, b)
    decreases |rows|
  {
    if |rows| >= b {
      AppendRowRemainder(rows[b..], row, b);
      AppendRowRemainderStep(rows, row, b);
    } else if |rows| + 1 == b {
      RemainderUnfold(rows + [row], b);
      assert (rows + [row])[b..] == [];
    }
  }

  /** The inductive step of `AppendRowRemainder`. */
  lemma AppendRowRemainderStep(rows: seq<Row>, row: Row, b: nat)
    requires b >= 1 && |rows| >= b
    requires Remainder(rows[b..] + [row], b) == NextRemainder(Remainder(rows[b..], b), row, b)
    ensures Remainder(rows + [row], b) == NextRemainder(Remainder(rows, b), row, b)
  {
    RemainderUnfold(rows, b);
    RemainderUnfold(rows + [row], b);
    assert (rows + [row])[b..] == rows[b..] + [row];
  }

  /**
   * Appending one row to the rows seen so far adds the flush of the batch it
   * completes, if it completes one, counting all rows so far.
   */
  lemma {:induction false} AppendRowFlushes(tableName: string, rows: seq<Row>, row: Row, b: nat, done: int, total: int)
    requires b >= 1 && total == done + |rows| + 1
    ensures FullBatches(tableName, rows + [row], b, done)
         == FullBatches(tableName, rows, b, done) + NextFlush(tableName, Remainder(rows, b), row, b, total)
    decreases |rows|
  {
    if |rows| >= b {
      AppendRowFlushes(tableName, rows[b..], row, b, done + b, total);
      AppendRowFlushesStep(tableName, rows, row, b, done, total);
    } else if |rows| + 1 == b {
      FullBatchesUnfold(tableName, rows + [row], b, done);
      assert (rows + [row])[..b] == rows + [row];
      assert (rows + [row])[b..] == [];
      assert total == done + b;
    }
  }

  /** The inductive step of `AppendRowFlushes`. */
  lemma AppendRowFlushesStep(tableName: string, rows: seq<Row>, row: Row, b: nat, done: int, total: int)
    requires b >= 1 && |rows| >= b
    requires FullBatches(tableName, rows[b..] + [row], b, done + b)
          == FullBatches(tableName, rows[b..], b, done + b) + NextFlush(tableName, Remainder(rows[b..], b), row, b, total)
    ensures FullBatches(tableName, rows + [row], b, done)
         == FullBatches(tableName, rows, b, done) + NextFlush(tableName, Remainder(rows, b), row, b, total)
  {
    var head := FlushEvents(tableName, done + b, rows[..b]);
    var tail := FullBatches(tableName, rows[b..], b, done + b);
    RemainderUnfold(rows, b);
    FullBatchesUnfoldAppend(tableName, rows, row, b, done);
    FullBatchesUnfold(tableName, rows, b, done);
    ConcatAssoc(head, tail, NextFlush(tableName, Remainder(rows, b), row, b, total));
  }

  /** One step of `FullBatches` on rows extended by one. */
  lemma FullBatchesUnfoldAppend(tableName: string, rows: seq<Row>, row: Row, b: nat, done: int)
    requires b >= 1 && |rows| >= b
    ensures FullBatches(tableName, rows + [row], b, done)
         == FlushEvents(tableName, done + b, rows[..b]) + FullBatches(tableName, rows[b..] + [row], b, done + b)
  {
    var rows' := rows + [row];
    assert rows'[..b] == rows[..b];
    assert rows'[b..] == rows[b..] + [row];
    FullBatchesUnfold(tableName, rows', b, done);
  }

  /**
   * What the ingest loop knows after reading `lines[..i]`: the header flag is
   * still set only before the first line, the buffer holds the remainder of
   * the rows so far, the running count plus the buffer is their number, and
   * the trace is `start` followed by the flushes of their full batches.
   */
  ghost predicate LoopPicture(tableName: string, lines: seq<string>, i: int, delimiter: char, ignoreFirstRow: bool,
                              enforceDoubleQuotes: bool, b: nat, skip: bool, rest: seq<Row>, count: int,
                              start: seq<Event>, trace: seq<Event>)
  {
    0 <= i <= |lines| && b >= 1 && skip == (ignoreFirstRow && i == 0) &&
    var done := Rows(lines[..i], delimiter, ignoreFirstRow, enforceDoubleQuotes);
    rest == Remainder(done, b) && count + |rest| == |done| && trace == start + FullBatches(tableName, done, b, 0)
  }

  /**
   * One iteration of the ingest loop, on line `i`: when the line is the
   * skipped header the buffer, count and trace stay as they are; otherwise
   * the buffer becomes `NextRemainder` and the events are `NextFlush` of the
   * line's row. Either way the loop's picture moves from `lines[..i]` to
   * `lines[..i + 1]`.
   */
  lemma IngestLineStep(tableName: string, lines: seq<string>, i: int, delimiter: char, ignoreFirstRow: bool,
                       enforceDoubleQuotes: bool, b: nat, skip: bool, rest: seq<Row>, count: int,
                       start: seq<Event>, trace: seq<Event>, held: seq<Row>, total: int, events: seq<Event>)
    requires LoopPicture(tableName, lines, i, delimiter, ignoreFirstRow, enforceDoubleQuotes, b, skip, rest, count, start, trace)
    requires i < |lines|
    requires skip ==> held == rest && total == count && events == []
    requires !skip ==>
      var row := NormalizedRow(lines[i], delimiter, enforceDoubleQuotes);
      held == NextRemainder(rest, row, b) && events == NextFlush(tableName, rest, row, b, count + |rest| + 1) &&
      total + |held| == count + |rest| + 1
    ensures LoopPicture(tableName, lines, i + 1, delimiter, ignoreFirstRow, enforceDoubleQuotes, b, false, held, total,
                        start, trace + events)
  {
    var done := Rows(lines[..i], delimiter, ignoreFirstRow, enforceDoubleQuotes);
    var next := Rows(lines[..i + 1], delimiter, ignoreFirstRow, enforceDoubleQuotes);
    RowsStep(lines, i, delimiter, ignoreFirstRow, enforceDoubleQuotes);
    if !skip {
      AppendRowStep(tableName, done, NormalizedRow(lines[i], delimiter, enforceDoubleQuotes), b, rest, count, held, total, events);
    }
    ConcatAssoc(start, FullBatches(tableName, done, b, 0), events);
    assert FullBatches(tableName, next, b, 0) == FullBatches(tableName, done, b, 0) + events;
  }

  /** Before the first line the picture is empty. */
  lemma LoopPictureStart(tableName: string, lines: seq<string>, delimiter: char, ignoreFirstRow: bool,
                         enforceDoubleQuotes: bool, b: nat, start: seq<Event>)
    requires b >= 1
    ensures LoopPicture(tableName, lines, 0, delimiter, ignoreFirstRow, enforceDoubleQuotes, b, ignoreFirstRow, [], 0, start, start)
  {
    assert lines[..0] == [];
    assert start + [] == start;
  }

  /**
   * After the last line, the flushes so far followed by the flush of the
   * remainder and the total make up the whole ingest trace.
   */
  lemma LoopPictureDone(filePath: string, url: string, tableName: string, lines: seq<string>, delimiter: char,
                        ignoreFirstRow: bool, enforceDoubleQuotes: bool, b: nat, skip: bool, rest: seq<Row>, count: int,
                        flushed: seq<Event>, tail: seq<Event>)
    requires LoopPicture(tableName, lines, |lines|, delimiter, ignoreFirstRow, enforceDoubleQuotes, b, skip, rest, count,
                         [ProcessingFile(filePath), OpenConnection(url)], flushed)
    requires tail == FinalFlush(tableName, rest) + [Processed(count + |rest|)]
    ensures flushed + tail == IngestTrace(filePath, url, tableName, Rows(lines, delimiter, ignoreFirstRow, enforceDoubleQuotes), b)
  {
    assert lines[..|lines|] == lines;
    var rows := Rows(lines, delimiter, ignoreFirstRow, enforceDoubleQuotes);
    IngestTraceOfPieces(filePath, url, tableName, rows, b, rest, count, flushed);
    ConcatAssoc(flushed, FinalFlush(tableName, rest), [Processed(count + |rest|)]);
  }

  /**
   * The trace of a whole ingest is the announcements and the in-loop
   * flushes, then the flush of the remainder, then the total.
   */
  lemma IngestTraceOfPieces(filePath: string, url: string, tableName: string, rows: seq<Row>, b: nat,
                            rest: seq<Row>, count: int, flushed: seq<Event>)
    requires b >= 1 && rest == Remainder(rows, b) && count + |rest| == |rows|
    requires flushed == [ProcessingFile(filePath), OpenConnection(url)] + FullBatches(tableName, rows, b, 0)
    ensures flushed + FinalFlush(tableName, rest) + [Processed(count + |rest|)] == IngestTrace(filePath, url, tableName, rows, b)
  {
  }

  /** One more row, on the rows so far: the buffer, the count and the flushes move on as the loop's step says. */
  lemma AppendRowStep(tableName: string, done: seq<Row>, row: Row, b: nat, rest: seq<Row>, count: int,
                      held: seq<Row>, total: int, events: seq<Event>)
    requires b >= 1 && rest == Remainder(done, b) && count + |rest| == |done|
    requires held == NextRemainder(rest, row, b) && events == NextFlush(tableName, rest, row, b, count + |rest| + 1)
    requires total + |held| == count + |rest| + 1
    ensures held == Remainder(done + [row], b) && total + |held| == |done + [row]|
    ensures FullBatches(tableName, done + [row], b, 0) == FullBatches(tableName, done, b, 0) + events
  {
    AppendRowRemainder(done, row, b);
    AppendRowFlushes(tableName, done, row, b, 0, count + |rest| + 1);
  }

  // ---------------------------------------------------------------------
  // What a whole ingest guarantees
  // ---------------------------------------------------------------------

  /** The announcements around the flushes hand nothing over. */
  lemma MessagesCarryNoBatch(filePath: string, url: string, total: int)
    ensures Batches([ProcessingFile(filePath), OpenConnection(url)]) == []
    ensures Batches([Processed(total)]) == []
  {
    var start := [ProcessingFile(filePath), OpenConnection(url)];
    assert start == [start[0]] + [start[1]];
    BatchesSingle(start[0]);
    BatchesSingle(start[1]);
    BatchesAppend([start[0]], [start[1]]);
    BatchesSingle(Processed(total));
  }

  /** The batches of four consecutive pieces, the outer two handing nothing over. */
  lemma BatchesOfPieces(start: seq<Event>, full: seq<Event>, last: seq<Event>, done: seq<Event>)
    requires Batches(start) == [] && Batches(done) == []
    ensures Batches(start + full + last + done) == Batches(full) + Batches(last)
  {
    BatchesAppend(start, full);
    BatchesAppend(start + full, last);
    BatchesAppend(start + full + last, done);
  }

  /** The batches of a whole ingest are those of the in-loop flushes, then those of the last flush. */
  lemma IngestTracePieces(filePath: string, url: string, tableName: string, rows: seq<Row>, b: nat)
    requires b >= 1
    ensures Batches(IngestTrace(filePath, url, tableName, rows, b))
         == Batches(FullBatches(tableName, rows, b, 0)) + Batches(FinalFlush(tableName, Remainder(rows, b)))
  {
    MessagesCarryNoBatch(filePath, url, |rows|);
    BatchesOfPieces([ProcessingFile(filePath), OpenConnection(url)], FullBatches(tableName, rows, b, 0),
                    FinalFlush(tableName, Remainder(rows, b)), [Processed(|rows|)]);
  }

  /** One ingest starts by announcing the file and opening the connection, and ends by reporting the row count. */
  lemma IngestTraceFrame(filePath: string, url: string, tableName: string, rows: seq<Row>, b: nat)
    requires b >= 1
    ensures var t := IngestTrace(filePath, url, tableName, rows, b);
      |t| >= 3 && t[0] == ProcessingFile(filePath) && t[1] == OpenConnection(url) &&
      t[|t| - 1] == Processed(|rows|)
  {
  }

  /** One ingest hands every row over exactly once and in order. */
  lemma IngestTraceHandOver(filePath: string, url: string, tableName: string, rows: seq<Row>, b: nat)
    requires b >= 1
    ensures Flatten(Batches(IngestTrace(filePath, url, tableName, rows, b))) == rows
    ensures RowsInserted(IngestTrace(filePath, url, tableName, rows, b)) == |rows|
  {
    var full := FullBatches(tableName, rows, b, 0);
    var rest := Remainder(rows, b);
    var last := FinalFlush(tableName, rest);
    IngestTracePieces(filePath, url, tableName, rows, b);
    FullBatchesHandOver(tableName, rows, b, 0);
    FinalFlushFacts(tableName, rest, |rows| - |rest|, b);
    FlattenAppend(Batches(full), Batches(last));
    RemainderIsSuffix(rows, b);
    PrefixAndSuffix(rows, |rows| - |rest|);
  }

  /** A sequence is its prefix followed by the matching suffix. */
  lemma PrefixAndSuffix(rows: seq<Row>, n: int)
    requires 0 <= n <= |rows|
    ensures rows == rows[..n] + rows[n..]
  {
  }

  /**
   * Every batch handed over holds between one and `b` rows, and all but the
   * last hold exactly `b`.
   */
  lemma IngestTraceBatchSizes(filePath: string, url: string, tableName: string, rows: seq<Row>, b: nat)
    requires b >= 1
    ensures var batches := Batches(IngestTrace(filePath, url, tableName, rows, b));
      (forall j :: 0 <= j < |batches| ==> 1 <= |batches[j]| <= b) &&
      (forall j :: 0 <= j < |batches| - 1 ==> |batches[j]| == b)
  {
    var full := FullBatches(tableName, rows, b, 0);
    var rest := Remainder(rows, b);
    var last := FinalFlush(tableName, rest);
    IngestTracePieces(filePath, url, tableName, rows, b);
    FullBatchesSizes(tableName, rows, b, 0);
    FinalFlushFacts(tableName, rest, |rows| - |rest|, b);
    var batches := Batches(full) + Batches(last);
    forall j | 0 <= j < |batches|
      ensures 1 <= |batches[j]| <= b
      ensures j < |batches| - 1 ==> |batches[j]| == b
    {
      if j < |Batches(full)| {
        assert batches[j] == Batches(full)[j];
      } else {
        assert Batches(last) == [rest] by {
          assert last == [last[0]] + [last[1]];
          BatchesSingle(last[0]);
          BatchesSingle(last[1]);
          BatchesAppend([last[0]], [last[1]]);
        }
        assert batches[j] == rest;
      }
    }
  }

  /**
   * Every message of one ingest is truthful: each "Processing batch n"
   * reports the rows handed over so far including its batch, each
   * "Processing remaining n" the size of the batch that follows, and each
   * insert executes the statement for its own rows.
   */
  lemma IngestTraceTruthful(filePath: string, url: string, tableName: string, rows: seq<Row>, b: nat)
    requires b >= 1
    ensures TruthfulProgress(IngestTrace(filePath, url, tableName, rows, b), 0, b, tableName)
  {
    var start := [ProcessingFile(filePath), OpenConnection(url)];
    var full := FullBatches(tableName, rows, b, 0);
    var last := FinalFlush(tableName, Remainder(rows, b));
    var done := [Processed(|rows|)];
    MessagesCarryNoBatch(filePath, url, |rows|);
    assert TruthfulAt(start, 0, 0, b, tableName) && TruthfulAt(start, 1, 0, b, tableName);
    FullBatchesTruthful(tableName, rows, b, 0);
    FinalFlushFacts(tableName, Remainder(rows, b), RowsInserted(start + full), b);
    assert TruthfulAt(done, 0, RowsInserted(start + full + last), b, tableName);
    TruthfulPieces(start, full, last, done, b, tableName);
  }

  /** Truthful consecutive pieces, the first handing nothing over, make a truthful trace. */
  lemma TruthfulPieces(start: seq<Event>, full: seq<Event>, last: seq<Event>, done: seq<Event>, b: nat, tableName: string)
    requires TruthfulProgress(start, 0, b, tableName) && Settled(start) && Batches(start) == []
    requires TruthfulProgress(full, 0, b, tableName) && Settled(full)
    requires TruthfulProgress(last, RowsInserted(start + full), b, tableName) && Settled(last)
    requires TruthfulProgress(done, RowsInserted(start + full + last), b, tableName)
    ensures TruthfulProgress(start + full + last + done, 0, b, tableName)
  {
    assert RowsInserted(start) == 0;
    TruthfulAppend(start, full, 0, b, tableName);
    SettledAppend(start, full);
    TruthfulAppend(start + full, last, 0, b, tableName);
    SettledAppend(start + full, last);
    TruthfulAppend(start + full + last, done, 0, b, tableName);
  }

  /** Settled pieces make a settled trace. */
  lemma SettledAppend(a: seq<Event>, c: seq<Event>)
    requires Settled(a) && Settled(c)
    ensures Settled(a + c)
  {
    if |c| == 0 {
      assert a + c == a;
    }
  }


  /**
   * Counting from the file: with `ignoreFirstRow` unset every line becomes a
   * row handed over; with it set, every line but the first.
   */
  lemma RowCount(lines: seq<string>, delimiter: char, ignoreFirstRow: bool, enforceDoubleQuotes: bool,
                 filePath: string, url: string, tableName: string, b: nat)
    requires b >= 1
    ensures var rows := Rows(lines, delimiter, ignoreFirstRow, enforceDoubleQuotes);
      var t := IngestTrace(filePath, url, tableName, rows, b);
      RowsInserted(t) == (if ignoreFirstRow then (if |lines| == 0 then 0 else |lines| - 1) else |lines|) &&
      Flatten(Batches(t)) == rows
  {
    IngestTraceHandOver(filePath, url, tableName, Rows(lines, delimiter, ignoreFirstRow, enforceDoubleQuotes), b);
  }
}
