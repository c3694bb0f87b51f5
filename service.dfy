/**
 * The service object: it holds the JDBC connection string built once by its
 * constructors, and its ingest method streams the lines of a delimited file
 * into a table, batching the rows into multi-row INSERT statements.
 *
 * The file is given as its decoded lines and the observable effects (console
 * messages, the connection opened, the statements executed) are returned as
 * a trace of `Ingest.Event`s.
 */
module SVToMySQL {
  import opened RowNormalizer
  import opened InsertBuilder
  import opened Ingest

  datatype Option<T> = None | Some(value: T)

  const UrlScheme: string := "jdbc:mysql://"
  const PasswordKey: string := "&password="

  /** The batch size every convenience entry point uses. */
  const DefaultBatchSize: int := 200000
  /** The encoding every convenience entry point names. */
  const DefaultEncoding: string := "UTF-8"
  const Tab: char := '\t'

  /** The connection string without the password parameter. */
  function BaseConnectionString(host: string, port: string, database: string, user: string): string {
    UrlScheme + host + ":" + port + "/" + database + "?user=" + user
  }

  /** The connection string: the password parameter is present exactly when a password is given. */
  function ConnectionString(host: string, port: string, database: string, user: string, password: Option<string>): string {
    BaseConnectionString(host, port, database, user) + (if password.Some? then PasswordKey + password.value else "")
  }

  /**
   * The connection string names the MySQL JDBC scheme, and ends with the
   * user when no password is given or with the password when one is.
   */
  lemma ConnectionStringShape(host: string, port: string, database: string, user: string, password: Option<string>)
    ensures var url := ConnectionString(host, port, database, user, password);
      |url| >= |UrlScheme| && url[..|UrlScheme|] == UrlScheme &&
      (password.None? ==> |url| >= |user| && url[|url| - |user|..] == user) &&
      (password.Some? ==> |url| >= |password.value| && url[|url| - |password.value|..] == password.value)
  {
    var url := ConnectionString(host, port, database, user, password);
    var base := BaseConnectionString(host, port, database, user);
    assert base[..|UrlScheme|] == UrlScheme;
    assert url[..|base|] == base;
  }

  /**
   * Different passwords (or a password and none) give different connection
   * strings for the same host, port, database and user: the password is
   * recoverable from the string.
   */
  lemma ConnectionStringPasswordDistinct(host: string, port: string, database: string, user: string,
                                         p1: Option<string>, p2: Option<string>)
    requires p1 != p2
    ensures ConnectionString(host, port, database, user, p1) != ConnectionString(host, port, database, user, p2)
  {
    var base := BaseConnectionString(host, port, database, user);
    var u1 := ConnectionString(host, port, database, user, p1);
    var u2 := ConnectionString(host, port, database, user, p2);
    if p1.Some? && p2.Some? {
      var n := |base + PasswordKey|;
      assert u1[n..] == p1.value;
      assert u2[n..] == p2.value;
    } else {
      assert |u1| != |u2|;
    }
  }

  /**
   * One iteration of the ingest loop on `line`. The header line, when it is
   * to be skipped, clears the flag and changes nothing else. Any other line
   * is normalized into a row that joins the buffer; once the buffer holds
   * at least `batchSize` rows the running count grows by them, the progress message
   * is printed, the buffer is inserted and then emptied. In terms of the
   * specification the buffer becomes `NextRemainder` and the events are
   * `NextFlush`, numbered with the rows seen including this one.
   */
  method IngestLine(tableName: string, line: string, delimiter: char, enforceDoubleQuotes: bool, batchSize: int,
                    skipFirst: bool, batchedRows: seq<Row>, currentBatch: int)
    returns (skipNext: bool, held: seq<Row>, total: int, events: seq<Event>)
    ensures !skipNext
    ensures skipFirst ==> held == batchedRows && total == currentBatch && events == []
    ensures !skipFirst ==>
      var row := NormalizedRow(line, delimiter, enforceDoubleQuotes);
      held == NextRemainder(batchedRows, row, Threshold(batchSize)) &&
      events == NextFlush(tableName, batchedRows, row, Threshold(batchSize), currentBatch + |batchedRows| + 1) &&
      total + |held| == currentBatch + |batchedRows| + 1
  {
    skipNext := false;
    held := batchedRows;
    total := currentBatch;
    events := [];
    if !skipFirst {
      var rowValues := NormalizeLine(line, delimiter, enforceDoubleQuotes);
      held := held + [rowValues];
      if |held| >= batchSize {
        total := total + |held|;
        var query := InsertMySQLRows(tableName, held);
        events := [ProcessingBatch(total), Insert(held, query)];
        held := [];
      }
    }
  }

  /**
   * The end of an ingest: a non-empty buffer is announced, inserted and
   * counted, then the total is reported.
   */
  method FinishIngest(tableName: string, batchedRows: seq<Row>, currentBatch: int) returns (events: seq<Event>)
    ensures events == FinalFlush(tableName, batchedRows) + [Processed(currentBatch + |batchedRows|)]
  {
    events := [];
    var total := currentBatch;
    if |batchedRows| > 0 {
      var query := InsertMySQLRows(tableName, batchedRows);
      events := [ProcessingRemaining(|batchedRows|), Insert(batchedRows, query)];
      total := total + |batchedRows|;
    }
    events := events + [Processed(total)];
  }

  class Service {
    /** The JDBC URL every ingest opens its connection with. */
    const connectionString: string

    /**
     * Builds the connection string by appending to a buffer; the password
     * parameter is appended only when a password is given.
     */
    constructor(host: string, port: string, database: string, user: string, password: Option<string>)
      ensures connectionString == ConnectionString(host, port, database, user, password)
    {
      var buffer := UrlScheme;
      buffer := buffer + host + ":" + port;
      buffer := buffer + "/" + database + "?user=" + user;
      if password.Some? {
        buffer := buffer + PasswordKey + password.value;
      }
      connectionString := buffer;
    }

    /** Builds the five-argument constructor's connection string with no password. */
    constructor WithoutPassword(host: string, port: string, database: string, user: string)
      ensures connectionString == ConnectionString(host, port, database, user, None)
    {
      var buffer := UrlScheme;
      buffer := buffer + host + ":" + port;
      buffer := buffer + "/" + database + "?user=" + user;
      connectionString := buffer;
    }

    /**
     * Streams `lines` into `tableName`: announces the file, opens the
     * connection, skips the first line when asked, normalizes every other
     * line into a row and buffers it, flushing the buffer with a progress
     * message and one INSERT whenever it holds at least `batchSize` rows; after the
     * last line flushes what is left and reports the total. The trace is the
     * one `IngestTrace` describes for the normalized rows.
     */
    method SaveSVFileToTable(tableName: string, filePath: string, fileEncoding: string, lines: seq<string>,
                             delimiter: char, ignoreFirstRow: bool, enforceDoubleQuotes: bool, batchSize: int)
      returns (trace: seq<Event>)
      ensures trace == IngestTrace(filePath, connectionString, tableName,
                                   Rows(lines, delimiter, ignoreFirstRow, enforceDoubleQuotes), Threshold(batchSize))
    {
      trace := [ProcessingFile(filePath)];
      trace := trace + [OpenConnection(connectionString)];
      var skipFirst := ignoreFirstRow;
      var currentBatch := 0;
      var batchedRows: seq<Row> := [];
      ghost var b := Threshold(batchSize);
      LoopPictureStart(tableName, lines, delimiter, ignoreFirstRow, enforceDoubleQuotes, b, trace);
      var i := 0;
      while i < |lines|
        invariant LoopPicture(tableName, lines, i, delimiter, ignoreFirstRow, enforceDoubleQuotes, b,
                              skipFirst, batchedRows, currentBatch, [ProcessingFile(filePath), OpenConnection(connectionString)], trace)
      {
        var skipNext, held, total, events := IngestLine(tableName, lines[i], delimiter, enforceDoubleQuotes, batchSize,
                                                        skipFirst, batchedRows, currentBatch);
        IngestLineStep(tableName, lines, i, delimiter, ignoreFirstRow, enforceDoubleQuotes, b, skipFirst, batchedRows,
                       currentBatch, [ProcessingFile(filePath), OpenConnection(connectionString)], trace, held, total, events);
        skipFirst, batchedRows, currentBatch := skipNext, held, total;
        trace := trace + events;
        i := i + 1;
      }
      var tail := FinishIngest(tableName, batchedRows, currentBatch);
      LoopPictureDone(filePath, connectionString, tableName, lines, delimiter, ignoreFirstRow, enforceDoubleQuotes, b,
                      skipFirst, batchedRows, currentBatch, trace, tail);
      trace := trace + tail;
    }

    /**
     * A UTF-8 tab-separated file with a header line: every line after the
     * first becomes one quoted row, handed over in order in full batches of
     * 200000.
     */
    method SaveTSVFileWithHeaderToTable(tableName: string, filePath: string, lines: seq<string>)
      returns (trace: seq<Event>)
      ensures trace == IngestTrace(filePath, connectionString, tableName, Rows(lines, Tab, true, true), DefaultBatchSize)
      ensures Flatten(Batches(trace)) == Rows(lines, Tab, true, true)
    {
      trace := SaveSVFileToTable(tableName, filePath, DefaultEncoding, lines, Tab, true, true, DefaultBatchSize);
      IngestTraceHandOver(filePath, connectionString, tableName, Rows(lines, Tab, true, true), DefaultBatchSize);
    }

    /** A UTF-8 tab-separated file without a header line: every line becomes one quoted row. */
    method SaveTSVFileWithoutHeaderToTable(tableName: string, filePath: string, lines: seq<string>)
      returns (trace: seq<Event>)
      ensures trace == IngestTrace(filePath, connectionString, tableName, Rows(lines, Tab, false, true), DefaultBatchSize)
      ensures Flatten(Batches(trace)) == Rows(lines, Tab, false, true)
    {
      trace := SaveSVFileToTable(tableName, filePath, DefaultEncoding, lines, Tab, false, true, DefaultBatchSize);
      IngestTraceHandOver(filePath, connectionString, tableName, Rows(lines, Tab, false, true), DefaultBatchSize);
    }

    /** A UTF-8 comma-separated file with a header line: every line after the first becomes one quoted row. */
    method SaveCSVFileWithHeaderToTable(tableName: string, filePath: string, lines: seq<string>)
      returns (trace: seq<Event>)
      ensures trace == IngestTrace(filePath, connectionString, tableName, Rows(lines, CommaMark, true, true), DefaultBatchSize)
      ensures Flatten(Batches(trace)) == Rows(lines, CommaMark, true, true)
    {
      trace := SaveSVFileToTable(tableName, filePath, DefaultEncoding, lines, CommaMark, true, true, DefaultBatchSize);
      IngestTraceHandOver(filePath, connectionString, tableName, Rows(lines, CommaMark, true, true), DefaultBatchSize);
    }

    /** A UTF-8 comma-separated file without a header line: every line becomes one quoted row. */
    method SaveCSVFileWithoutHeaderToTable(tableName: string, filePath: string, lines: seq<string>)
      returns (trace: seq<Event>)
      ensures trace == IngestTrace(filePath, connectionString, tableName, Rows(lines, CommaMark, false, true), DefaultBatchSize)
      ensures Flatten(Batches(trace)) == Rows(lines, CommaMark, false, true)
    {
      trace := SaveSVFileToTable(tableName, filePath, DefaultEncoding, lines, CommaMark, false, true, DefaultBatchSize);
      IngestTraceHandOver(filePath, connectionString, tableName, Rows(lines, CommaMark, false, true), DefaultBatchSize);
    }
  }
}
