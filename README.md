# SVToMySQL — a verified model of the delimited-file-to-MySQL loader

SVToMySQL is a small Java library with a single service class,
`SVToMySQLService`. Its constructors build a MySQL JDBC connection string
from a host, port, database, user and optional password. Its ingest method
works through a delimited text file (tab- or comma-separated) line by line:

- it optionally skips the first line as a header;
- it optionally removes every double quote from a line;
- it splits the line on the delimiter;
- it optionally wraps every field in double quotes;
- it buffers the resulting rows;
- it hands the buffer, once it holds at least `batchSize` rows, to a builder that renders
  one multi-row ``INSERT INTO `table` VALUES (...),(...);`` statement and
  executes it.

After the last line it flushes the rest of the buffer and reports the total.
Four convenience entry points fix the delimiter (tab or comma), the header
flag, the quoting (on) and the batch size (200000).

The Dafny project mirrors the class, one module per concern:

| file | module | what it holds |
|---|---|---|
| `text.dfy` | `Text` | Java's `String.split` for a one-character delimiter (limit 0), `replaceAll` of one character, comma-joining; their inverse laws |
| `row_normalizer.dfy` | `RowNormalizer` | turning one line into one row; the in-place quoting loop over the split's array |
| `insert_builder.dfy` | `InsertBuilder` | the statement builder with its two nested loops, proved to produce `InsertStatement` |
| `ingest.dfy` | `Ingest` | the specification of one ingest as a trace of observable events (`IngestTrace`) and what that trace guarantees |
| `service.dfy` | `SVToMySQL` | the `Service` class: its connection string, constructors, the ingest method and the four entry points |

**Events instead of effects.** What the ingest does to the outside world
is modelled as a sequence of `Event`s:

- the "Processing <file>" message;
- opening the connection to the connection string;
- "Processing batch n";
- "Processing remaining n";
- each call of the statement builder, with the rows and the statement text it executes;
- "Processed n rows.".

The ingest method `Service.SaveSVFileToTable` is proved to return exactly
`IngestTrace` of the normalized rows. The lemmas about `IngestTrace` then say
what every ingest guarantees:

- every row is handed over exactly once and in order;
- every batch but the last holds exactly `Threshold(batchSize)` rows, which is
  `batchSize` when it is at least one and one otherwise (Java's test
  `size >= batchSize` then flushes every row alone);
- the last batch holds at least one row;
- every progress message states the true count;
- every executed statement is the one built for its own rows.

**Split follows the code.** The field splitting follows the Java code:
`String.split` with the default limit. That split drops trailing empty
fields. It returns `[line]` when the delimiter does not occur, so an empty
line gives one empty field. A line made only of delimiters gives no field
at all. One might expect every field, trailing empty ones included, to be
kept; Java's `split` drops trailing empty fields and the model follows it.
`Text.SplitNothing`, `Text.SplitJoinRoundTrip` and `Text.SplitJoinIdentity`
state exactly where the two differ.

**Mutable header flag.** In the Java code, `ignoreFirstRow` is a parameter
that the loop itself clears. The model keeps it as the loop variable
`skipFirst`.

**The connection string field.** The Java field `connectionString` is not
declared final, but it is assigned only in the constructor. The model
therefore declares it as a `const` field of the class.

## Model

Source paths are relative to the repository root.

| member | source | states |
|---|---|---|
| SVToMySQL.Service.constructor | src/main/java/com/kaiios/service/SVToMySQL/SVToMySQLService.java:42-58 | the field holds `jdbc:mysql://host:port/database?user=user`, followed by `&password=<password>` exactly when a password is given |
| SVToMySQL.Service.WithoutPassword | src/main/java/com/kaiios/service/SVToMySQL/SVToMySQLService.java:31-33 | the four-argument constructor gives the connection string of the five-argument one with no password |
| SVToMySQL.ConnectionStringShape | src/main/java/com/kaiios/service/SVToMySQL/SVToMySQLService.java:49-57 | every connection string starts with the `jdbc:mysql://` scheme and ends with the user when there is no password, with the password when there is one |
| SVToMySQL.ConnectionStringPasswordDistinct | src/main/java/com/kaiios/service/SVToMySQL/SVToMySQLService.java:53-55 | for the same host, port, database and user, different passwords (or a password and none) give different connection strings |
| SVToMySQL.Service.SaveSVFileToTable | src/main/java/com/kaiios/service/SVToMySQL/SVToMySQLService.java:116-167 | the ingest's observable behaviour is exactly `IngestTrace` of the normalized rows of the file's lines (header skipped when asked) with batch threshold `Threshold(batchSize)` |
| SVToMySQL.IngestLine | src/main/java/com/kaiios/service/SVToMySQL/SVToMySQLService.java:133-158 | one iteration: the skipped header clears the flag and changes nothing else; any other line's row joins the buffer, which becomes `NextRemainder` while the events are `NextFlush` of that row, and count plus buffer grows by one |
| SVToMySQL.FinishIngest | src/main/java/com/kaiios/service/SVToMySQL/SVToMySQLService.java:161-167 | after the loop: the remainder flush (none for an empty buffer), then "Processed" with the count plus the buffered rows |
| SVToMySQL.Service.SaveTSVFileWithHeaderToTable | src/main/java/com/kaiios/service/SVToMySQL/SVToMySQLService.java:68-70 | the ingest with tab, header skipped, quoting on and 200000 rows per batch; all rows after the first line are handed over in order |
| SVToMySQL.Service.SaveTSVFileWithoutHeaderToTable | src/main/java/com/kaiios/service/SVToMySQL/SVToMySQLService.java:79-81 | the ingest with tab, no header, quoting on and 200000 rows per batch; every line's row is handed over in order |
| SVToMySQL.Service.SaveCSVFileWithHeaderToTable | src/main/java/com/kaiios/service/SVToMySQL/SVToMySQLService.java:90-92 | the ingest with comma, header skipped, quoting on and 200000 rows per batch; all rows after the first line are handed over in order |
| SVToMySQL.Service.SaveCSVFileWithoutHeaderToTable | src/main/java/com/kaiios/service/SVToMySQL/SVToMySQLService.java:101-103 | the ingest with comma, no header, quoting on and 200000 rows per batch; every line's row is handed over in order |
| Ingest.Rows | src/main/java/com/kaiios/service/SVToMySQL/SVToMySQLService.java:132-151 | the rows appended number the lines, less one when the first line is a skipped header (and none for an empty file) |
| Ingest.RowsAt | src/main/java/com/kaiios/service/SVToMySQL/SVToMySQLService.java:132-151 | row `i` is the normalized line `i`, or line `i + 1` when the header is skipped: no line is dropped, reordered or duplicated |
| Ingest.RowsStep | src/main/java/com/kaiios/service/SVToMySQL/SVToMySQLService.java:133-151 | one more line adds nothing when it is the skipped header and exactly its normalized row otherwise |
| Ingest.Threshold | src/main/java/com/kaiios/service/SVToMySQL/SVToMySQLService.java:153 | the threshold is `batchSize` when that is at least one and exactly one when it is below one; in every case it is at least one and at least `batchSize` |
| Ingest.ThresholdFlushTest | src/main/java/com/kaiios/service/SVToMySQL/SVToMySQLService.java:151-153 | on a buffer holding at least one row, the source's test `size >= batchSize` passes exactly when the size has reached `Threshold(batchSize)` |
| Ingest.Remainder | src/main/java/com/kaiios/service/SVToMySQL/SVToMySQLService.java:153-157 | what is left after flushing full batches is shorter than a batch and no longer than the rows |
| Ingest.RemainderIsSuffix | src/main/java/com/kaiios/service/SVToMySQL/SVToMySQLService.java:153-157 | the rows left in the buffer are the last rows read, after the last full batch |
| Ingest.AppendRowRemainder | src/main/java/com/kaiios/service/SVToMySQL/SVToMySQLService.java:151-157 | appending a row to the buffer and clearing it when it reaches the threshold keeps it equal to the remainder of all rows so far |
| Ingest.AppendRowRemainderStep | src/main/java/com/kaiios/service/SVToMySQL/SVToMySQLService.java:151-157 | the inductive step of `AppendRowRemainder`: peeling one full batch off the front does not change the step |
| Ingest.AppendRowFlushes | src/main/java/com/kaiios/service/SVToMySQL/SVToMySQLService.java:151-157 | one more row adds to the in-loop flushes exactly the flush of the batch it completes, if any, numbered with all rows so far |
| Ingest.AppendRowFlushesStep | src/main/java/com/kaiios/service/SVToMySQL/SVToMySQLService.java:151-157 | the inductive step of `AppendRowFlushes` |
| Ingest.FullBatchesUnfoldAppend | src/main/java/com/kaiios/service/SVToMySQL/SVToMySQLService.java:153-157 | with at least one full batch, the flushes of the extended rows are that batch's flush followed by the flushes of the extended rest |
| Ingest.AppendRowStep | src/main/java/com/kaiios/service/SVToMySQL/SVToMySQLService.java:151-158 | the loop's step on rows: the new buffer is the remainder of the rows so far, count plus buffer is their number, and the events extend the in-loop flushes |
| Ingest.IngestLineStep | src/main/java/com/kaiios/service/SVToMySQL/SVToMySQLService.java:132-159 | the loop invariant (buffer = remainder, count + buffer = rows seen, trace = flushes so far, header flag set only before the first line) is kept by each iteration |
| Ingest.LoopPictureDone | src/main/java/com/kaiios/service/SVToMySQL/SVToMySQLService.java:159-167 | after the last line, the trace so far followed by the remainder flush and the total is the whole `IngestTrace` |
| Ingest.FlushEventsBatches | src/main/java/com/kaiios/service/SVToMySQL/SVToMySQLService.java:155-156 | one full-batch flush hands over exactly that batch |
| Ingest.FlushEventsTruthful | src/main/java/com/kaiios/service/SVToMySQL/SVToMySQLService.java:154-156 | the "Processing batch" message of a full-batch flush counts the rows handed over including that batch |
| Ingest.FlushHandOverStep | src/main/java/com/kaiios/service/SVToMySQL/SVToMySQLService.java:156 | a flush in front of later events hands its batch over before theirs |
| Ingest.FullBatchesHandOver | src/main/java/com/kaiios/service/SVToMySQL/SVToMySQLService.java:153-158 | the in-loop flushes hand over, in order, every row except the remainder |
| Ingest.FullBatchesHandOverStep | src/main/java/com/kaiios/service/SVToMySQL/SVToMySQLService.java:153-158 | the inductive step of `FullBatchesHandOver` |
| Ingest.FullBatchesSizes | src/main/java/com/kaiios/service/SVToMySQL/SVToMySQLService.java:153-156 | every in-loop flush hands over exactly a threshold's worth of rows |
| Ingest.FullBatchesSizesStep | src/main/java/com/kaiios/service/SVToMySQL/SVToMySQLService.java:153-156 | the inductive step of `FullBatchesSizes` |
| Ingest.FullBatchesTruthful | src/main/java/com/kaiios/service/SVToMySQL/SVToMySQLService.java:153-156 | every in-loop "Processing batch n" is followed by the insert of a full batch and `n` counts all rows handed over so far; each insert executes its own rows' statement |
| Ingest.FinalFlushFacts | src/main/java/com/kaiios/service/SVToMySQL/SVToMySQLService.java:161-165 | the remainder flush hands over exactly the remainder, its message states that remainder's size, and it is empty exactly when nothing is left |
| Ingest.BatchesAppend | src/main/java/com/kaiios/service/SVToMySQL/SVToMySQLService.java:156 | the batches handed over by consecutive pieces of a trace are those of the first piece then those of the second |
| Ingest.FlattenAppend | src/main/java/com/kaiios/service/SVToMySQL/SVToMySQLService.java:156 | laying batches end to end distributes over consecutive lists of batches |
| Ingest.RowsInsertedAppend | src/main/java/com/kaiios/service/SVToMySQL/SVToMySQLService.java:154 | rows handed over add up across consecutive pieces of a trace |
| Ingest.TruthfulAppend | src/main/java/com/kaiios/service/SVToMySQL/SVToMySQLService.java:154-164 | truthful, settled pieces make a truthful trace, each piece counting on from the rows before it |
| Ingest.MessagesCarryNoBatch | src/main/java/com/kaiios/service/SVToMySQL/SVToMySQLService.java:118-122 | the file announcement, the connection and the final report hand no rows over |
| Ingest.BatchesOfPieces | src/main/java/com/kaiios/service/SVToMySQL/SVToMySQLService.java:118-167 | with silent outer pieces, the batches of an ingest are those of the in-loop flushes then those of the remainder flush |
| Ingest.IngestTracePieces | src/main/java/com/kaiios/service/SVToMySQL/SVToMySQLService.java:118-167 | the batches of a whole ingest are those of its in-loop flushes followed by those of its remainder flush |
| Ingest.IngestTraceFrame | src/main/java/com/kaiios/service/SVToMySQL/SVToMySQLService.java:118-167 | every ingest first announces the file, then opens the connection, and ends by reporting the row count |
| Ingest.IngestTraceHandOver | src/main/java/com/kaiios/service/SVToMySQL/SVToMySQLService.java:132-165 | every row is handed over exactly once and in order, and the number handed over is the number of rows |
| Ingest.IngestTraceBatchSizes | src/main/java/com/kaiios/service/SVToMySQL/SVToMySQLService.java:153-165 | every batch holds between one and `Threshold(batchSize)` rows, and all but the last hold exactly `Threshold(batchSize)` (one row each when `batchSize` is below one) |
| Ingest.IngestTraceTruthful | src/main/java/com/kaiios/service/SVToMySQL/SVToMySQLService.java:154-167 | every "Processing batch n" states the rows handed over so far, every "Processing remaining n" the size of the batch that follows, and each insert executes its own rows' statement |
| Ingest.TruthfulPieces | src/main/java/com/kaiios/service/SVToMySQL/SVToMySQLService.java:118-167 | truthful announcements, in-loop flushes, remainder flush and report make a truthful ingest trace |
| Ingest.SettledAppend | src/main/java/com/kaiios/service/SVToMySQL/SVToMySQLService.java:155-163 | pieces that never end between a message and its insert make a trace that never does either |
| Ingest.RowCount | src/main/java/com/kaiios/service/SVToMySQL/SVToMySQLService.java:132-167 | counting from the file: the rows handed over are all lines, or all lines but the first when the header is skipped, and they are exactly the normalized rows |
| InsertBuilder.InsertMySQLRows | src/main/java/com/kaiios/service/SVToMySQL/SVToMySQLService.java:200-224 | the nested loops build exactly `InsertStatement`: the header, the comma-joined tuples, the semicolon |
| InsertBuilder.Tuples | src/main/java/com/kaiios/service/SVToMySQL/SVToMySQLService.java:207-221 | one tuple per row |
| InsertBuilder.TuplesAt | src/main/java/com/kaiios/service/SVToMySQL/SVToMySQLService.java:207-221 | tuple `j` renders row `j`: rows keep their order in the statement |
| InsertBuilder.JoinedPrefixStep | src/main/java/com/kaiios/service/SVToMySQL/SVToMySQLService.java:209-215 | one iteration of a comma-joining loop appends the next part and a comma unless it is the last part |
| InsertBuilder.JoinedPrefixAll | src/main/java/com/kaiios/service/SVToMySQL/SVToMySQLService.java:207-221 | after all iterations a comma-joining loop has built the parts joined by commas |
| InsertBuilder.InsertStatementShapes | src/main/java/com/kaiios/service/SVToMySQL/SVToMySQLService.java:203-223 | a row with no field renders as `()`, and a one-row statement is the header, that row's tuple and `;` |
| InsertBuilder.TupleRoundTrip | src/main/java/com/kaiios/service/SVToMySQL/SVToMySQLService.java:208-217 | a tuple is parenthesised and, for a non-empty row whose values hold no comma, splitting its inside on commas gives the row back |
| InsertBuilder.EmptyRowsCollide | src/main/java/com/kaiios/service/SVToMySQL/SVToMySQLService.java:208-217 | the row with no field and the row with one empty field both render as `()`, so the statement cannot tell them apart |
| RowNormalizer.NormalizeLine | src/main/java/com/kaiios/service/SVToMySQL/SVToMySQLService.java:138-149 | the row built for a line is `NormalizedRow`: quotes removed when asked, split on the delimiter, each field quoted when asked |
| RowNormalizer.QuoteInPlace | src/main/java/com/kaiios/service/SVToMySQL/SVToMySQLService.java:145-149 | the in-place loop replaces each array element by itself in double quotes, and nothing else |
| RowNormalizer.QuoteAll | src/main/java/com/kaiios/service/SVToMySQL/SVToMySQLService.java:146-148 | wrapping keeps the number of fields |
| RowNormalizer.QuoteAllAt | src/main/java/com/kaiios/service/SVToMySQL/SVToMySQLService.java:147 | field `k` of the wrapped row is field `k` in double quotes |
| RowNormalizer.QuoteAllPointwise | src/main/java/com/kaiios/service/SVToMySQL/SVToMySQLService.java:146-148 | any sequence that quotes the fields one by one, in place, is the wrapped row |
| RowNormalizer.NormalizedRowFields | src/main/java/com/kaiios/service/SVToMySQL/SVToMySQLService.java:139-149 | the row has one value per split field and no field holds the delimiter; with quoting on each value is a quote-free field in double quotes, without it the field itself |
| RowNormalizer.SplitFieldsAvoid | src/main/java/com/kaiios/service/SVToMySQL/SVToMySQLService.java:140-143 | a character removed from the line is absent from every field of the split |
| RowNormalizer.SplitAllAvoid | src/main/java/com/kaiios/service/SVToMySQL/SVToMySQLService.java:140-143 | a character absent from the line is absent from every field of the full split |
| RowNormalizer.FieldsRoundTrip | src/main/java/com/kaiios/service/SVToMySQL/SVToMySQLService.java:139-143 | joining the fields of a line with the delimiter gives back the (quote-free) line without its trailing delimiters |
| RowNormalizer.QuotesInLineIgnored | src/main/java/com/kaiios/service/SVToMySQL/SVToMySQLService.java:139-141 | with quoting on, a double quote anywhere in the line does not change its row |
| Text.SplitAll | src/main/java/com/kaiios/service/SVToMySQL/SVToMySQLService.java:143 | the full split has one field more than the line has delimiters, no field holds the delimiter, and a delimiter-free line is its own single field |
| Text.TrimTrailing | src/main/java/com/kaiios/service/SVToMySQL/SVToMySQLService.java:143 | the trimmed line is a prefix of the line, everything cut is the delimiter, and it does not end with the delimiter |
| Text.DropTrailingEmpty | src/main/java/com/kaiios/service/SVToMySQL/SVToMySQLService.java:143 | the kept fields are a prefix, everything dropped is empty, and the last kept field is not empty |
| Text.Split | src/main/java/com/kaiios/service/SVToMySQL/SVToMySQLService.java:143 | no field holds the delimiter, a delimiter-free line is one field, `[""]` comes exactly from the empty line, and a non-empty line never yields a trailing empty field |
| Text.RemoveAll | src/main/java/com/kaiios/service/SVToMySQL/SVToMySQLService.java:140 | the result holds no copy of the character, is shorter by exactly the number of its occurrences, and is the line itself when there were none |
| Text.JoinSplitAll | src/main/java/com/kaiios/service/SVToMySQL/SVToMySQLService.java:143 | joining the full split with the delimiter gives the line back |
| Text.SplitAllJoin | src/main/java/com/kaiios/service/SVToMySQL/SVToMySQLService.java:143 | splitting a non-empty list of delimiter-free fields, joined with the delimiter, gives the fields back |
| Text.SplitAllConcat | src/main/java/com/kaiios/service/SVToMySQL/SVToMySQLService.java:143 | splitting `x`, a delimiter, `y` gives the fields of `x` then those of `y` |
| Text.DropSplitAllTrim | src/main/java/com/kaiios/service/SVToMySQL/SVToMySQLService.java:143 | trailing delimiters only add trailing empty fields, which the split discards |
| Text.SplitAllLastEmpty | src/main/java/com/kaiios/service/SVToMySQL/SVToMySQLService.java:143 | the last field of the full split is empty exactly when the line is empty or ends with the delimiter |
| Text.SplitJoinRoundTrip | src/main/java/com/kaiios/service/SVToMySQL/SVToMySQLService.java:143 | joining Java's split with the delimiter gives the line without its trailing delimiters |
| Text.SplitNothing | src/main/java/com/kaiios/service/SVToMySQL/SVToMySQLService.java:143 | the split yields no field at all exactly for a non-empty line made only of delimiters |
| Text.SplitJoinIdentity | src/main/java/com/kaiios/service/SVToMySQL/SVToMySQLService.java:143 | on a line not ending with the delimiter, split then join is the identity |
| Text.RemoveAllConcat | src/main/java/com/kaiios/service/SVToMySQL/SVToMySQLService.java:140 | quote removal works piece by piece |
| Text.RemoveAllIgnoresInserted | src/main/java/com/kaiios/service/SVToMySQL/SVToMySQLService.java:140 | inserting the removed character anywhere does not change the result |

## Left out

- Loading the JDBC driver (`Class.forName`) and the connection object: the connection is modelled as the `OpenConnection` event carrying the connection string. Executing a statement is modelled as an `Insert` event carrying the rows and the statement text. The database itself is not modelled.
- File I/O: the file is given as its sequence of decoded lines. `fileEncoding` is accepted but plays no part, and opening, reading and closing the file are not modelled.
- Exceptions and the clean-up in `finally`: the model follows the path on which no exception is raised. Missing files, read errors, SQL errors and the null-pointer clean-up are not modelled, and neither is `printStackTrace`.
- Console output: each `println` is modelled as an event carrying the number or path it prints, not as the exact text.
- The delimiter: it is a regular expression in Java. The model covers a delimiter that matches exactly one literal character; the tab (`"\\t"`) and comma used by the entry points are such delimiters. Other regular expressions are not modelled.
- Null arguments: a null host, port, database or user makes Java append the text `null`, and this is not modelled. The optional password is an `Option` (`None` stands for Java's `null`).
- SVToMySQL.Service.SaveSVFileToTable: the count `currentBatch` is an unbounded integer, so Java's 32-bit overflow past 2147483647 rows is not modelled.
- SVToMySQL.Service.SaveSVFileToTable: the loop body and the code after the loop are factored into the methods `IngestLine` and `FinishIngest`. The method's buffer is a local `seq` that these methods take and return, rather than a `List` cleared in place. Besides the loop, only the statement builder reads the list, synchronously, during each flush; it receives the same rows as a value.
- SQL escaping: values are inserted verbatim, as in the source, and the model proves nothing about the safety of the resulting SQL.
