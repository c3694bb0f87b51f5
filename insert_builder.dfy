/**
 * Composition of the multi-row INSERT statement sent for one batch:
 * INSERT INTO `table` VALUES (f,...,f),(f,...),...;
 * Field values are pasted verbatim; nothing is escaped.
 */
module InsertBuilder {
  import opened Text
  import opened RowNormalizer

  /** The separator between values and between tuples. */
  const CommaMark: char := ','
  const Comma: string := [CommaMark]

  /** One row rendered as a parenthesised, comma-separated tuple. */
  function Tuple(row: Row): string {
    "(" + Join(row, Comma) + ")"
  }

  /** The tuples of `rows`, in order. */
  function Tuples(rows: seq<Row>): (tuples: seq<string>)
    ensures |tuples| == |rows|
    decreases |rows|
  {
    if |rows| == 0 then [] else Tuples(rows[..|rows| - 1]) + [Tuple(rows[|rows| - 1])]
  }

  /** The `j`-th tuple renders the `j`-th row. */
  lemma {:induction false} TuplesAt(rows: seq<Row>, j: int)
    requires 0 <= j < |rows|
    ensures Tuples(rows)[j] == Tuple(rows[j])
    decreases |rows|
  {
    if j < |rows| - 1 {
      var init := rows[..|rows| - 1];
      TuplesAt(init, j);
      assert init[j] == rows[j];
    }
  }

  /** The statement text up to the value list. */
  function Header(tableName: string): string {
    "INSERT INTO `" + tableName + "` VALUES "
  }

  /** The whole statement for one batch. */
  function InsertStatement(tableName: string, rows: seq<Row>): string {
    Header(tableName) + Join(Tuples(rows), Comma) + ";"
  }

  /**
   * Builds the statement by appending to one buffer: the header, then per row
   * an opening parenthesis, the fields with a comma after all but the last,
   * a closing parenthesis and a comma after all but the last row, then the
   * semicolon. Executing it is left to the caller.
   */
  method InsertMySQLRows(tableName: string, rows: seq<Row>) returns (query: string)
    ensures query == InsertStatement(tableName, rows)
  {
    var queryBuilder := "INSERT INTO ";
    queryBuilder := queryBuilder + "`" + tableName + "`";
    queryBuilder := queryBuilder + " VALUES ";
    ghost var tuples := Tuples(rows);
    for j := 0 to |rows|
      invariant queryBuilder == Header(tableName) + JoinedPrefix(tuples, j, Comma)
    {
      var row := rows[j];
      ghost var before := JoinedPrefix(tuples, j, Comma);
      queryBuilder := queryBuilder + "(";
      ghost var started := queryBuilder;
      for i := 0 to |row|
        invariant queryBuilder == started + JoinedPrefix(row, i, Comma)
      {
        JoinedPrefixStep(row, i, Comma);
        AppendStep(started, JoinedPrefix(row, i, Comma), row[i], if i < |row| - 1 then Comma else "");
        queryBuilder := queryBuilder + row[i];
        if i < |row| - 1 {
          queryBuilder := queryBuilder + Comma;
        }
      }
      JoinedPrefixAll(row, Comma);
      JoinedPrefixStep(tuples, j, Comma);
      TuplesAt(rows, j);
      TupleStep(Header(tableName), before, row, if j < |rows| - 1 then Comma else "");
      queryBuilder := queryBuilder + ")";
      if j < |rows| - 1 {
        queryBuilder := queryBuilder + Comma;
      }
    }
    JoinedPrefixAll(tuples, Comma);
    queryBuilder := queryBuilder + ";";
    query := queryBuilder;
  }

  /** One append of a part and its separator, regrouped. */
  lemma AppendStep(built: string, joined: string, part: string, sep: string)
    ensures built + joined + part + sep == built + (joined + part + sep)
  {
    ConcatAssoc(built, joined, part);
    ConcatAssoc(built, joined + part, sep);
  }

  /** Closing a row's tuple after the tuples before it, regrouped. */
  lemma TupleStep(header: string, before: string, row: Row, sep: string)
    ensures header + before + "(" + Join(row, Comma) + ")" + sep == header + (before + Tuple(row) + sep)
  {
    var t := Join(row, Comma);
    ConcatAssoc(header, before, "(");
    ConcatAssoc(header, before + "(", t);
    ConcatAssoc(header, before + "(" + t, ")");
    ConcatAssoc(header, before + "(" + t + ")", sep);
    ConcatAssoc(before, "(" + t, ")");
    ConcatAssoc(before, "(", t);
  }

  /**
   * What a loop that appends `parts[i]` followed by `sep` for all but the
   * last part has built after `j` parts.
   */
  function JoinedPrefix(parts: seq<string>, j: int, sep: string): string
    requires 0 <= j <= |parts|
  {
    Join(parts[..j], sep) + (if 0 < j < |parts| then sep else "")
  }

  /** One more iteration of such a loop. */
  lemma JoinedPrefixStep(parts: seq<string>, j: int, sep: string)
    requires 0 <= j < |parts|
    ensures JoinedPrefix(parts, j + 1, sep) == JoinedPrefix(parts, j, sep) + parts[j] + (if j < |parts| - 1 then sep else "")
  {
    assert parts[..j + 1][..j] == parts[..j];
  }

  /** After all parts the loop has built the joined text. */
  lemma JoinedPrefixAll(parts: seq<string>, sep: string)
    ensures JoinedPrefix(parts, |parts|, sep) == Join(parts, sep)
  {
    assert parts[..|parts|] == parts;
  }

  /** A row with no field renders as `()`, and a single row is the whole value list. */
  lemma InsertStatementShapes(tableName: string, row: Row)
    ensures Tuple([]) == "()"
    ensures InsertStatement(tableName, [row]) == Header(tableName) + Tuple(row) + ";"
  {
    assert Tuples([row]) == [Tuple(row)];
  }

  /**
   * The fields are copied verbatim: for a non-empty row none of whose values
   * contains a comma, splitting the text between the parentheses on commas
   * gives the row back.
   */
  lemma TupleRoundTrip(row: Row)
    requires |row| >= 1
    requires forall k :: 0 <= k < |row| ==> CommaMark !in row[k]
    ensures var t := Tuple(row); t[0] == '(' && t[|t| - 1] == ')' && SplitAll(t[1..|t| - 1], CommaMark) == row
  {
    var t := Tuple(row);
    assert t[1..|t| - 1] == Join(row, Comma);
    SplitAllJoin(row, CommaMark);
  }

  /**
   * Why `TupleRoundTrip` needs a non-empty row: the row with no field (from a
   * line made only of delimiters) and the row with one empty field render as
   * the same tuple, so the statement does not tell them apart.
   */
  lemma EmptyRowsCollide()
    ensures Tuple([]) == Tuple([""]) == "()"
  {
  }

  /** Every statement is the header, the tuples joined by commas, and a closing semicolon. */
  lemma InsertStatementValues(tableName: string, rows: seq<Row>)
    ensures var s := InsertStatement(tableName, rows); var h := |Header(tableName)|;
      |s| > h && s[..h] == Header(tableName) && s[h..|s| - 1] == Join(Tuples(rows), Comma) && s[|s| - 1] == ';'
  {
  }
}
