/**
 * The per-line step of the ingest loop: optional removal of every double
 * quote, Java's split on the delimiter, then optional wrapping of every field
 * in double quotes, done in place on the array the split returned.
 */
module RowNormalizer {
  import opened Text

  /** One parsed line: its field values, in order. */
  type Row = seq<string>

  const QuoteMark: char := '"'

  /** `field` wrapped in double quotes. */
  function Quote(field: string): string {
    [QuoteMark] + field + [QuoteMark]
  }

  /** The text that is split: the line itself, or the line with its quotes removed. */
  function Cleaned(line: string, enforceDoubleQuotes: bool): string {
    if enforceDoubleQuotes then RemoveAll(line, QuoteMark) else line
  }

  /** The fields of `line` before any wrapping. */
  function Fields(line: string, delimiter: char, enforceDoubleQuotes: bool): seq<string> {
    Split(Cleaned(line, enforceDoubleQuotes), delimiter)
  }

  /** Every field wrapped in double quotes, in order. */
  function QuoteAll(fields: seq<string>): (quoted: seq<string>)
    ensures |quoted| == |fields|
    decreases |fields|
  {
    if |fields| == 0 then [] else QuoteAll(fields[..|fields| - 1]) + [Quote(fields[|fields| - 1])]
  }

  /** The `k`-th quoted field is the `k`-th field in quotes. */
  lemma {:induction false} QuoteAllAt(fields: seq<string>, k: int)
    requires 0 <= k < |fields|
    ensures QuoteAll(fields)[k] == Quote(fields[k])
    decreases |fields|
  {
    if k < |fields| - 1 {
      var init := fields[..|fields| - 1];
      QuoteAllAt(init, k);
      assert init[k] == fields[k];
    }
  }

  /** The row the ingest loop appends for `line`. */
  function NormalizedRow(line: string, delimiter: char, enforceDoubleQuotes: bool): Row {
    var fields := Fields(line, delimiter, enforceDoubleQuotes);
    if enforceDoubleQuotes then QuoteAll(fields) else fields
  }

  /**
   * The body of the ingest loop between reading a line and appending it to
   * the batch. The wrapping loop overwrites the split's array in place.
   */
  method NormalizeLine(line: string, delimiter: char, enforceDoubleQuotes: bool) returns (rowValues: Row)
    ensures rowValues == NormalizedRow(line, delimiter, enforceDoubleQuotes)
  {
    var text := line;
    if enforceDoubleQuotes {
      text := RemoveAll(text, QuoteMark);
    }
    var fields := Split(text, delimiter);
    var values := new string[|fields|](k requires 0 <= k < |fields| => fields[k]);
    assert values[..] == fields;
    if enforceDoubleQuotes {
      QuoteInPlace(values);
    }
    rowValues := values[..];
  }

  /** The wrapping loop: every element of the split's array is replaced by its quoted form, in place. */
  method QuoteInPlace(values: array<string>)
    modifies values
    ensures values[..] == QuoteAll(old(values[..]))
  {
    ghost var fields := values[..];
    for j := 0 to values.Length
      invariant forall k :: 0 <= k < j ==> values[k] == Quote(fields[k])
      invariant forall k :: j <= k < values.Length ==> values[k] == fields[k]
    {
      values[j] := Quote(values[j]);
    }
    QuoteAllPointwise(fields, values[..]);
  }

  /** A sequence that quotes `fields` one by one is `QuoteAll(fields)`. */
  lemma QuoteAllPointwise(fields: seq<string>, quoted: seq<string>)
    requires |quoted| == |fields|
    requires forall k :: 0 <= k < |fields| ==> quoted[k] == Quote(fields[k])
    ensures quoted == QuoteAll(fields)
  {
    forall k | 0 <= k < |fields|
      ensures quoted[k] == QuoteAll(fields)[k]
    {
      QuoteAllAt(fields, k);
    }
  }

  /**
   * With quotes enforced, every emitted field is a quote, a text free of
   * quotes and of the delimiter, and a closing quote; without, the fields
   * are the split of the raw line.
   */
  lemma NormalizedRowFields(line: string, delimiter: char, enforceDoubleQuotes: bool)
    ensures var row := NormalizedRow(line, delimiter, enforceDoubleQuotes);
      var fields := Fields(line, delimiter, enforceDoubleQuotes);
      |row| == |fields| &&
      forall k :: 0 <= k < |row| ==>
        delimiter !in fields[k] &&
        (enforceDoubleQuotes ==> row[k] == Quote(fields[k]) && QuoteMark !in fields[k]) &&
        (!enforceDoubleQuotes ==> row[k] == fields[k])
  {
    if enforceDoubleQuotes {
      var cleaned := RemoveAll(line, QuoteMark);
      var fields := Split(cleaned, delimiter);
      forall k | 0 <= k < |fields|
        ensures QuoteMark !in fields[k] && QuoteAll(fields)[k] == Quote(fields[k])
      {
        SplitFieldsAvoid(cleaned, delimiter, QuoteMark, k);
        QuoteAllAt(fields, k);
      }
    }
  }

  /** A character absent from the line is absent from each of its fields. */
  lemma SplitFieldsAvoid(s: string, d: char, c: char, k: int)
    requires c !in s
    requires 0 <= k < |Split(s, d)|
    ensures c !in Split(s, d)[k]
  {
    if s != "" {
      var all := SplitAll(s, d);
      SplitAllAvoid(s, d, c);
      assert Split(s, d)[k] == all[k];
    }
  }

  /** A character absent from the line is absent from each field of the reference split. */
  lemma {:induction false} SplitAllAvoid(s: string, d: char, c: char)
    requires c !in s
    ensures forall k :: 0 <= k < |SplitAll(s, d)| ==> c !in SplitAll(s, d)[k]
    decreases |s|
  {
    if |s| > 0 {
      var s' := s[..|s| - 1];
      var last := s[|s| - 1];
      assert c !in s' by {
        forall i | 0 <= i < |s'| ensures s'[i] != c { assert s'[i] == s[i]; }
      }
      SplitAllAvoid(s', d, c);
      assert s == s' + [last];
      SplitAllSnoc(s', last, d);
      var before := SplitAll(s', d);
      var after := SplitAll(s, d);
      forall k | 0 <= k < |after|
        ensures c !in after[k]
      {
        if k < |before| - 1 || (last == d && k < |before|) {
          assert after[k] == before[k];
        } else if last == d {
          assert after[k] == "";
        } else {
          assert after[k] == before[k] + [last];
        }
      }
    }
  }

  /**
   * Joining the unwrapped fields with the delimiter gives back the line (its
   * quotes removed when enforced) without its trailing run of delimiters.
   */
  lemma FieldsRoundTrip(line: string, delimiter: char, enforceDoubleQuotes: bool)
    ensures Join(Fields(line, delimiter, enforceDoubleQuotes), [delimiter])
         == TrimTrailing(Cleaned(line, enforceDoubleQuotes), delimiter)
  {
    SplitJoinRoundTrip(Cleaned(line, enforceDoubleQuotes), delimiter);
  }

  /**
   * The quotes a field carried in the file do not matter: inserting a quote
   * anywhere in a line leaves its normalized row unchanged.
   */
  lemma QuotesInLineIgnored(before: string, after: string, delimiter: char)
    ensures NormalizedRow(before + [QuoteMark] + after, delimiter, true)
         == NormalizedRow(before + after, delimiter, true)
  {
    RemoveAllIgnoresInserted(before, after, QuoteMark);
  }
}
