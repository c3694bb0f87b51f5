/**
 * The string operations the ingest relies on: Java's `String.split` with a
 * one-character literal delimiter and limit 0, `replaceAll` of one literal
 * character, and the comma-joining done by the INSERT builder.
 *
 * All recursive definitions peel the LAST element, so that they line up with
 * loops that append at the end.
 */
module Text {

  /** Concatenation regroups freely. */
  lemma ConcatAssoc<T>(a: seq<T>, b: seq<T>, c: seq<T>)
    ensures (a + b) + c == a + (b + c)
  {
  }

  /** `parts` with `sep` between consecutive parts. */
  function Join(parts: seq<string>, sep: string): string
    decreases |parts|
  {
    if |parts| == 0 then ""
    else if |parts| == 1 then parts[0]
    else Join(parts[..|parts| - 1], sep) + sep + parts[|parts| - 1]
  }

  /**
   * Every field between occurrences of `d`, empty ones included: the
   * reference split, with one more field than `s` has delimiters.
   */
  function SplitAll(s: string, d: char): (fields: seq<string>)
    ensures |fields| == 1 + Occurrences(s, d)
    ensures forall k :: 0 <= k < |fields| ==> d !in fields[k]
    ensures d !in s ==> fields == [s]
    decreases |s|
  {
    if |s| == 0 then [""]
    else
      var init := SplitAll(s[..|s| - 1], d);
      var c := s[|s| - 1];
      assert s == s[..|s| - 1] + [c];
      if c == d then init + [""] else ExtendLast(init, c)
  }

  /** `fields` with `c` appended to its last field. */
  function ExtendLast(fields: seq<string>, c: char): seq<string>
    requires |fields| >= 1
  {
    fields[..|fields| - 1] + [fields[|fields| - 1] + [c]]
  }

  /** Number of positions of `s` holding `c`. */
  function Occurrences(s: string, c: char): nat
    decreases |s|
  {
    if |s| == 0 then 0
    else Occurrences(s[..|s| - 1], c) + (if s[|s| - 1] == c then 1 else 0)
  }

  /** `s` without its trailing run of `d`. */
  function TrimTrailing(s: string, d: char): (r: string)
    ensures |r| <= |s| && r == s[..|r|]
    ensures forall k :: |r| <= k < |s| ==> s[k] == d
    ensures r == "" || r[|r| - 1] != d
    decreases |s|
  {
    if |s| > 0 && s[|s| - 1] == d then TrimTrailing(s[..|s| - 1], d) else s
  }

  /** `fields` without its trailing run of empty strings. */
  function DropTrailingEmpty(fields: seq<string>): (r: seq<string>)
    ensures |r| <= |fields| && r == fields[..|r|]
    ensures forall k :: |r| <= k < |fields| ==> fields[k] == ""
    ensures r == [] || r[|r| - 1] != ""
    decreases |fields|
  {
    if |fields| > 0 && fields[|fields| - 1] == "" then DropTrailingEmpty(fields[..|fields| - 1])
    else fields
  }

  /**
   * Java's `s.split(regex)` (limit 0) when the regex matches exactly the one
   * character `d`: if `d` does not occur the result is `[s]` (so the empty
   * line gives one empty field); otherwise all fields, with the trailing
   * empty ones removed (a leading empty field is kept).
   */
  function Split(s: string, d: char): (fields: seq<string>)
    ensures forall k :: 0 <= k < |fields| ==> d !in fields[k]
    ensures d !in s ==> fields == [s]
    ensures fields == [""] <==> s == ""
    ensures s != "" ==> fields == [] || fields[|fields| - 1] != ""
  {
    if s == "" then [""] else DropTrailingEmpty(SplitAll(s, d))
  }

  /** `s` with every occurrence of `c` deleted (Java's `replaceAll` with an empty replacement). */
  function RemoveAll(s: string, c: char): (r: string)
    ensures c !in r
    ensures |r| == |s| - Occurrences(s, c)
    ensures c !in s ==> r == s
    decreases |s|
  {
    if |s| == 0 then ""
    else
      var init := RemoveAll(s[..|s| - 1], c);
      assert s == s[..|s| - 1] + [s[|s| - 1]];
      if s[|s| - 1] == c then init else init + [s[|s| - 1]]
  }

  // ---------------------------------------------------------------------
  // Split and Join are inverse to each other
  // ---------------------------------------------------------------------

  /** Joining the reference split with the delimiter gives back the input. */
  lemma {:induction false} JoinSplitAll(s: string, d: char)
    ensures Join(SplitAll(s, d), [d]) == s
    decreases |s|
  {
    if |s| > 0 {
      var s' := s[..|s| - 1];
      var c := s[|s| - 1];
      assert s == s' + [c];
      JoinSplitAll(s', d);
      var init := SplitAll(s', d);
      var n := |init|;
      if c == d {
        assert SplitAll(s, d) == init + [""];
        assert (init + [""])[..n] == init;
      } else {
        var fields := init[..n - 1] + [init[n - 1] + [c]];
        assert SplitAll(s, d) == fields;
        if n > 1 {
          assert fields[..n - 1] == init[..n - 1];
          assert Join(init, [d]) == Join(init[..n - 1], [d]) + [d] + init[n - 1];
        }
      }
    }
  }

  /** One more character at the end either opens a new field or extends the last one. */
  lemma SplitAllSnoc(s: string, c: char, d: char)
    ensures SplitAll(s + [c], d) == if c == d then SplitAll(s, d) + [""] else ExtendLast(SplitAll(s, d), c)
  {
    assert (s + [c])[..|s|] == s;
  }

  /** Extending the last field of a concatenation extends the last field of its second part. */
  lemma ExtendLastAppend(left: seq<string>, right: seq<string>, c: char)
    requires |right| >= 1
    ensures ExtendLast(left + right, c) == left + ExtendLast(right, c)
  {
    assert (left + right)[..|left + right| - 1] == left + right[..|right| - 1];
  }

  /** The reference split distributes over a delimiter: `x d y` splits into the fields of `x` then those of `y`. */
  lemma {:induction false} SplitAllConcat(x: string, y: string, d: char)
    ensures SplitAll(x + [d] + y, d) == SplitAll(x, d) + SplitAll(y, d)
    decreases |y|
  {
    if |y| == 0 {
      assert x + [d] + y == x + [d];
      SplitAllSnoc(x, d, d);
    } else {
      var y' := y[..|y| - 1];
      var c := y[|y| - 1];
      var u := x + [d] + y';
      assert x + [d] + y == u + [c];
      assert y == y' + [c];
      SplitAllConcat(x, y', d);
      SplitAllSnoc(u, c, d);
      SplitAllSnoc(y', c, d);
      if c != d {
        ExtendLastAppend(SplitAll(x, d), SplitAll(y', d), c);
      }
    }
  }

  /** Splitting a non-empty list of delimiter-joined fields gives the fields back, provided none contains the delimiter. */
  lemma {:induction false} SplitAllJoin(fields: seq<string>, d: char)
    requires |fields| >= 1
    requires forall k :: 0 <= k < |fields| ==> d !in fields[k]
    ensures SplitAll(Join(fields, [d]), d) == fields
    decreases |fields|
  {
    if |fields| > 1 {
      var init := fields[..|fields| - 1];
      SplitAllJoin(init, d);
      SplitAllConcat(Join(init, [d]), fields[|fields| - 1], d);
      assert fields == init + [fields[|fields| - 1]];
    }
  }

  /** Trailing delimiters only add trailing empty fields, which `DropTrailingEmpty` removes again. */
  lemma {:induction false} DropSplitAllTrim(s: string, d: char)
    ensures DropTrailingEmpty(SplitAll(s, d)) == DropTrailingEmpty(SplitAll(TrimTrailing(s, d), d))
    decreases |s|
  {
    if |s| > 0 && s[|s| - 1] == d {
      var s' := s[..|s| - 1];
      assert s == s' + [d];
      assert SplitAll(s, d) == SplitAll(s', d) + [""];
      assert (SplitAll(s', d) + [""])[..|SplitAll(s', d)|] == SplitAll(s', d);
      DropSplitAllTrim(s', d);
    }
  }

  /** The last field of the reference split is empty exactly when `s` is empty or ends with `d`. */
  lemma {:induction false} SplitAllLastEmpty(s: string, d: char)
    ensures var fields := SplitAll(s, d); fields[|fields| - 1] == "" <==> (s == "" || s[|s| - 1] == d)
  {
    if |s| > 0 {
      assert s == s[..|s| - 1] + [s[|s| - 1]];
    }
  }

  /**
   * Round trip of Java's split: joining the fields with the delimiter gives
   * back the line without its trailing run of delimiters.
   */
  lemma SplitJoinRoundTrip(s: string, d: char)
    ensures Join(Split(s, d), [d]) == TrimTrailing(s, d)
  {
    if s != "" {
      var t := TrimTrailing(s, d);
      DropSplitAllTrim(s, d);
      SplitAllLastEmpty(t, d);
      JoinSplitAll(t, d);
    }
  }

  /** Java's split yields no field at all exactly for a non-empty line made only of delimiters. */
  lemma SplitNothing(s: string, d: char)
    ensures Split(s, d) == [] <==> s != "" && forall k :: 0 <= k < |s| ==> s[k] == d
  {
    var t := TrimTrailing(s, d);
    if s != "" {
      DropSplitAllTrim(s, d);
      SplitAllLastEmpty(t, d);
      if t == "" {
        assert SplitAll(t, d) == [""];
      } else {
        assert s[|t| - 1] == t[|t| - 1];
      }
    }
  }

  /** Splitting on `d` then joining with `d` is the identity on lines that do not end with `d`. */
  lemma SplitJoinIdentity(s: string, d: char)
    requires s == "" || s[|s| - 1] != d
    ensures Join(Split(s, d), [d]) == s
  {
    SplitJoinRoundTrip(s, d);
  }

  // ---------------------------------------------------------------------
  // Removing a character
  // ---------------------------------------------------------------------

  /** Removal of a character works piecewise. */
  lemma {:induction false} RemoveAllConcat(a: string, b: string, c: char)
    ensures RemoveAll(a + b, c) == RemoveAll(a, c) + RemoveAll(b, c)
    decreases |b|
  {
    if |b| == 0 {
      assert a + b == a;
    } else {
      var b' := b[..|b| - 1];
      assert (a + b)[..|a + b| - 1] == a + b';
      RemoveAllConcat(a, b', c);
    }
  }

  /** However many copies of `c` are inserted into a string, the result of removal is the same. */
  lemma RemoveAllIgnoresInserted(a: string, b: string, c: char)
    ensures RemoveAll(a + [c] + b, c) == RemoveAll(a + b, c)
  {
    RemoveAllConcat(a + [c], b, c);
    RemoveAllConcat(a, [c], c);
    RemoveAllConcat(a, b, c);
    assert RemoveAll([c], c) == "" by {
      assert [c][..0] == "";
    }
  }
}
