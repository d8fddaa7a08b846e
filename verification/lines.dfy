/** Splitting text into lines and joining it back: Python's `s.split(sep)` for a
    one-character separator, `sep.join(pieces)`, and `s.splitlines()`. */
module Lines {

  /** Index of the first `c` in `s`, or |s| when `c` does not occur. */
  function IndexOf(s: string, c: char): (i: nat)
    ensures i <= |s|
    ensures forall k :: 0 <= k < i ==> s[k] != c
    ensures i < |s| ==> s[i] == c
    decreases |s|
  {
    if s == [] then 0 else if s[0] == c then 0 else 1 + IndexOf(s[1..], c)
  }

  /** Python's `s.split(sep)`: the pieces between occurrences of `sep`; there is always
      at least one piece, and no piece contains `sep`. */
  function Split(s: string, sep: char): (pieces: seq<string>)
    ensures |pieces| >= 1
    ensures forall k :: 0 <= k < |pieces| ==> sep !in pieces[k]
    decreases |s|
  {
    var i := IndexOf(s, sep);
    if i == |s| then
      assert forall k :: 0 <= k < |s| ==> s[k] != sep;
      [s]
    else
      assert forall k :: 0 <= k < i ==> s[..i][k] != sep;
      [s[..i]] + Split(s[i + 1..], sep)
  }

  /** Python's `sep.join(pieces)`. */
  function Join(pieces: seq<string>, sep: char): string
    decreases |pieces|
  {
    if pieces == [] then []
    else if |pieces| == 1 then pieces[0]
    else pieces[0] + [sep] + Join(pieces[1..], sep)
  }

  /** Joining the pieces of a split restores the text. */
  lemma {:induction false} JoinSplit(s: string, sep: char)
    ensures Join(Split(s, sep), sep) == s
    decreases |s|
  {
    var i := IndexOf(s, sep);
    if i < |s| {
      JoinSplit(s[i + 1..], sep);
      assert s == s[..i] + [sep] + s[i + 1..];
    }
  }

  /** Splitting a join of separator-free pieces restores the pieces. */
  lemma {:induction false} SplitJoin(pieces: seq<string>, sep: char)
    requires |pieces| >= 1
    requires forall k :: 0 <= k < |pieces| ==> sep !in pieces[k]
    ensures Split(Join(pieces, sep), sep) == pieces
    decreases |pieces|
  {
    var s := Join(pieces, sep);
    if |pieces| == 1 {
      assert IndexOf(s, sep) == |s|;
    } else {
      var p := pieces[0];
      var rest := Join(pieces[1..], sep);
      assert s == p + [sep] + rest;
      assert s[|p|] == sep;
      assert forall k :: 0 <= k < |p| ==> s[k] == p[k];
      assert IndexOf(s, sep) == |p|;
      assert s[..|p|] == p;
      assert s[|p| + 1..] == rest;
      SplitJoin(pieces[1..], sep);
    }
  }

  function Last(pieces: seq<string>): string
    requires pieces != []
  {
    pieces[|pieces| - 1]
  }

  /** The last piece of a split is the part of the text after the last separator:
      a suffix free of `sep`, preceded by `sep` unless it is the whole text. */
  lemma {:induction false} LastPiece(s: string, sep: char)
    ensures |Last(Split(s, sep))| <= |s|
    ensures s[|s| - |Last(Split(s, sep))|..] == Last(Split(s, sep))
    ensures |Last(Split(s, sep))| == |s| || s[|s| - |Last(Split(s, sep))| - 1] == sep
    decreases |s|
  {
    var i := IndexOf(s, sep);
    if i < |s| {
      var t := s[i + 1..];
      LastPiece(t, sep);
      var p := Last(Split(t, sep));
      assert Split(s, sep) == [s[..i]] + Split(t, sep);
      assert Last(Split(s, sep)) == p;
      assert s[|s| - |p|..] == t[|t| - |p|..];
      if |p| == |t| {
        assert |s| - |p| - 1 == i;
      } else {
        assert s[|s| - |p| - 1] == t[|t| - |p| - 1];
      }
    }
  }

  /** The characters Python's `str.splitlines()` breaks lines at. */
  predicate IsLineBoundary(c: char) {
    || c == '\n' || c == '\r' || c == '\U{000B}' || c == '\U{000C}'
    || c == '\U{001C}' || c == '\U{001D}' || c == '\U{001E}'
    || c == '\U{0085}' || c == '\U{2028}' || c == '\U{2029}'
  }

  /** A line holds no line-boundary character. */
  predicate NoLineBoundary(line: string) {
    forall j :: 0 <= j < |line| ==> !IsLineBoundary(line[j])
  }

  /** Index of the first line boundary in `s`, or |s| when there is none. */
  function LineEnd(s: string): (i: nat)
    ensures i <= |s|
    ensures forall k :: 0 <= k < i ==> !IsLineBoundary(s[k])
    ensures i < |s| ==> IsLineBoundary(s[i])
    decreases |s|
  {
    if s == [] || IsLineBoundary(s[0]) then 0 else 1 + LineEnd(s[1..])
  }

  /** Where the next line starts after the boundary at `i`: `\r\n` is one boundary. */
  function BreakEnd(s: string, i: nat): (next: nat)
    requires i < |s|
    ensures i < next <= |s|
  {
    if s[i] == '\r' && i + 1 < |s| && s[i + 1] == '\n' then i + 2 else i + 1
  }

  /** Python's `s.splitlines()`: the lines of `s` without their terminators, where
      `\r\n` terminates a single line and a terminator at the very end opens no
      further line; the empty text has no lines. */
  function SplitLines(s: string): (lines: seq<string>)
    ensures lines == [] <==> s == []
    ensures forall k :: 0 <= k < |lines| ==> NoLineBoundary(lines[k])
    decreases |s|
  {
    if s == [] then []
    else
      var i := LineEnd(s);
      if i == |s| then [s]
      else
        [s[..i]] + SplitLines(s[BreakEnd(s, i)..])
  }

  /** Text in which `\n` is the only line boundary that occurs. */
  predicate OnlyNewlineBreaks(s: string) {
    forall k :: 0 <= k < |s| && IsLineBoundary(s[k]) ==> s[k] == '\n'
  }

  /** One step of `splitlines()` at a `\n`. */
  lemma {:induction false} SplitLinesAtNewline(s: string, i: nat)
    requires i == LineEnd(s) && i < |s| && s[i] == '\n'
    ensures SplitLines(s) == [s[..i]] + SplitLines(s[i + 1..])
  {
    assert BreakEnd(s, i) == i + 1;
  }

  /** One step of `split('\n')`. */
  lemma SplitAtNewline(s: string, i: nat)
    requires i == IndexOf(s, '\n') && i < |s|
    ensures Split(s, '\n') == [s[..i]] + Split(s[i + 1..], '\n')
  {
  }

  lemma OnlyNewlineBreaksSuffix(s: string, j: nat)
    requires OnlyNewlineBreaks(s) && j <= |s|
    ensures OnlyNewlineBreaks(s[j..])
  {
    forall k | 0 <= k < |s[j..]| && IsLineBoundary(s[j..][k])
      ensures s[j..][k] == '\n'
    {
      assert s[j..][k] == s[j + k];
    }
  }

  /** On text whose only line boundary is `\n`, `splitlines()` is `split('\n')`
      without the empty piece a final `\n` leaves behind. */
  lemma {:induction false} SplitLinesOfNewlineText(s: string)
    requires OnlyNewlineBreaks(s)
    ensures s == [] ==> SplitLines(s) == []
    ensures s != [] && s[|s| - 1] != '\n' ==> SplitLines(s) == Split(s, '\n')
    ensures s != [] && s[|s| - 1] == '\n' ==>
      SplitLines(s) == Split(s, '\n')[..|Split(s, '\n')| - 1]
    decreases |s|
  {
    if s != [] {
      var i := LineEnd(s);
      assert IndexOf(s, '\n') == i;
      if i == |s| {
        assert SplitLines(s) == [s] == Split(s, '\n');
        assert !IsLineBoundary(s[|s| - 1]);
      } else {
        assert s[i] == '\n';
        var rest := s[i + 1..];
        SplitLinesAtNewline(s, i);
        SplitAtNewline(s, i);
        OnlyNewlineBreaksSuffix(s, i + 1);
        SplitLinesOfNewlineText(rest);
        var pieces := Split(rest, '\n');
        if rest == [] {
          assert pieces == [[]];
          assert s[|s| - 1] == '\n';
        } else {
          assert s[|s| - 1] == rest[|rest| - 1];
          assert ([s[..i]] + pieces)[..|pieces|] == [s[..i]] + pieces[..|pieces| - 1];
        }
      }
    }
  }
}
