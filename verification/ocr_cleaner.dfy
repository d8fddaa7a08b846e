/** The OCR post-processing step of the quick-convert page: the text the model read
    from a page image loses every line that is only a drawn table rule (`-----`,
    `|===|===|`, `+--+--+`), and every other line is passed through untouched. */
module OcrCleaner {
  import opened Strings
  import opened Lines
  import opened Sequences

  /** Characters a table rule is drawn with: whitespace (`\s`) and `| - _ = : +`. */
  predicate IsRuleChar(c: char) {
    IsSpace(c) || c in "|-_=:+"
  }

  predicate AllRuleChars(s: string) {
    forall i :: 0 <= i < |s| ==> IsRuleChar(s[i])
  }

  /** The pattern `^[\s\|\-\_\=\:\+]{3,}$` as Python's `re.match` applies it: a run of
      at least three rule characters from the start, followed by the end of the string
      or by one final `\n` (Python's `$` accepts both). */
  predicate MatchesRulePattern(t: string) {
    exists n :: 3 <= n <= |t| && AllRuleChars(t[..n]) && (n == |t| || (n == |t| - 1 && t[n] == '\n'))
  }

  /** A line is a table rule when its stripped form matches the pattern. */
  predicate IsSeparator(line: string) {
    MatchesRulePattern(Strip(line))
  }

  predicate IsKept(line: string) {
    !IsSeparator(line)
  }

  /** A line is dropped exactly when its stripped form has at least three characters,
      all of them rule characters; in particular a line whose stripped form is shorter
      than three characters (a blank line, `--`) is always kept. The `$` subtlety never
      matters: a trailing `\n` is itself a rule character. */
  lemma SeparatorIff(line: string)
    ensures IsSeparator(line) <==> |Strip(line)| >= 3 && AllRuleChars(Strip(line))
    ensures |Strip(line)| < 3 ==> IsKept(line)
  {
    var t := Strip(line);
    if |t| >= 3 && AllRuleChars(t) {
      assert t[..|t|] == t;
    }
    if MatchesRulePattern(t) {
      var n :| 3 <= n <= |t| && AllRuleChars(t[..n]) && (n == |t| || (n == |t| - 1 && t[n] == '\n'));
      forall i | 0 <= i < |t|
        ensures IsRuleChar(t[i])
      {
        if i < n {
          assert t[..n][i] == t[i];
        }
      }
    }
  }

  lemma StripUnpadded(s: string)
    requires s != [] && !IsSpace(s[0]) && !IsSpace(s[|s| - 1])
    ensures Strip(s) == s
  {
    StripOf([], s, []);
    assert [] + s + [] == s;
  }

  /** Lines too short once stripped are kept, whatever they are made of. */
  lemma ShortLinesKeptExamples()
    ensures IsKept("") && IsKept("--") && IsKept("  ==  ")
  {
    SeparatorIff("");
    StripUnpadded("--");
    SeparatorIff("--");
    var padded := "  ==  ";
    var pre, core, post := padded[..2], padded[2..4], padded[4..];
    assert padded == pre + core + post;
    assert AllSpace(pre) && AllSpace(post);
    assert core[0] == '=' && core[1] == '=';
    StripOf(pre, core, post);
    SeparatorIff(padded);
  }

  /** A line holding any character outside the rule alphabet is kept. */
  lemma TextLinesKeptExamples()
    ensures IsKept("a---") && IsKept("| x |")
  {
    var word := "a---";
    StripUnpadded(word);
    SeparatorIff(word);
    assert !IsRuleChar(word[0]);
    var cell := "| x |";
    StripUnpadded(cell);
    SeparatorIff(cell);
    assert !IsRuleChar(cell[2]);
  }

  /** Rules are dropped, including ones whose characters are spread out. */
  lemma RulesDroppedExamples()
    ensures IsSeparator("---") && IsSeparator("- -")
  {
    StripUnpadded("---");
    SeparatorIff("---");
    StripUnpadded("- -");
    SeparatorIff("- -");
  }

  /** A rule of at least three characters stays a rule whatever blanks pad it. */
  lemma PaddedRuleIsSeparator(pre: string, core: string, post: string)
    requires AllSpace(pre) && AllSpace(post)
    requires |core| >= 3 && AllRuleChars(core)
    requires !IsSpace(core[0]) && !IsSpace(core[|core| - 1])
    ensures IsSeparator(pre + core + post)
  {
    StripOf(pre, core, post);
    SeparatorIff(pre + core + post);
  }

  /** A rule surrounded by blanks is dropped. */
  lemma PaddedRuleDroppedExample()
    ensures IsSeparator("  |--+--|  ")
  {
    var rule := "  |--+--|  ";
    var pre, core, post := rule[..2], rule[2..9], rule[9..];
    assert rule == pre + core + post;
    assert AllSpace(pre) && AllSpace(post);
    assert core[0] == '|' && core[6] == '|';
    assert AllRuleChars(core);
    PaddedRuleIsSeparator(pre, core, post);
  }

  /** The lines of `text` that survive, in order. */
  function KeptLines(text: string): seq<string> {
    Filter(IsKept, Split(text, '\n'))
  }

  /** The total length of a join is at least that of any join of a subsequence. */
  lemma {:induction false} JoinOfSubsequence(a: seq<string>, b: seq<string>, sep: char)
    requires IsSubsequence(a, b)
    ensures |Join(a, sep)| <= |Join(b, sep)|
    decreases |b|
  {
    if a != [] {
      assert b != [];
      if a[0] == b[0] && IsSubsequence(a[1..], b[1..]) {
        JoinOfSubsequence(a[1..], b[1..], sep);
        if |a| >= 2 {
          assert a[1..] != [];
          assert b[1..] != [];
        }
      } else {
        JoinOfSubsequence(a, b[1..], sep);
        assert b[1..] != [];
      }
    }
  }

  /** `clean_ocr_text`: empty text gives empty text, and cleaning never lengthens. */
  function Cleaned(text: string): (r: string)
    ensures text == [] ==> r == []
    ensures |r| <= |text|
  {
    if text == [] then []
    else
      JoinSplit(text, '\n');
      JoinOfSubsequence(KeptLines(text), Split(text, '\n'), '\n');
      Join(KeptLines(text), '\n')
  }

  lemma CleanedJoinsKeptLines(text: string)
    requires text != []
    ensures Cleaned(text) == Join(KeptLines(text), '\n')
  {
  }

  /** The cleaner as the application writes it: one pass over the lines, skipping
      rules and collecting the rest, then a join. */
  method CleanOcrText(text: string) returns (r: string)
    ensures r == Cleaned(text)
  {
    if text == [] {
      return [];
    }
    var cleanedLines := KeepWhere(IsKept, Split(text, '\n'));
    CleanedJoinsKeptLines(text);
    r := Join(cleanedLines, '\n');
  }

  /** The output's lines are the kept input lines: when no line survives the output is
      empty; otherwise splitting the output gives back exactly the kept lines, verbatim
      and in their original order. */
  lemma CleanedLines(text: string)
    ensures KeptLines(text) == [] ==> Cleaned(text) == []
    ensures text != [] && KeptLines(text) != [] ==> Split(Cleaned(text), '\n') == KeptLines(text)
  {
    var kept := KeptLines(text);
    if text != [] && kept != [] {
      forall k | 0 <= k < |kept|
        ensures '\n' !in kept[k]
      {
        assert kept[k] in kept;
      }
      SplitJoin(kept, '\n');
    }
  }

  /** When some line survives, the output's lines are a subsequence of the input's lines
      and hold exactly the lines that are not table rules. */
  lemma CleanedKeepsExactlyNonSeparators(text: string)
    requires exists line :: line in Split(text, '\n') && IsKept(line)
    ensures IsSubsequence(Split(Cleaned(text), '\n'), Split(text, '\n'))
    ensures forall line :: line in Split(Cleaned(text), '\n') <==> line in Split(text, '\n') && !IsSeparator(line)
  {
    var line :| line in Split(text, '\n') && IsKept(line);
    assert line in KeptLines(text);
    if text == [] {
      assert Split(text, '\n') == [[]];
    }
    CleanedLines(text);
  }

  /** Text without table rules comes back unchanged. */
  lemma CleanedWithoutSeparators(text: string)
    requires forall k :: 0 <= k < |Split(text, '\n')| ==> !IsSeparator(Split(text, '\n')[k])
    ensures Cleaned(text) == text
  {
    if text != [] {
      FilterKeepsAll(IsKept, Split(text, '\n'));
      JoinSplit(text, '\n');
    }
  }

  /** Cleaning twice is cleaning once. */
  lemma CleanedIdempotent(text: string)
    ensures Cleaned(Cleaned(text)) == Cleaned(text)
  {
    var c := Cleaned(text);
    CleanedLines(text);
    if c != [] {
      assert text != [] && KeptLines(text) != [];
      FilterIdempotent(IsKept, Split(text, '\n'));
      assert KeptLines(c) == KeptLines(text);
    }
  }
}
