/** The document-compare page: the view choice in the sidebar, the file type taken
    from each uploaded name, and the search step that narrows both documents before
    they reach the comparator. Text extraction is not modelled; the extracted lines
    are inputs. */
module DocumentCompare {
  import opened Wrappers
  import opened Strings
  import opened Lines
  import opened Sequences
  import opened SearchBar

  /** The two entries of the sidebar's view radio. */
  const ShowAllChoice := "แสดงทั้งหมด"
  const DiffOnlyChoice := "เฉพาะจุดต่าง"

  /** `mode_key`: the changed-lines view exactly when the "differences only" entry is
      chosen; any other value, the default entry included, shows everything. */
  function ModeKey(viewChoice: string): (m: Mode)
    ensures m == DiffOnly <==> viewChoice == DiffOnlyChoice
    ensures ModeName(m) == "diff_only" <==> viewChoice == DiffOnlyChoice
  {
    if viewChoice == DiffOnlyChoice then DiffOnly else All
  }

  /** `name.split('.')[-1].lower()`: the lower-cased part of the file name after its
      last dot, or the whole lower-cased name when it has no dot. */
  function FileType(name: string): (t: string)
    ensures |t| <= |name|
    ensures '.' !in t
    ensures t == AsciiLower(name[|name| - |t|..])
    ensures |t| == |name| || name[|name| - |t| - 1] == '.'
  {
    LastPiece(name, '.');
    var last := Last(Split(name, '.'));
    assert last in Split(name, '.');
    var t := AsciiLower(last);
    assert forall i :: 0 <= i < |t| ==> t[i] != '.' by {
      forall i | 0 <= i < |t|
        ensures t[i] != '.'
      {
        assert last[i] != '.';
      }
    }
    t
  }

  /** A name without a dot is its own file type, lower-cased. */
  lemma FileTypeWithoutDot(name: string)
    requires '.' !in name
    ensures FileType(name) == AsciiLower(name)
  {
    var t := FileType(name);
    assert |t| == |name|;
    assert name[|name| - |t|..] == name;
  }

  /** Whatever precedes the last dot, the file type is the lower-cased extension after
      it: `FileType("Scan.2024.PDF")` is `"pdf"`. */
  lemma FileTypeAfterLastDot(base: string, ext: string)
    requires '.' !in ext
    ensures FileType(base + "." + ext) == AsciiLower(ext)
  {
    var n := base + "." + ext;
    var t := FileType(n);
    var dot := |base|;
    assert n[dot] == '.';
    assert |t| == |ext|;
    assert n[|n| - |t|..] == ext;
  }

  /** The search step: with a query, each side keeps only the lines containing it and
      the count adds up the occurrences on both kept sides; without one, both sides pass
      through, the count is 0 and no badge is shown. */
  function DocumentSearch(text1: seq<string>, text2: seq<string>, query: string, modeKey: Mode): (v: SearchView)
    ensures query == [] ==> v == SearchView(CompareRequest(text1, text2, modeKey, query), 0, None)
    ensures v.request.mode == CurrentMode(query, modeKey) && v.request.query == query
    ensures v.badge == ShownBadge(query, v.matchCount)
    ensures query != [] ==> v.request.original == LinesContaining(text1, query)
    ensures query != [] ==> v.request.modified == LinesContaining(text2, query)
  {
    if query == [] then SearchView(CompareRequest(text1, text2, modeKey, query), 0, None)
    else
      var left := LinesContaining(text1, query);
      var right := LinesContaining(text2, query);
      var count := SumOccurrences(left, query) + SumOccurrences(right, query);
      SearchView(CompareRequest(left, right, All, query), count, ShownBadge(query, count))
  }

  /** With a query, every line handed to the comparator contains it, each side is an
      order-preserving selection of its document holding every matching line as often
      as the document does, and the count is that of the unfiltered documents. */
  lemma SearchKeepsExactlyMatchingLines(text1: seq<string>, text2: seq<string>, query: string, modeKey: Mode)
    requires query != []
    ensures var v := DocumentSearch(text1, text2, query, modeKey);
      && IsSubsequence(v.request.original, text1)
      && IsSubsequence(v.request.modified, text2)
      && (forall line :: line in v.request.original <==> line in text1 && Contains(line, query))
      && (forall line :: line in v.request.modified <==> line in text2 && Contains(line, query))
      && (forall line :: multiset(v.request.original)[line] == if Contains(line, query) then multiset(text1)[line] else 0)
      && (forall line :: multiset(v.request.modified)[line] == if Contains(line, query) then multiset(text2)[line] else 0)
      && v.matchCount == SumOccurrences(text1, query) + SumOccurrences(text2, query)
  {
    SumOccurrencesOfMatchingLines(text1, query);
    SumOccurrencesOfMatchingLines(text2, query);
  }

  /** The badge reports a match exactly when some line of either document contains
      the query. */
  lemma BadgeReportsMatch(text1: seq<string>, text2: seq<string>, query: string, modeKey: Mode)
    requires query != []
    ensures var v := DocumentSearch(text1, text2, query, modeKey);
      v.badge.Some? &&
      (v.badge.value.color == FoundColor <==> exists line :: (line in text1 || line in text2) && Contains(line, query))
  {
    var v := DocumentSearch(text1, text2, query, modeKey);
    SearchKeepsExactlyMatchingLines(text1, text2, query, modeKey);
    if exists line :: (line in text1 || line in text2) && Contains(line, query) {
      var line :| (line in text1 || line in text2) && Contains(line, query);
      if line in text1 {
        PositiveSum(v.request.original, query, line);
      } else {
        PositiveSum(v.request.modified, query, line);
      }
    } else {
      NoMatchesZeroSum(v.request.original, query);
      NoMatchesZeroSum(v.request.modified, query);
    }
  }

  lemma {:induction false} PositiveSum(lines: seq<string>, query: string, line: string)
    requires query != [] && line in lines && Contains(line, query)
    ensures SumOccurrences(lines, query) > 0
    decreases |lines|
  {
    if lines[0] != line {
      PositiveSum(lines[1..], query, line);
    }
  }

  lemma {:induction false} NoMatchesZeroSum(lines: seq<string>, query: string)
    requires query != []
    requires forall line :: line in lines ==> !Contains(line, query)
    ensures SumOccurrences(lines, query) == 0
    decreases |lines|
  {
    if lines != [] {
      assert lines[0] in lines;
      NoMatchesZeroSum(lines[1..], query);
    }
  }
}
