/** The search bar both compare pages share: the view mode handed to the comparator,
    the occurrence count of the query, and the badge that reports it. */
module SearchBar {
  import opened Wrappers
  import opened Strings
  import opened Sequences

  /** What the comparator renders: every line, or only the changed ones. */
  datatype Mode = All | DiffOnly

  /** The mode string the comparator receives. */
  function ModeName(m: Mode): string {
    match m
    case All => "all"
    case DiffOnly => "diff_only"
  }

  /** `current_mode`: while a query is typed every line is shown, whatever view was
      chosen; otherwise the chosen view applies. */
  function CurrentMode(query: string, modeKey: Mode): (m: Mode)
    ensures query != [] ==> m == All
    ensures query == [] ==> m == modeKey
  {
    if query != [] then All else modeKey
  }

  /** `[line for line in lines if query in line]`. */
  function LinesContaining(lines: seq<string>, query: string): (r: seq<string>)
    ensures IsSubsequence(r, lines)
    ensures forall line :: line in r <==> line in lines && Contains(line, query)
    ensures forall line :: multiset(r)[line] == if Contains(line, query) then multiset(lines)[line] else 0
  {
    Filter((line: string) => Contains(line, query), lines)
  }

  /** `sum(line.count(query) for line in lines)`. */
  function SumOccurrences(lines: seq<string>, query: string): nat {
    SumOf((line: string) => CountOccurrences(line, query), lines)
  }

  /** Keeping only the lines that contain a non-empty query does not change how many
      occurrences there are: every dropped line holds none. */
  lemma SumOccurrencesOfMatchingLines(lines: seq<string>, query: string)
    requires query != []
    ensures SumOccurrences(LinesContaining(lines, query), query) == SumOccurrences(lines, query)
  {
    SumOfFilter((line: string) => CountOccurrences(line, query), (line: string) => Contains(line, query), lines);
  }

  const FoundColor := "#2b5876"
  const NotFoundColor := "#dc3545"
  const FoundPrefix := "เจอ "
  const FoundSuffix := " จุด"
  const NotFoundMessage := "ไม่พบข้อมูล"

  /** The badge beside the search box. */
  datatype Badge = Badge(color: string, message: string)

  /** The badge for a match count: blue with "found N places" when there are matches,
      red with "no data found" otherwise. */
  function BadgeFor(matchCount: nat): (b: Badge)
    ensures b.color == FoundColor <==> matchCount > 0
    ensures matchCount == 0 ==> b.color == NotFoundColor && b.message == NotFoundMessage
    ensures matchCount > 0 ==> b.message == FoundPrefix + Decimal(matchCount) + FoundSuffix
    ensures matchCount > 0 ==> IsPrefix(FoundPrefix, b.message)
  {
    if matchCount > 0 then Badge(FoundColor, FoundPrefix + Decimal(matchCount) + FoundSuffix)
    else Badge(NotFoundColor, NotFoundMessage)
  }

  /** The count can be read back from a found badge: between its fixed prefix and
      suffix stand the decimal digits of exactly the match count. */
  lemma BadgeStatesCount(matchCount: nat)
    requires matchCount > 0
    ensures var m := BadgeFor(matchCount).message;
      |m| == |FoundPrefix| + |Decimal(matchCount)| + |FoundSuffix|
      && (forall i :: |FoundPrefix| <= i < |m| - |FoundSuffix| ==> IsDigit(m[i]))
      && DecimalValue(m[|FoundPrefix|..|m| - |FoundSuffix|]) == matchCount
  {
    var m := BadgeFor(matchCount).message;
    assert m[|FoundPrefix|..|m| - |FoundSuffix|] == Decimal(matchCount);
    DecimalRoundTrip(matchCount);
  }

  /** A found badge and the not-found badge never look alike. */
  lemma BadgesDistinguishable(n: nat)
    requires n > 0
    ensures BadgeFor(n) != BadgeFor(0)
    ensures BadgeFor(n).message != NotFoundMessage
  {
    var m := BadgeFor(n).message;
    assert m[0] == FoundPrefix[0];
    assert NotFoundMessage[0] != FoundPrefix[0];
  }

  /** The badge is shown only while a query is typed. */
  function ShownBadge(query: string, matchCount: nat): (b: Option<Badge>)
    ensures b.Some? <==> query != []
    ensures b.Some? ==> b.value == BadgeFor(matchCount)
  {
    if query != [] then Some(BadgeFor(matchCount)) else None
  }

  /** What a compare page hands to the comparator: both line sequences, the mode and the
      query to highlight. */
  datatype CompareRequest = CompareRequest(original: seq<string>, modified: seq<string>, mode: Mode, query: string)

  /** Everything a compare page shows for one run: the comparator request, the match
      count and the badge. */
  datatype SearchView = SearchView(request: CompareRequest, matchCount: nat, badge: Option<Badge>)
}
