/** The code-compare page: two text areas held in the session, the buttons that
    rewrite them ("use as new original", "clear"), and what pressing "compare"
    produces. Session-state writes are modelled as pure updates of a two-field record. */
module CodeView {
  import opened Lines
  import opened SearchBar
  import DocumentCompare

  /** The two text areas: `code_input_1` (original) and `code_input_2` (modified). */
  datatype CodeInputs = CodeInputs(original: string, modified: string)

  /** `clear_code_inputs`: both areas emptied. */
  function ClearCodeInputs(s: CodeInputs): (t: CodeInputs)
    ensures t.original == [] && t.modified == []
  {
    CodeInputs([], [])
  }

  /** `move_modified_to_original`: the modified code becomes the new original and the
      modified area is emptied, ready for the next revision. */
  function MoveModifiedToOriginal(s: CodeInputs): (t: CodeInputs)
    ensures t.original == s.modified
    ensures t.modified == []
  {
    CodeInputs(s.modified, [])
  }

  /** Clearing twice is clearing once, and clearing forgets every earlier input. */
  lemma ClearIdempotent(s: CodeInputs, u: CodeInputs)
    ensures ClearCodeInputs(ClearCodeInputs(s)) == ClearCodeInputs(s)
    ensures ClearCodeInputs(s) == ClearCodeInputs(u)
  {
  }

  /** Two consecutive moves leave both areas empty, as a clear does. */
  lemma MoveTwiceClears(s: CodeInputs)
    ensures MoveModifiedToOriginal(MoveModifiedToOriginal(s)) == ClearCodeInputs(s)
  {
  }

  /** What the user can do to the text areas. */
  datatype Event =
    | EditOriginal(text: string)
    | EditModified(text: string)
    | UseAsNewOriginal
    | ClearInputs

  function Step(s: CodeInputs, e: Event): CodeInputs {
    match e
    case EditOriginal(text) => s.(original := text)
    case EditModified(text) => s.(modified := text)
    case UseAsNewOriginal => MoveModifiedToOriginal(s)
    case ClearInputs => ClearCodeInputs(s)
  }

  /** The state after a session of events, applied in order. */
  function Run(s: CodeInputs, events: seq<Event>): CodeInputs
    decreases |events|
  {
    if events == [] then s else Run(Step(s, events[0]), events[1..])
  }

  /** A text that could be in an area after `events`: empty, one of the starting
      texts, or one the user typed during the session. */
  predicate FromSession(x: string, s: CodeInputs, events: seq<Event>) {
    || x == []
    || x == s.original || x == s.modified
    || exists i :: 0 <= i < |events| && (events[i].EditOriginal? || events[i].EditModified?) && events[i].text == x
  }

  /** The buttons never invent code: after any session each area holds nothing, a
      starting text, or something the user typed. */
  lemma {:induction false} RunKeepsTypedText(s: CodeInputs, events: seq<Event>)
    ensures FromSession(Run(s, events).original, s, events)
    ensures FromSession(Run(s, events).modified, s, events)
    decreases |events|
  {
    if events != [] {
      var s' := Step(s, events[0]);
      var rest := events[1..];
      RunKeepsTypedText(s', rest);
      forall x | FromSession(x, s', rest)
        ensures FromSession(x, s, events)
      {
        if i :| 0 <= i < |rest| && (rest[i].EditOriginal? || rest[i].EditModified?) && rest[i].text == x {
          assert events[i + 1] == rest[i];
        } else if x == s'.original || x == s'.modified {
          if events[0].EditOriginal? || events[0].EditModified? {
            assert events[0].text == x || x == s.original || x == s.modified;
          }
        }
      }
    }
  }

  /** A session that ends with "clear" leaves both areas empty, whatever came before. */
  lemma {:induction false} RunEndingInClear(s: CodeInputs, events: seq<Event>)
    requires events != [] && events[|events| - 1] == ClearInputs
    ensures Run(s, events) == CodeInputs([], [])
    decreases |events|
  {
    if |events| > 1 {
      assert events[1..][|events[1..]| - 1] == ClearInputs;
      RunEndingInClear(Step(s, events[0]), events[1..]);
    }
  }

  /** What pressing "compare" shows: a warning when both areas are empty, otherwise the
      comparison view. */
  datatype CodeResult = NothingToCompare | Compared(view: SearchView)

  /** Pressing "compare": both areas are split into lines and handed to the comparator
      unfiltered; a query only sets the count, the badge and the all-lines view. */
  function CodeCompare(s: CodeInputs, query: string, modeKey: Mode): (r: CodeResult)
    ensures r.NothingToCompare? <==> s.original == [] && s.modified == []
    ensures r.Compared? ==> r.view.request.original == SplitLines(s.original)
    ensures r.Compared? ==> r.view.request.modified == SplitLines(s.modified)
    ensures r.Compared? ==> r.view.request.original != [] || r.view.request.modified != []
    ensures r.Compared? ==> r.view.request.mode == CurrentMode(query, modeKey) && r.view.request.query == query
    ensures r.Compared? ==> r.view.badge == ShownBadge(query, r.view.matchCount)
    ensures r.Compared? && query == [] ==> r.view.matchCount == 0
    ensures r.Compared? && query != [] ==>
      r.view.matchCount == SumOccurrences(r.view.request.original, query) + SumOccurrences(r.view.request.modified, query)
  {
    if s.original == [] && s.modified == [] then NothingToCompare
    else
      var text1 := SplitLines(s.original);
      var text2 := SplitLines(s.modified);
      var count := if query != [] then SumOccurrences(text1, query) + SumOccurrences(text2, query) else 0;
      Compared(SearchView(CompareRequest(text1, text2, CurrentMode(query, modeKey), query), count, ShownBadge(query, count)))
  }

  /** The code page counts matches over its unfiltered lines, the document page over
      the lines it kept; for the same lines and query both report the same count and
      the same badge. */
  lemma CountAgreesWithDocumentPage(s: CodeInputs, query: string, modeKey: Mode)
    requires s.original != [] || s.modified != []
    ensures var doc := DocumentCompare.DocumentSearch(SplitLines(s.original), SplitLines(s.modified), query, modeKey);
      CodeCompare(s, query, modeKey).view.matchCount == doc.matchCount
      && CodeCompare(s, query, modeKey).view.badge == doc.badge
  {
    if query != [] {
      DocumentCompare.SearchKeepsExactlyMatchingLines(SplitLines(s.original), SplitLines(s.modified), query, modeKey);
    }
  }

  /** The application always opens this page in the all-lines view, so every code
      comparison shows every line. */
  lemma CodePageShowsAllLines(s: CodeInputs, query: string)
    requires s.original != [] || s.modified != []
    ensures CodeCompare(s, query, All).view.request.mode == All
  {
  }
}
