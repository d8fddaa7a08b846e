# doc-comparator: a Dafny model of the comparison and OCR helpers

doc-comparator is a Streamlit application whose entry point, app.py, offers three
pages: document compare, code compare and spell check. Its modules also define a
quick-convert page, which holds `clean_ocr_text`, and a summarize page; app.py
opens neither. This project models the logic these pages wrap around their
external engines:

- **OCR cleaning** (`clean_ocr_text`, quick-convert page). The text a model read
  from a page image loses every line that is only a drawn table rule. All other
  lines pass through verbatim.
- **Gemini service helpers** (`modules/services/ai_service.py`):
  - which listed models can generate content;
  - which model the application picks, by a fixed priority list;
  - the content list sent with a request;
  - how every exception becomes an `API_ERROR` reply that callers can recognise.
- **Document-compare page** (`app.py`):
  - the view choice (`mode_key`);
  - the file type taken from an upload's name;
  - the search step, which narrows both documents to the lines that contain the
    query before they reach the comparator;
  - the match count and its badge;
  - the mode actually handed to the comparator (`current_mode`).
- **Code-compare page** (`modules/code_view.py`):
  - the two text areas held in the session;
  - the "use as new original" and "clear" buttons;
  - the guard against comparing two empty areas;
  - the match count over the unfiltered lines, the badge and `current_mode`.

The model uses Python's own string semantics wherever a result depends on them:

- `str.strip` and the regex class `\s` use the full set of Unicode characters
  that `str.isspace` accepts (module `Strings`).
- `str.splitlines` uses all of its line boundaries. `\r\n` counts as one
  boundary, and a final terminator does not open an empty line (module `Lines`).
- `str.split` on one character and `str.join` are an exact inverse pair.
- `in` and `str.count` are defined on character sequences. `str.count` counts
  non-overlapping occurrences, and an empty needle counts `len + 1`.
- `re.match` anchors at the start. `$` also matches just before one final `\n`.
  The model proves that this detail never changes which lines are dropped.
- `str(n)` is modelled as the decimal digits of `n`, and a lemma reads them back.

Session-state writes are pure updates of a two-field record. The remote API's
answers are inputs: the model listing as an `Option` (absent when configuring or
listing raised), and a generation call as a function from the content list to a
returned response or a raised message.

The diff engine (`TextComparator`, `modules/comparator.py`) and the document
loaders are not modelled. The model stops at the request a page hands to the
comparator: both line sequences, the mode (`"all"` or `"diff_only"`) and the
query.

Modules:

| module | file | what it holds |
|---|---|---|
| `Wrappers` | wrappers.dfy | `Option`, `Result` |
| `Sequences` | sequences.dfy | subsequences, `Filter` (list comprehension with a condition), `SumOf` |
| `Strings` | strings.dfy | whitespace, `Strip`, `Contains`, `CountOccurrences`, ASCII lower-casing, decimal digits |
| `Lines` | lines.dfy | `Split`/`Join` on one character, `SplitLines` |
| `OcrCleaner` | ocr_cleaner.dfy | table-rule lines, `Cleaned`, `CleanOcrText` |
| `AiService` | ai_service.dfy | model filter, best model, content list, error replies |
| `SearchBar` | search_bar.dfy | modes, `current_mode`, occurrence sums, badges |
| `DocumentCompare` | document_compare.dfy | `mode_key`, file type, the document search step |
| `CodeView` | code_view.dfy | text areas, buttons, pressing "compare" |

## Model

| member | source | states |
|---|---|---|
| OcrCleaner.MatchesRulePattern | modules/quick_convert_view.py:15 | `re.match` of the pattern: at least three rule characters from the start. They must be followed by the end of the text or by a single final `\n`, because `$` matches in both places. |
| OcrCleaner.IsSeparator | modules/quick_convert_view.py:15 | A line is skipped when its `strip()`ped form matches the rule pattern. |
| OcrCleaner.SeparatorIff | modules/quick_convert_view.py:15 | A line is dropped exactly when its stripped form has at least three characters and all of them are whitespace, a vertical bar, or one of `- _ = : +`. A line shorter than three characters once stripped is always kept. |
| OcrCleaner.ShortLinesKeptExamples | modules/quick_convert_view.py:15 | `""`, `"--"` and `"  ==  "` are kept, because the `{3,}` bound needs three characters after stripping. |
| OcrCleaner.TextLinesKeptExamples | modules/quick_convert_view.py:15 | `"a---"` and a table cell (a letter between vertical bars) are kept, because they hold a character outside the rule alphabet. |
| OcrCleaner.RulesDroppedExamples | modules/quick_convert_view.py:15 | `"---"` and the spaced rule `"- -"` are dropped. |
| OcrCleaner.PaddedRuleDroppedExample | modules/quick_convert_view.py:15 | A rule of dashes, pluses and vertical bars padded with blanks on both sides is dropped. |
| OcrCleaner.Cleaned | modules/quick_convert_view.py:9-18 | Empty input gives empty output. Cleaning never makes the text longer. |
| OcrCleaner.CleanOcrText | modules/quick_convert_view.py:11-18 | The split, the loop that skips rule lines and keeps the rest, and the join compute `Cleaned`. |
| OcrCleaner.CleanedLines | modules/quick_convert_view.py:12-18 | If no line survives, the output is empty. Otherwise, splitting the output at `\n` gives back exactly the kept lines, verbatim and in order. |
| OcrCleaner.CleanedKeepsExactlyNonSeparators | modules/quick_convert_view.py:14-17 | When some line survives, the output's lines are an order-preserving subsequence of the input's lines. A line appears in the output exactly when it is an input line and not a table rule. |
| OcrCleaner.CleanedWithoutSeparators | modules/quick_convert_view.py:12-18 | Text without table-rule lines comes back unchanged. |
| OcrCleaner.CleanedIdempotent | modules/quick_convert_view.py:9-18 | Cleaning twice gives the same result as cleaning once. |
| Strings.Strip | modules/quick_convert_view.py:15 | The stripped text is empty exactly when the text is all whitespace. Otherwise, its first and last characters are not whitespace. It is never longer than the input. |
| Strings.StripOf | modules/quick_convert_view.py:15 | Stripping whitespace padding from a core that neither starts nor ends with whitespace gives back exactly that core. |
| Strings.ContainsIff | app.py:87 | `q in s` holds exactly when `q` occurs in `s` at some position. |
| Strings.CountOccurrences | app.py:89 | An empty needle counts `len + 1`. A non-empty needle has a positive count exactly when it occurs, and the count times the needle's length never exceeds the text's length. |
| Strings.CountFromLeftmost | app.py:89 | The count is one for the leftmost occurrence plus the count in the text after that occurrence, so occurrences are non-overlapping. |
| Strings.IsSpace | modules/quick_convert_view.py:15 | The characters for which `str.isspace` holds, which are also the characters the regex class `\s` matches: the ASCII controls from tab to carriage return, the separators U+001C to U+001F, the space, U+0085, the no-break space, U+1680, U+2000 to U+200A, the line and paragraph separators, U+202F, U+205F and U+3000. |
| Strings.AsciiLower | app.py:77 | Lower-casing keeps the length and changes exactly the ASCII capitals. Each capital becomes its own lower-case letter, 32 code points further on, so no ASCII capital remains. |
| Strings.Decimal | app.py:94 | `str(n)` is a non-empty string of digits. It has a leading `0` only for `n = 0`, which gives `"0"`. |
| Strings.DecimalRoundTrip | app.py:94 | Reading the digits of `str(n)` back gives `n`. |
| Lines.Split | modules/quick_convert_view.py:12 | Splitting gives at least one piece, and no piece contains the separator. |
| Lines.Join | modules/quick_convert_view.py:18 | `sep.join(pieces)`: the pieces in order with one separator between neighbours. No pieces give the empty string, and a single piece is returned unchanged. |
| Lines.JoinSplit | modules/quick_convert_view.py:12-18 | Joining the pieces of a split with the same separator gives back the original text. |
| Lines.SplitJoin | modules/quick_convert_view.py:12-18 | Splitting the join of a non-empty list of separator-free pieces gives back the list. |
| Lines.LastPiece | app.py:77 | The last piece of a split is a suffix of the text. It is either the whole text or preceded by the separator. |
| Lines.SplitLines | modules/code_view.py:62-63 | The text splits into no lines exactly when it is empty. No line contains a line-boundary character. |
| Lines.SplitLinesOfNewlineText | modules/code_view.py:62-63 | When `\n` is the only boundary in the text, `splitlines` equals splitting at `\n`, without the last empty piece when the text ends in `\n`. |
| Sequences.Filter | app.py:87-88 | The comprehension keeps an order-preserving subsequence. An element is in the result exactly when it is in the input and satisfies the condition, and each kept element occurs as often as in the input. |
| Sequences.KeepWhere | modules/quick_convert_view.py:13-17 | The loop that skips each rejected element and appends the rest builds exactly the comprehension's result. |
| Sequences.FilterIdempotent | modules/quick_convert_view.py:14-17 | Filtering twice by the same condition gives the same result as filtering once. |
| Sequences.SumOfFilter | app.py:87-89 | Summing a measure over the kept elements equals summing it over all elements, when every dropped element measures 0. |
| AiService.GeminiModels | modules/services/ai_service.py:17-24 | A failed configuration or listing gives `[]`. Otherwise the result is the names of exactly the listed models that support `generateContent`, in listing order. |
| AiService.FirstAvailable | modules/services/ai_service.py:36-37 | The scan stops at the first candidate that is available, and every earlier candidate is unavailable. |
| AiService.BestModel | modules/services/ai_service.py:26-39 | The result is `None` exactly when no model is available, and any result is an available model. The first available priority model wins. With none of them available, the first listed model is chosen. |
| AiService.EarlierPriorityWins | modules/services/ai_service.py:30-37 | When two priority models are both available, the later one in the priority list is never chosen. |
| AiService.BestModelCanGenerate | modules/services/ai_service.py:26-28 | A failed listing gives `None`. Any chosen model is a listed model that supports `generateContent`. |
| AiService.ErrorReply | modules/services/ai_service.py:57-60 | Every error reply starts with `API_ERROR`. A message containing `429` gives the fixed quota reply. Any other message becomes exactly `"API_ERROR: "` followed by the message. |
| AiService.Content | modules/services/ai_service.py:47-49 | The content list is the prompt, followed by the image exactly when one is given. |
| AiService.GenerateContent | modules/services/ai_service.py:41-60 | The reply is the response to iterate exactly when streaming was asked for and the call returned, and it is that call's response. A non-streamed call that returned with readable text gives that text verbatim. A raised exception, or a failure reading the text, gives the error reply for that exception's message. |
| AiService.FailuresAreRecognised | modules/services/ai_service.py:51-60 | When the call raised, or reading `.text` raised without streaming, the reply is text that starts with `API_ERROR`. A `429` failure always gives the quota reply. |
| SearchBar.CurrentMode | app.py:98 | While a query is typed every line is shown, whatever view was chosen. Without a query, the chosen view applies. |
| SearchBar.LinesContaining | app.py:87-88 | The comprehension keeps, in order, the lines that contain the query. A line is kept exactly when it is one of the lines and contains the query, and each kept line appears as often as in the input. |
| SearchBar.SumOccurrences | app.py:89 | `sum(line.count(query) for line in lines)`: the occurrence counts of the lines, added up. |
| SearchBar.SumOccurrencesOfMatchingLines | app.py:87-89 | Keeping only the lines that contain a non-empty query leaves the total occurrence count unchanged. |
| SearchBar.BadgeFor | app.py:93-94 | The badge is blue (`#2b5876`) exactly when the count is positive, and red (`#dc3545`) with the "not found" message for a count of 0. A positive count gets the message "เจอ ", then the count in decimal, then " จุด". |
| SearchBar.BadgeStatesCount | app.py:94 | Between the found badge's fixed prefix and suffix stand only digits, and they read back as the match count. |
| SearchBar.BadgesDistinguishable | app.py:93-94 | A found badge never equals the not-found badge, and its message is never the not-found message. |
| SearchBar.ShownBadge | app.py:92-95 | A badge is shown exactly when a query is typed, and it is the badge for the count. |
| DocumentCompare.ModeKey | app.py:60-61 | The view is the changed-lines view (`"diff_only"`) exactly when the "differences only" entry is chosen. |
| DocumentCompare.FileType | app.py:77 | The file type is the lower-cased suffix of the name after its last dot, or the whole lower-cased name when there is no dot. It never contains a dot. |
| DocumentCompare.FileTypeWithoutDot | app.py:77 | A name without a dot gives its own lower-cased form. |
| DocumentCompare.FileTypeAfterLastDot | app.py:77 | `base + "." + ext`, with no dot in `ext`, gives the lower-cased `ext`, whatever `base` holds. |
| DocumentCompare.DocumentSearch | app.py:85-98 | Without a query, both documents pass through, the count is 0, no badge is shown and the chosen view applies. With a query, each side is narrowed to the lines containing it and the view is all lines. |
| DocumentCompare.SearchKeepsExactlyMatchingLines | app.py:86-89 | With a query, each side is an order-preserving selection of its document. It holds exactly the matching lines, each as often as the document does. The count equals that of the unfiltered documents. |
| DocumentCompare.BadgeReportsMatch | app.py:86-94 | With a query, the badge is blue exactly when some line of either document contains the query. |
| CodeView.ClearCodeInputs | modules/code_view.py:5-8 | "Clear" empties both text areas. |
| CodeView.MoveModifiedToOriginal | modules/code_view.py:10-15 | "Use as new original" puts the modified code into the original area and empties the modified area. |
| CodeView.ClearIdempotent | modules/code_view.py:5-8 | Clearing twice is clearing once, and the result does not depend on what the areas held. |
| CodeView.MoveTwiceClears | modules/code_view.py:10-15 | Two moves in a row leave both areas empty, as a clear does. |
| CodeView.Step | modules/code_view.py:5-15 | One user action on the text areas: typing into either area, "use as new original" (the move) or "clear". |
| CodeView.Run | modules/code_view.py:5-15 | A session is a sequence of such actions applied in order. |
| CodeView.RunKeepsTypedText | modules/code_view.py:5-15 | After any session of edits and button presses, each area holds nothing, a starting text, or a text the user typed. The buttons never invent code. |
| CodeView.RunEndingInClear | modules/code_view.py:5-8 | A session that ends with "clear" leaves both areas empty, whatever came before. |
| CodeView.CodeCompare | modules/code_view.py:59-92 | Both areas empty gives the warning and nothing else. Otherwise, both texts are split into lines and handed over unfiltered, with `current_mode` and the query. The count is the occurrences over those lines, or 0 without a query, and the badge follows the count. |
| CodeView.CountAgreesWithDocumentPage | modules/code_view.py:70-78 | Counting over all lines, as the code page does, gives the same count and badge as the document page's count over the matching lines. |
| CodeView.CodePageShowsAllLines | app.py:116 | The application opens the code page in the all-lines view, so every code comparison shows every line. |

## Left out

- `TextComparator` (`generate_diff_html`, `get_final_display_html`): `modules/comparator.py` is not part of this model. The model ends at the request handed to it.
- `DocumentLoader.extract_text` (Word and PDF extraction): the loader is not part of this model. Extracted lines are inputs to `DocumentCompare.DocumentSearch`.
- The document page's `try`/`except` around loading and comparing, which shows an error message. It only displays exceptions raised by the loader or the comparator, and neither is modelled.
- Streamlit layout, CSS, widgets, spinners and reruns. Button callbacks are modelled as pure updates of the session record. The order in which Streamlit runs a callback and re-renders is not modelled.
- Network calls to Gemini (`genai.configure`, `list_models`, `GenerativeModel`, `generate_content`) and the safety settings. Their results are inputs.
- `generate_content` in streaming mode returns the response to iterate. Errors raised while the caller iterates it happen outside the function's `try` and are not modelled.
- `AiService.Content`: an image is an opaque handle, present or absent. Python's truthiness test on the image object is modelled as `Some`/`None`.
- `OcrCleaner.Cleaned`: `None` and other non-string falsy inputs are not modelled. The model takes strings only, and for a string, falsy means empty.
- `DocumentCompare.FileType`: lower-cases ASCII letters only. Python's full Unicode case mapping (including mappings that change length) is not modelled, so for non-ASCII capitals the contract is weaker than `str.lower`.
- `Strings.AsciiLower`: same restriction as `DocumentCompare.FileType`, for the same reason.
- `process_page_to_text`, `get_ai_correction`, `create_doc_from_results`, the quick-convert page flow, `file_service`, the summarize page and the spell-check page: these are UI or network flows around the modelled helpers and are not part of this model. From the summarize page, only its `startswith("API_ERROR")` test is reflected, as `AiService.IsErrorReply`.
- The sidebar's page selection and the code page's fixed `mode_key = "all"` (app.py:65). The latter is reflected only through `CodeView.CodePageShowsAllLines`.
