# Mind-Manipulation-Tracker page logic in Dafny

`script.js` drives a single page that lists reported "cases" of manipulative
corporate practice. Each case has a company, a description, a source URL,
a list of tags (`manipulationType`) and a reported date. The page loads the
cases from a data file into a store (`allCases`). It renders them as cards
and filters them by a search box. A form prepends new cases to the store,
for this session only.

This project models that logic and proves what it promises:

- `Text`: the string primitives the page relies on. These are
  `toLowerCase` (ASCII letters), `includes`, `join`, `split` on one
  character, `trim` (ECMAScript white space and line terminators) and the
  decimal rendering of a count.
- `Escape`: `escapeHTML`, which is the text-mode serialisation of the HTML
  Living Standard, section 13.3 ("Serializing HTML fragments"). The module
  also has a reader for the entities it emits and an attribute-mode escape.
- `Cases`: the case record and the search filter of `filterAndRender`.
- `Form`: the tag parser and the case built by `handleFormSubmit`.
- `Render`: the markup of a case card, the list of cards, the count label,
  and how an HTML parser reads the link's `href`. The cards are built as
  `script.js` builds them, with the href flaw described under Findings.
- `Browser`: the page state as a class `CaseBrowser`. It holds the store, the
  search box value, the list area, the no-results notice, the count label and
  the loader. Its methods are the handlers that change them. `RenderCases` is
  a loop that appends one card per case.

Two details of the code that the model keeps exactly:
- The count label reads `Displaying d of t cases.` while the search box
  holds text, and `Showing all t cases.` otherwise.
- The date of a new case is the UTC date: the first ten characters of
  `toISOString()`.

## Model

| member | source | states |
|---|---|---|
| Text.ToLower | script.js:83 | `toLowerCase` on the query and the three searched fields; its contract is stated by `Text.ToLowerSpec` |
| Text.ToLowerSpec | script.js:83 | lower-casing keeps the length, leaves no upper-case letter, changes only upper-case letters and moves each of them by 32 code points |
| Text.ToLowerIdempotent | script.js:83 | lower-casing twice is lower-casing once |
| Text.ToLowerOfUpper | script.js:83 | the lower-cased form of an upper-cased query is that of the query |
| Text.Includes | script.js:85-87 | `String.prototype.includes`; its contract is stated by `Text.IncludesSpec` and `Text.IncludesEmpty` |
| Text.IncludesSpec | script.js:85-87 | `includes` answers true exactly when the needle occurs at some index of the haystack |
| Text.IncludesEmpty | script.js:85-87 | every string includes the empty string |
| Text.Join | script.js:72 | `Array.prototype.join`, for the tag spans and the comma-joined tags of the filter; `Text.JoinSplit` and `Text.SplitJoin` tie it to `Text.Split` |
| Text.Split | script.js:118 | `split(',')`: there is always at least one piece; `Text.SplitPiecesFree` and `Text.JoinSplit` state the rest |
| Text.SplitPiecesFree | script.js:118 | no piece of a split contains the separator |
| Text.JoinSplit | script.js:118 | joining the pieces of a split with the separator gives the input back |
| Text.SplitWithoutSep | script.js:118 | a string without the separator splits into itself alone |
| Text.SplitAfterPiece | script.js:118 | splitting `p + sep + t` gives `p` and then the pieces of `t` |
| Text.SplitJoin | script.js:118 | splitting a join of separator-free parts gives the parts back |
| Text.LeadingWhiteSpaceSpec | script.js:119 | the leading run that `trim` removes is all white space and stops at the first other character |
| Text.TrailingWhiteSpaceSpec | script.js:119 | the trailing run that `trim` removes is all white space and stops at the last other character |
| Text.Trim | script.js:119 | `trim`; its contract is stated by `Text.TrimSpec` |
| Text.TrimSpec | script.js:119 | a trimmed piece has no white space at either end and is the input with only white space removed from the two ends |
| Text.TrimTrimmed | script.js:119 | trimming a string without white space at its ends changes nothing |
| Text.Decimal | script.js:99-101 | a count prints as a non-empty run of digits without a leading zero |
| Text.DecimalRoundTrip | script.js:99-101 | reading back the printed count gives the count |
| Text.DecimalInjective | script.js:99-101 | different counts print differently |
| Escape.EscapeHtml | script.js:149-153 | the escaped text holds no `<` and no `>` and is at least as long as the input |
| Escape.UnescapeEscapeHtml | script.js:149-153 | decoding the entities `escapeHTML` emits gives back the original text |
| Escape.EscapeHtmlInjective | script.js:149-153 | different texts escape differently |
| Escape.EscapeHtmlKeepsQuote | script.js:149-153 | the escaped text contains `"` exactly when the input does |
| Escape.EscapeHtmlPlain | script.js:149-153 | text without `&`, U+00A0, `<` and `>` is its own escape |
| Escape.EscapeHtmlConcat | script.js:149-153 | escaping a concatenation concatenates the escapes |
| Escape.UnescapeEscapeChar | script.js:149-153 | decoding the escape of one character gives that character and leaves the rest of the text alone |
| Escape.EscapeAttribute | script.js:71 | the attribute-mode escape holds no `"`, `<` or `>` |
| Escape.UnescapeEscapeAttribute | script.js:71 | decoding the attribute-mode escape gives back the original text |
| Escape.EscapeAttributeWithoutQuote | script.js:71 | on text without `"` the attribute-mode escape equals `escapeHTML` |
| Cases.Matches | script.js:84-88 | the test passed to `allCases.filter`; `Cases.FilterMembership` states what it selects |
| Cases.Filter | script.js:84-88 | the result is no longer than the store, and each kept case is in the store and matches the query |
| Cases.FilterIsSubsequence | script.js:84-88 | the result is an order-preserving subsequence of the store |
| Cases.FilterMembership | script.js:83-88 | a case is kept exactly when it is in the store and the lower-cased query occurs in its lower-cased company, description or comma-joined tags |
| Cases.FilterCounts | script.js:84-88 | every copy of a matching case is kept and no copy of another |
| Cases.FilterKeepsAll | script.js:84-88 | a query every case matches keeps the whole store |
| Cases.FilterEmptyQuery | script.js:83-88 | the empty query keeps the whole store |
| Cases.FilterCaseVariants | script.js:83 | queries with the same lower-cased form select the same cases |
| Cases.FilterUpperQuery | script.js:83 | the upper-cased query selects the same cases as the query |
| Cases.FilterIdempotent | script.js:84-88 | filtering a result again with the same query changes nothing |
| Cases.FilterPrepend | script.js:84-88 | a case put in front of the store comes first in the result exactly when it matches, followed by the result for the old store |
| Form.ParseTags | script.js:117-120 | the tag list read from the tag field; its contract is stated by `Form.ParseTagsClean`, `Form.ParseTagsConcat` and `Form.ParseTagsJoin` |
| Form.DatePart | script.js:128 | `slice(0, 10)`: the first ten characters of the timestamp, or all of it when it is shorter |
| Form.NewCase | script.js:123-129 | the case object built by `handleFormSubmit`; its contract is stated by `Form.NewCaseSpec` |
| Form.TrimAll | script.js:119 | `.map(tag => tag.trim())`: one trimmed piece per piece; `Form.TrimAllAt` states that each is the trim of the piece at its position |
| Form.DropEmpty | script.js:120 | `.filter(tag => tag !== '')`; `Form.ParseTagsClean` and `Form.ParseTagsPiece` state what it keeps |
| Form.TrimAllAt | script.js:119 | each trimmed piece is the trim of the piece at the same position |
| Form.ParseTagsClean | script.js:117-120 | every parsed tag is non-empty, has no white space at either end and contains no comma |
| Form.ParseTagsConcat | script.js:117-120 | the tags of `a + "," + b` are the tags of `a` followed by the tags of `b` |
| Form.ParseTagsPiece | script.js:117-120 | a comma-free field gives its trimmed text as the one tag, or no tag when that is empty |
| Form.ParseTagsJoin | script.js:117-120 | clean tags written with commas between them parse back to the same tags |
| Form.ParseTagsSpaced | script.js:117-120 | spaces around the commas are dropped: `x, y ,z` gives `[x, y, z]` |
| Form.ParseTagsBlankPiece | script.js:117-120 | a blank piece between commas gives no tag: `x, , y` gives `[x, y]` |
| Form.ParseTagsExample | script.js:117-120 | `"a, b ,c"` parses to `["a", "b", "c"]` |
| Form.ParseTagsBlankExample | script.js:117-120 | `"greenwashing, , pricing"` parses to `["greenwashing", "pricing"]` |
| Form.NewCaseSpec | script.js:114-129 | the new case keeps the three text fields as entered, has only clean tags and is dated with the first ten characters of the timestamp |
| Render.CaseMarkup | script.js:68-74 | the `innerHTML` of a card as written; `Render.CaseMarkupAngles` and `Render.HrefAsWritten` state what it holds |
| Render.CreateCaseElement | script.js:65-76 | `createCaseElement`: a `case` element holding the card as written, so the href flaw reaches the page |
| Render.CountLabel | script.js:97-103 | `updateCaseCount`'s text; `Render.CountLabelDetermines` states what it conveys |
| Render.CaseElements | script.js:51-54 | the cards `renderCases` appends, one per case in order; `Render.CaseElementsAt` and `Render.CaseElementsAppend` state its contract, and `Browser.CaseBrowser.RenderCases` proves its loop builds it |
| Render.CaseElementsAt | script.js:51-54 | the card at position `k` is the card of the case at position `k` |
| Render.CaseElementsAppend | script.js:51-54 | appending a case to the list appends its card |
| Render.CountLabelDetermines | script.js:97-103 | the label shows whether a search is active; it gives back the total, and the displayed count when a search is active |
| Render.TagSpans | script.js:72 | the `map` from tags to `span` labels, one per tag; `Render.TagSpansAngles` counts their angle brackets |
| Render.TagSpansAngles | script.js:72 | the tag labels hold exactly two `<` and two `>` per tag |
| Render.ElementAngles | script.js:68-74 | an element adds one `<` and one `>` at each end of its content |
| Render.MarkupAngles | script.js:68-74 | a card whose href text has no angle bracket holds exactly 12 + 2 per tag of each angle bracket |
| Render.CaseMarkupAngles | script.js:65-76 | whatever the case holds, its card has exactly the template's angle brackets, so no field adds a `<` or `>` to the card; it says nothing about how the attributes parse |
| Render.FirstQuote | script.js:71 | the position found is that of the first `"`, or the length when there is none |
| Render.QuotedValueOfEscape | script.js:71 | the href value a parser reads from escaped text ends at the first `"` of the input |
| Render.HrefAsWritten | script.js:71 | as written, the link target read from the card is the source URL cut at its first `"`; it equals the URL exactly when the URL has no `"` |
| Render.HrefInjection | script.js:71 | the URL `x" onmouseover="alert(1)` gives a link whose start tag carries an `onmouseover` attribute of its own and whose target is `x` |
| Render.SafeHrefRoundTrip | script.js:71 | with attribute-mode escaping the link target read from the card is the source URL, whatever it holds |
| Render.SafeCaseMarkup | script.js:65-76 | the corrected card, with the href text in attribute mode; `Render.SafeHrefRoundTrip` and `Render.SafeCaseMarkupAgrees` state its contract |
| Render.SafeCaseMarkupAngles | script.js:65-76 | the corrected card keeps the template's angle brackets |
| Render.SafeCaseMarkupAgrees | script.js:65-76 | the corrected card equals the card as written whenever the source URL has no `"` |
| Browser.CaseBrowser.Shows | script.js:43-57 | the display `renderCases` leaves: the cards of the cases in order, the notice exactly when there is none, and the count label; `Browser.CaseBrowser.RenderCases` establishes it and every handler states it |
| Browser.CaseBrowser.constructor | script.js:12 | the page starts with an empty store and an empty search box |
| Browser.CaseBrowser.Replace | script.js:28 | the store becomes the loaded data and nothing else changes |
| Browser.CaseBrowser.Prepend | script.js:132 | the store grows by one, with the new case at index 0 and the old store after it unchanged; nothing else changes |
| Browser.CaseBrowser.RenderCases | script.js:42-58 | the list is one card per case in order, the notice is shown exactly when there is no case, and the label counts the cases against the store size under the current search value; the store and the search value are unchanged |
| Browser.CaseBrowser.FilterAndRender | script.js:82-90 | the page shows the store's matching cases, in store order |
| Browser.CaseBrowser.OnSearchInput | script.js:156 | typing in the search box shows the cases that match the new value |
| Browser.CaseBrowser.OnClearSearch | script.js:157-160 | clearing the search shows the whole store with the label `Showing all t cases.` |
| Browser.CaseBrowser.HandleFormSubmit | script.js:111-135 | the new case is put first in the store and the page shows the cases that match the current search |
| Browser.CaseBrowser.LoadCases | script.js:20-36 | on success the store is the loaded data and is shown whole; on failure the store is kept and the list shows the error paragraph of script.js:31 (`Browser.LoadErrorHtml`); the loader ends hidden |
| Browser.AppendedElements | script.js:51-54 | the cards of one more case are the cards so far followed by that case's card |
| Browser.ShownElements | script.js:45-54 | a page showing a list of cases holds one card per case, the card at each position being that of the case there, and hides the no-results notice when there is a case |
| Browser.SubmitDisplay | script.js:132-135 | after a submission the new card comes first exactly when the new case matches the search, followed by the list of the old store |
| Browser.EmptySearchShowsAll | script.js:83-88 | with an empty search every case is shown and the label is `Showing all t cases.` |

## Left out

- Text.ToLower: lower-cases ASCII letters only. JavaScript's `toLowerCase` also maps other scripts and has special cases such as U+0130, so results differ on non-ASCII text.
- Dafny characters are Unicode scalar values, while JavaScript strings are UTF-16 code units. The two differ only on lone surrogates, which are not modelled.
- The fetch, `res.json()` and the `async` scheduling are left out. `LoadCases` takes the outcome as a parameter. A network failure, a status that is not ok and a body that is not JSON all reach the same `catch`, so they are one `Failed` outcome. Because the load is one atomic step here, the model does not capture a form submission that runs while the fetch is awaited (script.js:23 and 27): the case it prepends at script.js:132 is lost when script.js:28 replaces the store with the loaded data.
- The shape of the loaded JSON is not validated, and neither is it in the code. Records are assumed well-formed. A malformed record that makes `renderCases` throw after `allCases = data` would reach the `catch` with the store already replaced; that path is not modelled.
- DOM plumbing is left out: `createElement`, `appendChild`, `innerHTML` and `style.display`. The list area, the notice, the label and the loader are fields of `CaseBrowser`, and cards are values.
- The `console.error` call is left out.
- `event.preventDefault()`, the `alert` and `newCaseForm.reset()` in `handleFormSubmit` are left out. They are user-interface side effects with no bearing on the store or the display.
- Registering the event listeners is left out. Each listener body is a method: `OnSearchInput`, `OnClearSearch` and `HandleFormSubmit`.
- The clock is left out. `new Date().toISOString()` is the `isoTimestamp` parameter. `NewCaseSpec` requires at least ten characters, which `toISOString` always produces.
- The page's initial HTML is not part of this model. The constructor's empty search box, empty list, hidden notice, empty label and hidden loader are placeholders for it. A browser may also restore a typed search value on reload; that is not modelled.
- Escape.Unescape: it reads only the five entities the two escapes emit. It does not decode HTML character references in general.
- Render.QuotedValue: it models only how a double-quoted attribute value ends. It does not model the rest of HTML attribute parsing.
- A `javascript:` URL in `sourceUrl` is a separate risk that no escaping removes. It is not modelled.

## Findings

| source | as written | input that shows it | evidently intended | confidence | as-written member | corrected member |
|---|---|---|---|---|---|---|
| script.js:71 | the source URL goes through the text-mode `escapeHTML`, which keeps `"`, and is then placed between the double quotes of `href` | `sourceUrl` = `x" onmouseover="alert(1)` | `"` escaped inside the attribute value, so the URL cannot end the value or add attributes | high; not executed | Render.HrefInjection | Render.SafeHrefRoundTrip |

`Render.CaseMarkup` is the card as written, and `Render.CreateCaseElement`,
and with it every card in `Browser`, uses it, so the page model carries the
flaw. The corrected card is `Render.SafeCaseMarkup`, which escapes the href
text with `Escape.EscapeAttribute`. `Render.SafeHrefRoundTrip` proves the
intended property of it, `Render.SafeCaseMarkupAgrees` shows that the
correction changes only cards whose URL holds a `"`, and
`Render.SafeCaseMarkupAngles` shows that it keeps the template's angle
brackets.

The same flaw reaches further than one extra attribute. Text-mode
`escapeHTML` also keeps `'`, so a URL such as `x" y='` ends the href value
and opens a single-quoted value that no later template text closes. Unless
a later field holds a `'`, that value swallows the rest of the card: the link text, the tag labels
and the date stop being elements. The angle-bracket count of
`Render.CaseMarkupAngles` is the same either way, so it does not rule this
out. Single-quoted attribute values are not part of this model (see
`Render.QuotedValue` under "## Left out").
