# Quantum Search: a verified model of the search core

Quantum Search is a Next.js page with two API routes:

- `GET /api/search` asks a web-search provider for ten hits for the query.
- `GET /api/ai-summary` asks a chat-completion provider to describe the query. It parses the free-text answer into a short summary and at most five key points.
- The page (`QuantumSearchPage`) keeps the query, a loading flag, the view flag, the last results, the last summary and a most-recent-first history of ten queries. It runs one search cycle per submission: history first, then the search request, then (only if that succeeded) the summary request.

This project models those three pieces in Dafny and proves properties of the model:

- `options.dfy` (module `Options`): the optional value used for a missing query parameter, an absent completion and a search without a match.
- `text.dfy` (module `JsText`): the JavaScript string primitives the code relies on.
  - The whitespace set shared by `\s` and `trim()`, and `trim()` itself.
  - The ASCII case fold of a regex with the `i` flag.
  - First-occurrence search, `split('\n')` and its inverse `join('\n')`.
- `extraction.dfy` (module `Extraction`): the parser of the completion text. The two regular expressions are written out as scans:
  - a first case-insensitive marker;
  - a greedy whitespace skip;
  - a lazy capture up to `\n\nKey Points:` or a greedy capture to the end.

  Then come the line split, the bullet strip, the trim, the empty-line filter and the cut to five. The bullet class `[-â€¢]` is kept exactly as spelled: one of `-`, U+00E2, U+20AC, U+00A2, removed only in column 0.
- `api.dfy` (module `Api`): what the routes share.
  - Caught values: an `Error` with a message, or something else.
  - Provider outcomes: returned, or threw.
  - Responses, and the blank-query test `!q || q.trim().length === 0`.
- `search_route.dfy` and `summary_route.dfy`: the two handlers as pure functions of the query parameter and of what the provider call would produce. The result records the response and the provider call made, if any.
- `history.dfy` (module `History`): the history update `[q, ...history.filter(x => x !== q)].slice(0, 10)`.
- `page.dfy` (module `SearchPage`): the component.
  - A class `QuantumSearchPage` holds the six state fields. Its methods change them step by step.
  - `HandleSearch` (and `HandleKeyPress` through it) is proved equal to specification functions on a `PageState` value (`AfterSearch`, `RequestsFor`); the other methods give the new state as an update of the old one.
  - Lemmas about that function relate the page to both route models.

Network answers, storage reads and writes, and provider calls are parameters:

- a fetch either throws or yields a JSON body;
- a storage read yields nothing, a list, or a failure;
- a storage write either fails or does not.

The model follows the code on these four points:

- **No staleness guard.** There is no cycle identifier. Of two cycles run one after the other, the second decides what is shown (`LastSearchWins`); overlapping cycles are described under "Left out".
- **When results appear.** `showResults` becomes true only after the summary request has been attempted. The loading flag stays true until then too.
- **New Search.** It clears only `showResults`. The results, the summary, the history and the query stay.
- **History load.** A failed or unparsable read leaves the history as it is (empty at mount). Nothing resets it.

## Model

| member | source | states |
|---|---|---|
| JsText.IsWhitespace | src/app/api/search/route.ts:9 | the characters `\s` and `trim()` treat as white space: tab to carriage return, space, U+00A0, U+1680, U+2000 to U+200A, U+2028, U+2029, U+202F, U+205F, U+3000 and U+FEFF; its use is stated by Trim, SkipWhitespace and SkipWhitespaceBack |
| JsText.SkipWhitespace | src/app/api/ai-summary/route.ts:50-51 | a greedy `\s*` stops at the first non-whitespace position, and everything it skipped is whitespace |
| JsText.SkipWhitespaceBack | src/app/api/search/route.ts:9 | scanning backwards, the least position after which only whitespace remains |
| JsText.Trim | src/app/api/search/route.ts:9 | `trim()` yields a string with no whitespace at either end; it is the text starting where the leading whitespace ends, with only whitespace after it |
| JsText.TrimUnique | src/app/api/search/route.ts:9 | any whitespace-bordered trimmed slice is the trim |
| JsText.TrimmedIsFixed | src/app/api/ai-summary/route.ts:53 | trimming a trimmed string changes nothing |
| JsText.TrimNonEmpty | src/app/api/search/route.ts:9 | a string with a non-whitespace character does not trim to empty |
| JsText.TrimAllWhitespace | src/app/api/search/route.ts:9 | an all-whitespace string trims to empty |
| JsText.TrimSkipsLeadingWhitespace | src/app/api/ai-summary/route.ts:57 | leading whitespace does not change the trim |
| JsText.TrimSkipsTrailingWhitespace | src/app/api/search/route.ts:21 | trailing whitespace does not change the trim |
| JsText.TrimIgnoresPadding | src/app/api/search/route.ts:21 | whitespace on both sides does not change the trim |
| JsText.AsciiUpper | src/app/api/ai-summary/route.ts:50-51 | against the ASCII markers, the `i`-flag fold amounts to mapping `a`-`z` onto `A`-`Z` and leaving every other character alone |
| JsText.NoMatchWithoutFirstChar | src/app/api/ai-summary/route.ts:50-51 | a pattern cannot match where its first character does not |
| JsText.MatchesItself | src/app/api/ai-summary/route.ts:50-51 | a pattern matches (with or without case folding) where the text is the pattern |
| JsText.IndexOf | src/app/api/ai-summary/route.ts:50-51 | the search finds the first match at or after the start, and None means no match from there on |
| JsText.SplitLines | src/app/api/ai-summary/route.ts:56 | `split('\n')` gives at least one piece and no piece holds a line feed |
| JsText.JoinLines | src/app/api/ai-summary/route.ts:56 | joining n pieces with line feeds gives at least n-1 characters |
| JsText.JoinSplitLines | src/app/api/ai-summary/route.ts:56 | joining the pieces of a split restores the text |
| JsText.SplitLinesCons | src/app/api/ai-summary/route.ts:56 | a line without a line feed, followed by one, is the first piece |
| JsText.SplitJoinLines | src/app/api/ai-summary/route.ts:56 | splitting joined line-feed-free lines gives the lines back |
| Extraction.SummaryCapture | src/app/api/ai-summary/route.ts:50 | group 1 of the summary regex; what it yields is stated by SummaryAfterMarker, SummaryWithoutMarker and SummaryBlankAfterMarker |
| Extraction.KeyPointsCapture | src/app/api/ai-summary/route.ts:51 | group 1 of the key-points regex; what it yields is stated by KeyPointsAfterMarker, KeyPointsWithoutMarker and KeyPointsBlankAfterMarker |
| Extraction.FirstParagraph | src/app/api/ai-summary/route.ts:53 | `split('\n\n')[0]`; stated by FirstParagraphEnd |
| Extraction.Summary | src/app/api/ai-summary/route.ts:53 | the trimmed capture, else the trimmed first paragraph; stated by SummaryAfterMarker, SummaryWithoutMarker and SummaryBlankAfterMarker |
| Extraction.StripBullet | src/app/api/ai-summary/route.ts:57 | the replace of `^[-â€¢]\s*`; stated by CleanPointCases |
| Extraction.CleanPoint | src/app/api/ai-summary/route.ts:57 | the replace followed by `trim()`; stated by CleanPointCases, HyphenPoint and BlankLineCleansAway |
| Extraction.CleanPoints | src/app/api/ai-summary/route.ts:55-58 | the map/filter keeps at most one point per line |
| Extraction.CleanPointsAreClean | src/app/api/ai-summary/route.ts:55-58 | every point the map/filter keeps is non-empty and has no whitespace at either end |
| Extraction.KeyPoints | src/app/api/ai-summary/route.ts:51-65 | at most five key points, each non-empty and trimmed |
| Extraction.ExtractSummary | src/app/api/ai-summary/route.ts:50-58 | parsing never fails; the summary is trimmed; there are at most five key points, each non-empty and trimmed |
| Extraction.FirstParagraphEnd | src/app/api/ai-summary/route.ts:53 | `split('\n\n')[0]` is the text before the first blank line, or all of it |
| Extraction.SummaryAfterMarker | src/app/api/ai-summary/route.ts:50-53 | after the first `Summary:` (any case), the summary runs from the first non-whitespace character to the first `\n\nKey Points:` (any case) or the end, trimmed and non-empty, inner line breaks kept |
| Extraction.SummaryWithoutMarker | src/app/api/ai-summary/route.ts:53 | with no `Summary:` the summary is the trimmed first paragraph |
| Extraction.SummaryBlankAfterMarker | src/app/api/ai-summary/route.ts:50-53 | with only whitespace after the first `Summary:` the summary is also the trimmed first paragraph |
| Extraction.KeyPointsWithoutMarker | src/app/api/ai-summary/route.ts:51-54 | with no `Key Points:` there are no key points |
| Extraction.KeyPointsBlankAfterMarker | src/app/api/ai-summary/route.ts:51-58 | with only whitespace after the first `Key Points:` there are no key points |
| Extraction.BlankLineCleansAway | src/app/api/ai-summary/route.ts:57-58 | a line of whitespace only cleans to the empty string, so the filter drops it |
| Extraction.BlankLineHasNoPoints | src/app/api/ai-summary/route.ts:55-58 | a single whitespace character cleans to no point |
| Extraction.KeyPointsAfterMarker | src/app/api/ai-summary/route.ts:51-65 | the key points are a prefix, in order, of the cleaned lines after the marker, of length min(5, number of cleaned lines) |
| Extraction.CleanPointCases | src/app/api/ai-summary/route.ts:57 | a line cleans to its trim with one column-0 character of `[-â€¢]` dropped, and other list markers kept |
| Extraction.CleanPointsAppend | src/app/api/ai-summary/route.ts:55-58 | cleaning distributes over concatenation of line lists |
| Extraction.CleanPointsMembers | src/app/api/ai-summary/route.ts:55-58 | a point is among the cleaned points iff it is non-empty and the cleaning of some line |
| Extraction.HyphenPoint | src/app/api/ai-summary/route.ts:57 | `- text` cleans to `text` for trimmed non-empty text |
| Extraction.FormatReply | src/app/api/ai-summary/route.ts:37 | the reply format the prompt asks for: `Summary: `, the summary, a blank line, `Key Points:` and one `- ` line per point; that such a reply parses back is stated by FormatReplyRoundTrip and PromptSampleParses |
| Extraction.Bulleted | src/app/api/ai-summary/route.ts:37 | the k-th bulleted line is `- ` followed by the k-th point |
| Extraction.CleanBulleted | src/app/api/ai-summary/route.ts:37-58 | cleaning hyphen-bulleted trimmed points gives the points back |
| Extraction.MatchInSlice | src/app/api/ai-summary/route.ts:51 | a match lying inside a slice is a match of the slice |
| Extraction.NoMatchAcross | src/app/api/ai-summary/route.ts:51 | no match covers a character that matches no character of the pattern |
| Extraction.ReplySummary | src/app/api/ai-summary/route.ts:37-53 | the summary of a reply in the requested format is the summary written into it |
| Extraction.ReplyKeyPointsMarker | src/app/api/ai-summary/route.ts:37-51 | in such a reply the first `Key Points:` is the one after the summary |
| Extraction.ReplyKeyPoints | src/app/api/ai-summary/route.ts:37-65 | the key points of such a reply are its first five points |
| Extraction.FormatReplyRoundTrip | src/app/api/ai-summary/route.ts:37-65 | parsing a reply written in the prompt's format gives back its one-line summary and its first five points |
| Extraction.SixPointReply | src/app/api/ai-summary/route.ts:50-65 | `Summary: Bees build hives.` followed by six hyphen points parses to that summary and the first five points |
| Api.IsBlank | src/app/api/search/route.ts:9 | `q` missing, or empty after `trim()`; its effect is stated by SearchRoute.Handle, SummaryRoute.Handle and PaddedQuerySearchesTheSame |
| Api.ErrorText | src/app/api/search/route.ts:36 | a caught `Error` yields its own message, and any other caught value the fallback text |
| SearchRoute.Handle | src/app/api/search/route.ts:4-41 | a missing or blank `q` gives 400 `Query parameter is required` and no provider call; otherwise the provider gets the trimmed, non-empty query with num 10; success gives 200 with the raw query, the results unchanged and totalResults equal to their count; a throw gives 500 with its message or `Failed to perform search`; status 200 iff success |
| SearchRoute.PaddedQuerySearchesTheSame | src/app/api/search/route.ts:21-27 | padding the query with whitespace changes neither the provider call nor the status, and the response echoes the padded query |
| SummaryRoute.UserPrompt | src/app/api/ai-summary/route.ts:37 | the user message quotes the trimmed query between a fixed head and a fixed format sample |
| SummaryRoute.UserPromptInjective | src/app/api/ai-summary/route.ts:37 | different queries give different user messages |
| SummaryRoute.Handle | src/app/api/ai-summary/route.ts:4-78 | a missing or blank `q` gives 400 and no provider call; otherwise the completion is requested for the trimmed query; an absent or empty completion gives 500 `No response from AI`; a throw gives 500 with its message or `Failed to generate AI summary`; otherwise 200 with the raw query and the parsed completion |
| SummaryRoute.AnswerInRequestedFormat | src/app/api/ai-summary/route.ts:37-67 | a completion in the requested format yields 200 with that summary and its first five points |
| SummaryRoute.PromptSampleParses | src/app/api/ai-summary/route.ts:37-58 | the format sample in the prompt parses back to exactly its own summary and three points |
| History.Without | src/app/page.tsx:151 | the filter removes every copy of the query and keeps every other entry |
| History.UpdateHistory | src/app/page.tsx:151 | the new history is the query followed by a prefix, in order, of the old history with the query filtered out: all of it when that fits, else its first nine (most recent) entries; 1 to 10 entries, the query nowhere else |
| History.WithoutCounts | src/app/page.tsx:151 | the filter keeps each other entry as often as it occurred |
| History.WithoutAppend | src/app/page.tsx:151 | the filter distributes over concatenation |
| History.WithoutAbsent | src/app/page.tsx:151 | filtering out an absent value changes nothing |
| History.WithoutNoDuplicates | src/app/page.tsx:151 | filtering preserves freedom from repeats |
| History.UpdateHistoryNoDuplicates | src/app/page.tsx:151 | an update preserves freedom from repeats |
| History.UpdateHistoryKeepsAll | src/app/page.tsx:151 | while there is room, the new history holds exactly the query and the old entries |
| History.UpdateHistoryIdempotent | src/app/page.tsx:151 | updating twice with the same query is updating once |
| History.MoveToFront | src/app/page.tsx:151 | `["a","b","c"]` with `"b"` gives `["b","a","c"]` |
| SearchPage.SearchSucceededWith | src/app/page.tsx:160-163 | the fetch and `.json()` did not throw and `searchData.success` holds; its effect is stated by AfterSearch and LastSearchWins |
| SearchPage.SummarySucceededWith | src/app/page.tsx:168-171 | the summary fetch and `.json()` did not throw and `summaryData.success` holds; its effect is stated by AfterSearch and LastSearchWins |
| SearchPage.AfterSearch | src/app/page.tsx:142-185 | a blank query changes nothing; otherwise loading ends false, the query stays, the history is updated, results show iff the search succeeded, a summary shows only with results and a successful summary, and a failed search keeps the old results hidden with no summary |
| SearchPage.RequestsFor | src/app/page.tsx:143-168 | a blank query sends nothing; otherwise the search request carries the query, the summary request carries it exactly when the search succeeded, the history written to storage is the updated one when the write succeeds and None when the write threw (the search goes on); no request carries a query the routes reject |
| SearchPage.SearchThroughRoutes | src/app/page.tsx:160-178 | against the route models: neither route answers 400; results show iff the provider answered and are its results; a failed search keeps the old results; the summary shows iff the completion also had content, and holds its parse |
| SearchPage.SearchKeepsHistoryClean | src/app/page.tsx:151 | a repeat-free history within ten entries stays so after any search |
| SearchPage.RepeatSearchKeepsHistory | src/app/page.tsx:151 | searching the same query again leaves the history as it was |
| SearchPage.LastSearchWins | src/app/page.tsx:142-185 | of two search cycles run one after the other, the second decides the shown results and summary; if it failed, earlier results stay but are hidden |
| SearchPage.StoredHistoryIsShown | src/app/page.tsx:151-157 | when the write succeeds, storage holds the history the page shows |
| SearchPage.QuantumSearchPage.constructor | src/app/page.tsx:26-31 | empty query, not searching, start view, no results, no summary, empty history |
| SearchPage.QuantumSearchPage.LoadHistory | src/app/page.tsx:35-44 | a stored list replaces the history; nothing stored or a failing read or parse changes nothing |
| SearchPage.QuantumSearchPage.SetQuery | src/app/page.tsx:233 | typing sets only the query |
| SearchPage.QuantumSearchPage.NewSearch | src/app/page.tsx:216 | New Search sets only `showResults` to false |
| SearchPage.QuantumSearchPage.HandleSearch | src/app/page.tsx:142-185 | the step-by-step cycle ends in the state `AfterSearch` gives and sends the requests `RequestsFor` gives, whether or not the storage write throws |
| SearchPage.QuantumSearchPage.HandleKeyPress | src/app/page.tsx:187-191 | Enter while not searching runs a search for the current query; any other key, or Enter while searching, changes nothing |

## Left out

- The particle animation (`src/app/page.tsx:47-140`): floating point, `Math.random`, the canvas and animation frames.
- `src/app/layout.tsx` is not part of this model. It holds fonts and static metadata only.
- JSX rendering and styling. This includes:
  - the choice between the results view and the start view on `showResults`;
  - listing the first five history entries;
  - the trending buttons, which call the search handler with a fixed query (`HandleSearch` with that query);
  - the disabled state of the search button;
  - locale-dependent date formatting.
- The network, `fetch` and the provider SDK (`ZAI.create()` and the two calls). Each is a parameter saying what it produced.
  - A throw from `ZAI.create()` is folded into the provider outcome.
  - `encodeURIComponent` is taken to deliver `q` to the route unchanged.
- `localStorage` and JSON. A read is a parameter: nothing stored, a list of strings, or a failure. A stored JSON value that is not a list of strings is not modelled. A write is a flag saying whether it throws.
- `console.error` logging.
- SummaryRoute.Handle: the request's first message (the fixed guidance text sent with role `assistant`) and the `thinking: disabled` option are not modelled; only the user message depends on the query.
- SearchRoute.Handle: the provider's answer is taken to be a list; `results.length` of any other value is not modelled.
- SearchPage.LastSearchWins: covers cycles run one after the other only. The history and trending badges call `handleSearch(item)` without checking `isSearching` (the Search button is disabled while a search runs), so in the source cycles can overlap. Then the results come from the last successful search response to arrive, and the summary from the last successful summary response that arrived after the latest cycle start (otherwise none), so one cycle's results can be shown with another cycle's summary. The first cycle to end also clears `isSearching` while the other is still running.
- SearchPage.RequestsFor: records which requests a cycle makes and with which query, not their order in time.
- JavaScript strings are sequences of UTF-16 code units, while a Dafny `char` is a Unicode scalar value. A lone surrogate cannot be represented, so the `URIError` that `encodeURIComponent` throws on one (caught with the other fetch failures) is not modelled. For well-formed text the two views agree.
- SearchPage.QuantumSearchPage.HandleSearch: one cycle runs atomically given its two fetch outcomes. The interleaving of overlapping cycles, where one cycle's awaits let another cycle's updates in, is not modelled. Neither is the moment, between the start and the end of a cycle, when `isSearching` is true and the Enter guard matters.
- Extraction.FormatReplyRoundTrip: proved for summaries without line feeds and without an inner `Key Points:`, and for points without line feeds. Other replies are described by SummaryAfterMarker and KeyPointsAfterMarker instead.
- Extraction.SixPointReply: the reply is stated as `FormatReply` builds it, not as one string literal.
