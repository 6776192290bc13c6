# AttendeeList: view state and pagination

A Dafny model of the `AttendeeList` React component of PassIn
(`src/components/attendee-list.tsx`): a searchable, paginated table of event
attendees that mirrors its search text and page number into the URL query
string and fetches one page of attendees from a remote endpoint whenever
either changes.

Extracted from React, the component is a small sequential state machine:

- `attendee_list.dfy`, module `AttendeeListComponent`: the class
  `AttendeeList` with the five state fields (`search`, `page`, `total`,
  `attendees`, `error`) and the browser location's query string as a
  `map<string, string>`. The handlers `setCurrentSearch`, `setCurrentPage`,
  `onSearchInputChanged`, the four `goTo*` buttons and the fetch chain's
  success and failure handlers are methods that update these fields in
  place. The object invariant `Valid()` says that the URL always records the
  current search and page and that the only error is the fixed message.
- `attendee_view.dfy`, module `AttendeeView`: the values derived from the
  state. These are the page count, the outgoing request, the pager buttons'
  disabled flags and click targets, and the table's row window (the local
  name filter followed by JavaScript's `Array.prototype.slice`).
- `decimal.dfy`, module `Decimal`: `String(n)` and `Number(s)` on integers,
  used for the `page` URL parameter and the `pageIndex` request parameter.
- `text.dfy`, module `Text`: JavaScript string `length` in UTF-16 code units,
  ASCII `toLowerCase` and `String.prototype.includes`.
- `wrappers.dfy`, module `Wrappers`: `Option`.

The model follows the code and not its intent. `page` is never clamped. With
`total = 0` there are 0 pages, so on page 1 "next" and "last" stay enabled,
"last" moves to page 0, and "previous" then moves below zero
(`EmptyListLeavesPageRange`). On such pages the row window follows
JavaScript's `slice` with negative bounds, which count from the end of the
list (`JsSlice`, `VisibleRows`). The one-character threshold for sending
the search to the server is JavaScript's `length`, which counts UTF-16
code units, so a single emoji is sent (`SingleCharacterQueries`). The table filters and slices the rows
the server returned, although the server was already asked for one page. When
the server sends at most ten rows, every page after the first therefore shows
an empty table (`ServerPageShownOnlyOnPageOne`). Whether the server pages its
answer is not visible in this repository, so this is stated as a property of
the code, not as a defect.

## Model

| member | source | states |
|---|---|---|
| AttendeeView.TotalPages | src/components/attendee-list.tsx:38 | the page count is the ceiling of total/10: the least r with total <= 10r, and 0 exactly when total is 0 |
| AttendeeView.TotalPagesUnique | src/components/attendee-list.tsx:38 | any page count with the ceiling property equals TotalPages |
| AttendeeView.TotalPagesExamples | src/components/attendee-list.tsx:38 | 0 rows give 0 pages, 1 and 10 give 1, 25 and 30 give 3 |
| AttendeeView.RequestFor | src/components/attendee-list.tsx:41-49 | the request goes to the fixed endpoint; pageIndex always reads back as page - 1; query is present iff the search's UTF-16 length exceeds 1 (so always for two or more characters, never for an empty search), and then equals the search verbatim; no other parameter |
| AttendeeView.SingleCharacterQueries | src/components/attendee-list.tsx:47-49 | a single character above U+FFFF is sent as query, a single ASCII character is not |
| AttendeeView.IsDisabled | src/components/attendee-list.tsx:172-181 | "first" and "previous" are disabled iff page is 1; "next" and "last" iff the page is the one holding the final row ((page-1)*10 < total <= page*10), or page 0 with no rows |
| AttendeeView.NavigationTarget | src/components/attendee-list.tsx:88-99 | "first" and "last" land on a page where their own button is disabled, "last" on a page holding the final row; "previous" and "next" move by exactly one page, unclamped |
| AttendeeView.DisabledExactlyWhenUseless | src/components/attendee-list.tsx:88-99 | on a page in [1, totalPages], a button is disabled iff its click target is the same page or outside [1, totalPages] |
| AttendeeView.EnabledNavigationStaysInRange | src/components/attendee-list.tsx:172-181 | from a page in range, every enabled button moves to a different page that is still in range |
| AttendeeView.EmptyListLeavesPageRange | src/components/attendee-list.tsx:97-99 | with total 0, "next" and "last" are enabled on page 1, "last" goes to page 0, and "previous" is then enabled and goes to -1 |
| AttendeeView.LastOfThreePages | src/components/attendee-list.tsx:172-181 | total 25, page 3: "next" and "last" disabled, "first" and "previous" enabled |
| AttendeeView.Matches | src/components/attendee-list.tsx:131-133 | an attendee matches iff the lower-cased search occurs at some position of the lower-cased name |
| AttendeeView.Filter | src/components/attendee-list.tsx:130-133 | the filtered rows are exactly the attendees whose lower-cased name includes the lower-cased search, none added |
| AttendeeView.FilterAppend | src/components/attendee-list.tsx:130-133 | filtering keeps the original order: filtering a concatenation is the concatenation of the filtered parts |
| AttendeeView.FilterIdempotent | src/components/attendee-list.tsx:130-133 | filtering twice with the same search changes nothing |
| AttendeeView.EmptySearchKeepsAll | src/components/attendee-list.tsx:130-133 | an empty search keeps every attendee, in order |
| AttendeeView.FilterIgnoresSearchCase | src/components/attendee-list.tsx:132 | a search and its lower-cased form select the same rows |
| AttendeeView.SliceIndex | src/components/attendee-list.tsx:134 | a bound in [0, len] is itself, one above len is len, one in [-len, 0) is len plus the bound (counted from the end), one below -len is 0 |
| AttendeeView.SliceIndexSpread | src/components/attendee-list.tsx:134 | clamping never moves two ordered bounds further apart |
| AttendeeView.JsSlice | src/components/attendee-list.tsx:134 | a slice takes only elements of the list, at most end - start of them; it is the contiguous run from the resolved start to the resolved end (empty when the end resolves before the start), for negative bounds too |
| AttendeeView.VisibleRows | src/components/attendee-list.tsx:130-134 | at most 10 rows, each a matching attendee; none on page 0; for page >= 1 exactly the filtered rows at positions [(page-1)*10, page*10) that exist, in order; for page <= -1 the filtered rows between len + (page-1)*10 and len + page*10, clamped at 0 |
| AttendeeView.PageWindow | src/components/attendee-list.tsx:134 | page k >= 1 is the contiguous run of filtered rows from min(10(k-1), len) to min(10k, len) |
| AttendeeView.PagesUpToIsPrefix | src/components/attendee-list.tsx:130-134 | the rows of pages 1..k, one after another, are the first 10k filtered rows |
| AttendeeView.PagesCoverFiltered | src/components/attendee-list.tsx:130-134 | paging through pages 1..ceil(n/10) shows every matching attendee exactly once, in order |
| AttendeeView.ServerPageShownOnlyOnPageOne | src/components/attendee-list.tsx:130-134 | when at most 10 attendees were received, every page from 2 on shows no rows |
| Decimal.NatDigits | src/components/attendee-list.tsx:45 | a natural number renders as a non-empty run of digits with no leading zero |
| Decimal.NatDigitsRoundTrip | src/components/attendee-list.tsx:45 | the digits of n read back as n |
| Decimal.DecimalString | src/components/attendee-list.tsx:78 | String(n) starts with a minus sign iff n is negative, followed by digits with no leading zero |
| Decimal.ParseDecimal | src/components/attendee-list.tsx:31 | Number(s) gives a value exactly for an optional minus sign followed by digits, and a negative value only behind the minus sign |
| Decimal.DecimalRoundTrip | src/components/attendee-list.tsx:29-32 | Number(String(n)) == n for every integer, including negative pages |
| Decimal.DecimalStringInjective | src/components/attendee-list.tsx:78 | distinct pages are written to the URL as distinct strings |
| Text.Utf16Length | src/components/attendee-list.tsx:47 | JavaScript's length is between the number of characters and twice it, and equals it when no character is above U+FFFF |
| Text.LowerChar | src/components/attendee-list.tsx:132 | an ASCII capital letter maps to the small letter at the same alphabet position, every other character to itself |
| Text.Lower | src/components/attendee-list.tsx:132 | lower-casing keeps the length and maps each character independently |
| Text.LowerIdempotent | src/components/attendee-list.tsx:132 | lower-casing twice equals lower-casing once |
| Text.Includes | src/components/attendee-list.tsx:132 | includes is true iff the needle occurs at some position of the haystack |
| Text.ShiftOccurrence | src/components/attendee-list.tsx:132 | when the needle is not a prefix, it occurs in the haystack iff it occurs in the haystack without its first character |
| Text.IncludesEmpty | src/components/attendee-list.tsx:132 | every string includes the empty string |
| AttendeeListComponent.SearchFromUrl | src/components/attendee-list.tsx:24-27 | the search is the URL's search parameter, or empty when it is absent |
| AttendeeListComponent.PageFromUrl | src/components/attendee-list.tsx:29-32 | the page is 1 when the parameter is absent; a value exactly for integer text; any page written as String(n) reads back as n |
| AttendeeListComponent.UrlRoundTrip | src/components/attendee-list.tsx:24-32 | a URL written by setCurrentSearch(s) and setCurrentPage(p) is read back as search s and page p |
| AttendeeListComponent.AttendeeList.constructor | src/components/attendee-list.tsx:24-36 | search and page come from the URL (defaults "" and 1), total 0, no attendees, no error |
| AttendeeListComponent.AttendeeList.SetCurrentSearch | src/components/attendee-list.tsx:69-74 | only the URL's search key and the search field change |
| AttendeeListComponent.AttendeeList.SetCurrentPage | src/components/attendee-list.tsx:76-81 | only the URL's page key (the decimal page) and the page field change |
| AttendeeListComponent.AttendeeList.OnSearchInputChanged | src/components/attendee-list.tsx:83-86 | ends with the new search and page 1, in the state and in the URL; nothing else changes |
| AttendeeListComponent.AttendeeList.GoToFirstPage | src/components/attendee-list.tsx:88-90 | page becomes 1 |
| AttendeeListComponent.AttendeeList.GoToPreviousPage | src/components/attendee-list.tsx:94-96 | page becomes page - 1, unclamped |
| AttendeeListComponent.AttendeeList.GoToNextPage | src/components/attendee-list.tsx:91-93 | page becomes page + 1, unclamped |
| AttendeeListComponent.AttendeeList.GoToLastPage | src/components/attendee-list.tsx:97-99 | page becomes totalPages, 0 when total is 0 |
| AttendeeListComponent.AttendeeList.ApplySuccess | src/components/attendee-list.tsx:58-62 | attendees and total are replaced by the response's, the error is cleared, search, page and URL untouched |
| AttendeeListComponent.AttendeeList.ApplyFailure | src/components/attendee-list.tsx:63-66 | the error becomes the fixed message; attendees, total, search, page and URL untouched |
| AttendeeListComponent.AttendeeList.ApplyFetchResult | src/components/attendee-list.tsx:51-66 | the error is cleared iff the response was ok; a non-ok status and a rejected request both keep the previous data and set the fixed message |
| AttendeeListComponent.ReopenedView | src/components/attendee-list.tsx:24-32 | after typing a search and pressing "next", a view opened from the resulting URL has that search and page 2 |

## Left out

- Network I/O: `fetch`, the HTTP exchange and JSON parsing are replaced by an abstract `FetchResult`. A JSON body without `attendees` or `total` is not modelled.
- Effect scheduling: `useEffect` re-running on every change of `page` or `search`, and the unguarded race between overlapping requests, are asynchronous and not modelled. `RequestFor` gives the request each run issues.
- Browser APIs: `window.location`, `URL` and `history.pushState` become the `location` map. The order of query parameters and repeated keys are not kept. Back and forward navigation changes the URL without touching the state and is not modelled.
- AttendeeListComponent.AttendeeList.constructor: requires the `page` parameter to be absent or an integer written as optional `-` and digits. `Number(...)` of anything else (NaN, fractions, blanks, hexadecimal, exponents) is not modelled, because `page` is an integer here.
- Decimal.DecimalRoundTrip: JavaScript numbers are doubles. Exponent notation for magnitudes of 1e21 and above, and loss of precision beyond 2^53, are not modelled.
- Text.LowerChar: only ASCII letters are lower-cased. Unicode case mapping (for example 'É' to 'é') is not modelled.
- Text.Lower: built from Text.LowerChar, so it lower-cases ASCII letters only.
- Text.Utf16Length: strings are sequences of Unicode scalar values, so JavaScript strings holding unpaired surrogates cannot be represented.
- Rendering: the JSX table, icons, the footer text and the `dayjs` relative-time strings (they depend on a library, a locale and the clock) are not modelled.
- `console.error` on a failed fetch is logging only.
- `vite.config.ts` (the development proxy) is build tooling and is not part of this model.
