# Zort playlist browser: a Dafny model of its core

Zort is a small web application that logs a user in with the Spotify
implicit-grant flow, downloads all of the user's playlists, and shows them
20 at a time. The user can search them by name, sort them by track count
in either direction, and move between pages with a paginator that collapses
long page lists around ellipses. This project models the logic behind that
screen and proves what it guarantees.

- `Dedup` (dedup.dfy): the two deduplications of `src/App.jsx`. One is the
  `Map` built in `fetchPlaylists`; the other is `removeDuplicates`, a
  `filter` with a `Set`. Both are loops proved equal to one specification,
  `RemoveDuplicates`. That function keeps the first item carrying each id,
  in order, and nothing else. It is idempotent and yields distinct ids.
- `Catalog` (catalog.dfy): the `while (nextUrl)` loop that follows the
  API's `next` cursors, and the normalisation of raw items into playlists.
  The network is a parameter: the sequence of replies the successive
  requests receive.
- `View` (view.dfy): the comparator sort, the case-insensitive substring
  search, `Math.ceil` page count and `slice` of the current page.
  - The sort is modelled as the stable insertion order that
    `Array.prototype.sort` produces.
  - It is proved to be an ordered permutation.
  - It is proved stable among equal keys.
  - It is proved to commute with the search filter.
- `Controller` (controller.dfy): the state of the `App` component as a
  class. Each handler is one atomic transition.
- `IntParsing` (int_parsing.dfy): `parseInt(text, 10)` as the jump-to-page
  popovers use it.
- `Pagination` (pagination.dfy): the list of page buttons and ellipses, the
  arrows, and the popover state of `src/components/Pagination.jsx`.
- `Callback` (callback.dfy): reading `access_token` out of the redirect's
  URL fragment in `src/Callback.jsx`.
- `Scenarios` (scenarios.dfy): concrete instances of the above.

Pages are 0-based everywhere, as in the code; the paginator's popovers
take 1-based numbers.

## Model

| member | source | states |
|---|---|---|
| Dedup.RemoveDuplicates | src/App.jsx:99-106 | The deduplicated list is never longer than its input. |
| Dedup.RemoveDuplicatesKeepsFirsts | src/App.jsx:99-106 | The result is the subsequence of the input at exactly the positions holding the first item with their id (order preserved, nothing else kept). |
| Dedup.RemoveDuplicatesIds | src/App.jsx:99-106 | No id is lost: the result carries exactly the ids of the input. |
| Dedup.RemoveDuplicatesDistinct | src/App.jsx:64-71 | The result has pairwise distinct ids. |
| Dedup.RemoveDuplicatesOfDistinct | src/App.jsx:109 | On a list whose ids are already distinct, deduplication returns it unchanged. |
| Dedup.RemoveDuplicatesIdempotent | src/App.jsx:99-106 | Deduplicating twice is the same as deduplicating once. |
| Dedup.RemoveDuplicatesWithSet | src/App.jsx:99-106 | The `filter` over a `seen` set returns exactly `RemoveDuplicates`. |
| Dedup.RemoveDuplicatesWithMap | src/App.jsx:64-71 | The insertion-ordered `Map` keyed by id, read back with `values()`, returns exactly `RemoveDuplicates`. |
| Catalog.CoverImage | src/App.jsx:79 | The image is the first listed image, or the placeholder URL when there is none. |
| Catalog.Normalize | src/App.jsx:73-81 | An item normalises iff its `tracks` and `owner` objects are present. The result keeps id and name, takes the track total and owner name, has duration 0, takes the cover image, and uses the Spotify URL or `#` when that is missing or empty. |
| Catalog.NormalizeAll | src/App.jsx:73-81 | The `map` succeeds iff every item normalises, and then it normalises them one for one, in order. |
| Catalog.NormalizeAllKeepsDistinct | src/App.jsx:71-81 | Normalising a list with distinct ids gives playlists with distinct ids. |
| Catalog.CollectConcatenates | src/App.jsx:50-59 | The cursor loop yields a result iff some reply ends the chain before any failure. That result is the concatenation of the items of every reply up to and including that one. |
| Catalog.FetchAllPages | src/App.jsx:50-59 | The `while (nextUrl)` loop returns exactly `Collect(replies)`. |
| Catalog.FetchResultDistinct | src/App.jsx:53-81 | Whatever a successful fetch stores has pairwise distinct ids. |
| View.InsertPermutes | src/App.jsx:109-115 | Inserting one item adds exactly that item to the multiset. |
| View.InsertOrdered | src/App.jsx:109-115 | Inserting into an ordered list keeps it ordered under the comparator. |
| View.SortOrdered | src/App.jsx:109-115 | The sorted list is ordered under the comparator. |
| View.SortPermutes | src/App.jsx:109-115 | The sorted list is a permutation of its input. |
| View.SortSorts | src/App.jsx:109-115 | The sorted list is a permutation of its input. Its sort values are non-decreasing when ascending and non-increasing when descending. |
| View.InsertWithValue | src/App.jsx:109-115 | Inserting an item puts it after every item of an ordered list with the same sort value. |
| View.SortStable | src/App.jsx:109-115 | Stability: for every sort value, the items carrying it keep their input order. |
| View.SortByDurationKeepsOrder | src/App.jsx:112-113 | With every duration 0, as normalisation sets it, sorting by duration leaves the list as it was. |
| View.FilterByName | src/App.jsx:118-120 | The search result is never longer than its input. |
| View.FilterKeepsMatches | src/App.jsx:118-120 | The search result is the subsequence of the input at exactly the positions whose lower-cased name contains the lower-cased query. |
| View.FilterEmptyQuery | src/App.jsx:118-120 | The empty query keeps every playlist. |
| View.FilterAppend | src/App.jsx:118-120 | Filtering distributes over concatenation. |
| View.FilterInsert | src/App.jsx:109-120 | Filtering an insertion into an ordered list is inserting into the filtered list, when the item matches; otherwise it is just the filtered list. |
| View.FilterSortCommute | src/App.jsx:109-120 | Sorting then filtering, as the code does, equals filtering then sorting. |
| View.TotalPages | src/App.jsx:123 | The page count is the ceiling of n/20: 20 times it covers n, one page fewer would not, and it is 0 only for no playlists. |
| View.PageOf | src/App.jsx:124-127 | The page slice has at most 20 items. It is empty iff it starts past the end. Item k is item page*20+k of the list, and it holds min(20, remaining) items. |
| View.PageInRange | src/App.jsx:123-127 | A page is non-empty iff its index is below the page count. |
| View.PagesReassemble | src/App.jsx:123-127 | Concatenating pages 0 to totalPages-1 gives back the whole filtered list. |
| View.Derive | src/App.jsx:109-127 | The displayed slice never holds more than 20 playlists. |
| View.DeriveOfDistinct | src/App.jsx:109-120 | On playlists with distinct ids, the filtered list is the stable sort of the matching playlists. |
| Controller.App.constructor | src/App.jsx:25-33 | Initial state: the stored token or "", no playlists, sort by tracks descending, not loading, page 0, empty search. |
| Controller.App.CurrentView | src/App.jsx:109-127 | What is rendered: the sorted matches, their page count, and the current slice of at most 20. |
| Controller.App.FetchPlaylists | src/App.jsx:46-87 | Playlists are replaced by the fetched, deduplicated, normalised list only when the whole fetch succeeds; otherwise they are kept. `loading` ends false; nothing else changes; ids stay distinct. |
| Controller.App.TokenEffect | src/App.jsx:89-96 | With a non-empty token: fetch, then return to page 0. With the empty token: nothing changes. |
| Controller.App.ReceiveToken | src/App.jsx:143 | `setToken` stores the token and runs the effect only when the token changed and is not empty. |
| Controller.App.HandleCallback | src/Callback.jsx:7-21 | A token found in the fragment is stored, fetching and returning to page 0 when it is new. Without one, or when it equals the token already held, playlists, loading and page are unchanged. |
| Controller.App.Logout | src/App.jsx:151-154 | Logout clears the token and changes nothing else. |
| Controller.App.ToggleSortOrder | src/App.jsx:135-138 | The direction flips and the page returns to 0; nothing else changes. |
| Controller.App.SortByTracks | src/App.jsx:157-160 | The sort key becomes the track count and the page returns to 0. |
| Controller.App.EditSearch | src/App.jsx:176-179 | The query becomes the typed text and the page returns to 0. |
| Controller.App.ChangePage | src/App.jsx:215 | The requested page becomes current as given; nothing else changes. |
| IntParsing.LeadingDigits | src/components/Pagination.jsx:11 | The digits `parseInt` reads form the longest all-digit prefix. |
| IntParsing.DecimalString | src/components/Pagination.jsx:11 | The canonical decimal text of n is non-empty and all digits; `JumpToTypedPage` speaks about inputs of this form. |
| IntParsing.DecimalStringValue | src/components/Pagination.jsx:11 | The digits of n read back as n. |
| IntParsing.LeadingDigitsStop | src/components/Pagination.jsx:11 | Reading digits stops at the first non-digit. |
| IntParsing.ParseDecimal | src/components/Pagination.jsx:11 | `parseInt` of the decimal text of n, followed by anything not starting with a digit, is n. |
| IntParsing.ParseWithoutDigits | src/components/Pagination.jsx:11-12 | Text with no digit after blanks and sign parses to `NaN` (`None`). |
| IntParsing.TrimStartSuffix | src/components/Pagination.jsx:11 | Skipping leading blanks leaves a suffix of the input. |
| Pagination.Pages | src/components/Pagination.jsx:87-89 | The run of buttons for pages from..to-1, one per page, in order. |
| Pagination.PushPages | src/components/Pagination.jsx:93-95 | Each `for` loop of `pageButtons.push(renderButton(i))` appends exactly `Pages(from, to)`. |
| Pagination.BuildPageButtons | src/components/Pagination.jsx:85-125 | The branches and loops of the component build exactly `PageButtons`. |
| Pagination.PageButtonsLength | src/components/Pagination.jsx:86-125 | With up to 10 pages every page is shown. Otherwise there are 11 controls when the page is in the middle and 7 near either end. |
| Pagination.WindowHoldsCurrent | src/components/Pagination.jsx:111-118 | In the middle case the 3-page window starts at max(current-1, 3) and holds the current page. |
| Pagination.PageIndicesInRange | src/components/Pagination.jsx:86-125 | Every page button shown lies in [0, totalPages). |
| Pagination.ButtonAt | src/components/Pagination.jsx:91-124 | The control at each position of the windowed list, including which side each ellipsis opens. |
| Pagination.PageIndicesOrdered | src/components/Pagination.jsx:108-124 | Page indices never decrease left to right. They strictly increase iff not (more than 10 pages and current = totalPages-4). |
| Pagination.RepeatedAnchor | src/components/Pagination.jsx:108-124 | With 25 pages and page 21 current, page 22 appears twice. |
| Pagination.ClampedPageButtonsIncreasing | src/components/Pagination.jsx:112-118 | With the window also clamped on the right, indices strictly increase for every input. The window still holds the current page, and the list changes only at current = totalPages-4. |
| Pagination.ExactlyOneActive | src/components/Pagination.jsx:28-35 | For an existing current page, exactly one control is highlighted: its button. |
| Pagination.ArrowsStayInRange | src/components/Pagination.jsx:130-139 | The left arrow exists iff current > 0 and requests current-1. The right arrow exists iff current < totalPages-1 and requests current+1. |
| Pagination.JumpTarget | src/components/Pagination.jsx:10-17 | A jump is requested iff the input parses to an integer in [1, totalPages], and then to that number minus one. |
| Pagination.JumpToTypedPage | src/components/Pagination.jsx:10-17 | An input holding the decimal text of n (then anything not starting with a digit) jumps to page n-1 exactly when 1 <= n <= totalPages. Other inputs are covered by `JumpTarget` and `ParseWithoutDigits`. |
| Pagination.Paginator.constructor | src/components/Pagination.jsx:5-8 | Both popovers closed, both inputs empty. |
| Pagination.Paginator.ClickEllipsis | src/components/Pagination.jsx:43-51 | An ellipsis toggles its own popover and closes the other. Never both are open. |
| Pagination.Paginator.EditLeftInput | src/components/Pagination.jsx:62 | The left input takes the typed text; nothing else changes. |
| Pagination.Paginator.EditRightInput | src/components/Pagination.jsx:75 | The right input takes the typed text; nothing else changes. |
| Pagination.Paginator.LeftGo | src/components/Pagination.jsx:10-17 | "IR" requests `JumpTarget` of the left input. On a request it closes and clears the left popover; otherwise nothing changes. |
| Pagination.Paginator.RightGo | src/components/Pagination.jsx:19-26 | The same for the right popover. |
| Callback.Split | src/Callback.jsx:10 | `split` yields at least one piece, none containing the separator. |
| Callback.SplitThenJoin | src/Callback.jsx:10 | Joining the pieces of a split gives back the string. |
| Callback.JoinThenSplit | src/Callback.jsx:10 | Splitting a join of separator-free pieces gives back the pieces. |
| Callback.FindFirst | src/Callback.jsx:10 | `find` returns the first piece starting with the prefix, or nothing when no piece does. |
| Callback.TokenValue | src/Callback.jsx:10-12 | `split('=')[1]` is a token only when present and non-empty, and it contains no `=`. |
| Callback.ExtractToken | src/Callback.jsx:8-12 | An empty fragment gives no token. A token found is non-empty and holds no `=`. |
| Callback.NoEqualsNoToken | src/Callback.jsx:10-12 | A matching piece without `=` gives no token. |
| Callback.TokenBetweenEquals | src/Callback.jsx:10-12 | The token is the text between the first and second `=` of the piece, when non-empty. |
| Callback.PairStartsWith | src/Callback.jsx:10 | A `key=value` piece starts with `access_token` iff its key does. |
| Callback.FindFirstAgree | src/Callback.jsx:10 | `find` depends only on which pieces start with the prefix. |
| Callback.ExtractFromParameters | src/Callback.jsx:8-12 | For a fragment `#k1=v1&k2=v2...`, the token is the value of the first parameter whose key starts with `access_token`, provided that value is not empty. Every other parameter is ignored. |
| Scenarios.FirstOccurrenceKept | src/App.jsx:99-106 | Ids 1, 2, 1 deduplicate to the first 1 and the 2. |
| Scenarios.SearchIgnoresCase | src/App.jsx:118-120 | "Rock" finds "rock anthems". |
| Scenarios.FortyFiveItems | src/App.jsx:123-127 | 45 playlists make pages of 20, 20 and 5. |
| Scenarios.ButtonsAtStart | src/components/Pagination.jsx:92-99 | 25 pages, page 0: 0 1 2 … 22 23 24. |
| Scenarios.ButtonsInMiddle | src/components/Pagination.jsx:108-124 | 25 pages, page 12: 0 1 2 … 11 12 13 … 22 23 24. |
| Scenarios.JumpBounds | src/components/Pagination.jsx:10-17 | With 10 pages, 0 and 11 are refused and 10 goes to page 9. |
| Scenarios.TokenFromRedirect | src/Callback.jsx:10 | `#access_token=abc&token_type=Bearer` gives the token "abc". |

## Left out

- Network calls (`axios.get` to the playlists and profile endpoints) are replaced by the sequence of replies they return. A reply is a page with items and a `next` cursor, or a failure.
- `fetchUserProfile` and the user name it stores are not part of this model.
- Local storage is represented only by the value read at start-up (the constructor's parameter). Writing the token on the callback route and removing it on logout are I/O.
- The redirect URI, the authorisation URL and the browser navigation after the callback are left out; the model ends with the token stored.
- The debug `useEffect` that logs counts is left out. So are all rendering, CSS and the `Loader`.
- `src/components/Header.jsx` and the server-side `pages/api/callback.js` are not part of this model.
- Catalog.Collect: a reply sequence that runs out before the cursor chain ends counts as a failure. An endless chain of `next` cursors is therefore not modelled.
- Controller.App.FetchPlaylists: the fetch is one atomic step. The asynchronous interleaving of handlers while requests are in flight is not modelled. That includes a logout during a fetch, which the code does not guard against.
- Controller.App.TokenEffect: the effect runs the fetch to completion before resetting the page. In the code `setCurrentPage(0)` is issued while the fetch is still pending; the final state is the same.
- Controller.App.Logout: the code clears only the token; the fetched playlists stay in the component state. The model follows the code.
- Controller.App.ChangePage: the code does not clamp the requested page. Jumps are range-checked by `JumpTarget` and arrows by `ArrowsStayInRange`, so the model takes the page as given.
- View.Lower: lower-casing covers ASCII letters only. `toLowerCase` also folds other Unicode letters.
- IntParsing.ParseInt: leading white space is ASCII only. JavaScript also skips Unicode spaces and line terminators. `NaN` is `None`; `-0` is 0, which is refused by the same range check.
- View.Sort: the comparator sort is modelled by the stable insertion order. The engine's algorithm and its in-place update are not modelled, only the order it produces.
- Catalog.Normalize: the raw item shape is simplified. A `tracks` object is taken to carry `total`, `owner` to carry a `display_name`, every image to carry a `url`, and no item is `null`. The code would store `undefined` for a missing `total`, `display_name` or `images[0].url`, and would throw on a `null` item or a `null` first image; the model does not represent those shapes.
- The page-number fields are `<input type="number">`, whose value may also be "" or text such as "-2", "2.5" or "1e1". `JumpTarget` handles any text through `ParseInt`; the exact-value lemma `JumpToTypedPage` only speaks about canonical decimal text.
- The duration sort button is disabled in the code, so only `SortByTracks` changes the key. The model still defines the duration order for completeness.

## Findings

| source | as written | input that shows it | evidently intended | confidence | as-written member | corrected member |
|---|---|---|---|---|---|---|
| src/components/Pagination.jsx:112-118 | The middle window starts at max(currentPage-1, 3) and is only clamped on the left. | totalPages = 25, currentPage = 21 (0-based): window 20 21 22, then an ellipsis, then anchors 22 23 24. Page 22 is shown twice, with an ellipsis between that hides nothing. | The window also stays clear of the last three anchors: start at most totalPages-6. | high; not executed | Pagination.RepeatedAnchor | Pagination.ClampedPageButtonsIncreasing |

`BuildPageButtons` and the lemmas about `PageButtons` keep the list as
written, since they describe what the component renders.
`ClampedPageButtons` is the corrected list, proved strictly increasing for
every input.
