# User directory: search and pagination

A model of the state logic of a client-side user directory (`script.js`).
The page fetches a list of user records, shows them as cards six per page,
filters them by a search term matched against first and last names, and
offers Prev/Next controls with a "Page X of Y" label.

The model has four modules:

- `Text` (Text.dfy): the string operations the search uses. `Lower` is `toLowerCase` on ASCII letters, `Trim` is `trim` over JavaScript's white-space set, and `Includes` is `includes`. `Includes` is proved equal to a plain "occurs as a block" definition.
- `Search` (Search.dfy): user records, the `filter` over first and last names, and the two views derived from the search box.
  - `DisplayedView` is the view `handleSearch` shows. Its term is lower-cased and trimmed, and a blank term means the whole collection.
  - `ControlsView` is the view `updatePaginationControls` rebuilds the controls over. Its term is lower-cased but not trimmed, and only the empty string means no filter.
- `Paging` (Paging.dfy): the page count `Math.ceil(n / 6)`, JavaScript's `slice`, the page slice `displayUsers` renders, and the proof that the pages put back together give the view.
- `Directory` (Directory.dfy): class `Controller` holds the module-level state as fields: `allUsers`, `currentPage` and the search box value. It also holds what the container shows (`screen`) and the controls element (`controls`). The controls keep the view that their Prev/Next handlers close over, the label, and the buttons' `disabled` flags. Two ghost fields record what the page itself does not store: `shown`, the list last passed to `displayUsers`, and `loaded`, whether the one fetch (script.js:177) has completed.
  - Methods `Load`, `Search`, `Prev` and `Next` are the events.
  - `DisplayUsers`, `CreatePaginationControls` and `UpdatePaginationControls` are the page's own functions.
  - Each method's `ensures` gives the whole new state in terms of the pure functions above.
  - The invariant `Valid` has three parts. `ScreenAgrees`: the container shows the current page of `shown`, and that page is never past `shown`'s page count, so no page of cards is ever empty (`NoEmptyPage`). `LoadAgrees`: before the fetch there are no users and the page is 1. `ControlsAgree`: the controls hold only records of the collection, their label is never behind the current page and equals it over a non-empty view, and past page 1 a non-empty view is the raw-box view with the label at most one past its page count.

Scenarios.dfy drives the controller through four sessions, using only the methods' contracts. With eight users, one session pages forward and back, and another searches for "zz" and matches nobody. The other two search " an" and show the controls drifting away from the displayed view. `PaddedSearchSession` does it over seven copies of Ann Lee. `DriftingSearchSession` does it over Jo an Lee followed by six copies of Ann Lee.

The code has three behaviours that look unintended. The model keeps each of them as written:

- The controls can be built over a different view from the one displayed. `updatePaginationControls` filters by the untrimmed box value, and treats a whitespace-only value as a filter. `PaddedTermSplitsPaths` and `SpaceOnlyTermSplitsPaths` show the two views differing.
- So the label can show a page past its own page count over a non-empty view. In `DriftingSearchSession`, Next from page 1 of the seven matches of " an" rebuilds the controls over the one record whose name holds " an" with its space: "Page 2 of 1". Prev then displays that one-record view, Jo an alone under "Page 1 of 1", although the search still matches seven records. The label's page is never more than one past the count of a non-empty view, and the page of cards on screen is never past the count of the list it was cut from.
- Next is not disabled over an empty view. The page count is 0, while the label's page is the page the controls were rebuilt on, which is at least 1 and can be higher: `PaddedSearchSession` reaches "Page 2 of 0". The handler still does nothing there.
- An empty view shows "User not found" and returns before the controls are rebuilt, so stale controls can stay attached. In `PaddedSearchSession`, Prev from "Page 2 of 0" shows "User not found" on page 1 under that same label. `Valid` guarantees that the label's page is never below the current page, that it equals the current page whenever the controls' view is not empty, and that the controls hold only records of the collection.

## Model

| member | source | states |
|---|---|---|
| `Text.Lower` | script.js:79 | Same length; no upper-case ASCII letter remains; each upper-case letter becomes its lower-case partner; every other character is kept |
| `Text.LowerKeepsSpaces` | script.js:79 | Lowering keeps each white-space position white space and each other position non-white |
| `Text.Trim` | script.js:79 | Never longer than the input; `Text.TrimSpec` gives the full characterisation |
| `Text.TrimIsSlice` | script.js:79 | `trim`'s result is a slice `s[i..j]` of the input, and every character outside that slice is white space |
| `Text.TrimSpec` | script.js:79 | `trim`'s result is a slice of the input with only white space outside it; it is empty exactly when the input is all white space; a non-empty result neither starts nor ends with white space; an input with no white space at either end is returned unchanged. Together these fix the result as the input with its leading and trailing white space removed |
| `Text.Includes` | script.js:89-90 | `includes` is false for a term longer than the string and true for the empty term; `Text.IncludesIsOccurs` says exactly when it is true |
| `Text.IncludesIsOccurs` | script.js:89-90 | `includes` is true exactly when the term occurs as a contiguous block at some index of the string |
| `Text.IncludesEmpty` | script.js:89-90 | Every string includes the empty term; this supports `Search.FilterByEmptyTerm` |
| `Search.Matches` | script.js:88-91 | The `filter` callback: every record matches the empty term, and no record matches a term longer than both its names. Its exact meaning is `Text.IncludesIsOccurs` applied to the lower-cased names |
| `Search.FilterUsers` | script.js:88-91 | A record is in the result if and only if it is in the input and its lower-cased first or last name includes the term; the result is no longer than the input |
| `Search.FilterIsSubsequence` | script.js:88-91 | The filtered list is an order-preserving subsequence of the input |
| `Search.FilterCounts` | script.js:88-91 | The filtered list keeps every copy of a matching record and no copy of any other |
| `Search.FilterAllMatching` | script.js:88-91 | When every record passes the callback, the filter returns the input unchanged |
| `Search.FilterByEmptyTerm` | script.js:88-91 | Filtering by the empty term returns the input unchanged |
| `Search.SearchTerm` | script.js:79 | The normalised term is never longer than the box value, and a non-empty term starts and ends with something besides white space |
| `Search.DisplayedView` | script.js:79-93 | The displayed view is never longer than the collection and holds only its records; `Search.BlankSearchShowsAll` and `Search.NonBlankSearchFilters` give it exactly |
| `Search.ControlsView` | script.js:163-168 | The controls' view is never longer than the collection and holds only its records. For a non-empty box value it holds exactly the records whose names include the lower-cased, untrimmed value |
| `Search.BlankSearchShowsAll` | script.js:79-86 | A box value that is empty or all white space displays exactly the whole collection, in order |
| `Search.NonBlankSearchFilters` | script.js:79-93 | A box value with a non-white character gives a non-empty term. Its view is an order-preserving subsequence of the collection, holding exactly the records whose names include the term, each as often as in the collection |
| `Search.PathsAgreeWithoutPadding` | script.js:163-168 | With no white space at either end of the box value, the controls' view equals the displayed view |
| `Search.PaddedTermSplitsPaths` | script.js:163-168 | With box value " an" and the single user Ann Lee, the displayed view is [Ann] but the controls' view is empty |
| `Search.SpaceOnlyTermSplitsPaths` | script.js:163-168 | With box value " " and the single user Ann Lee, the displayed view is [Ann] but the controls' view is empty |
| `Paging.TotalPages` | script.js:130 | The smallest count of six-record pages that holds n records: n <= 6r and 6(r-1) < n when r > 0; zero exactly when n is zero |
| `Paging.JsSlice` | script.js:44 | `slice(start, end)` with clipping: its length is min(end, len) - start, or 0 if that is not positive, and element k is s[start + k] |
| `Paging.PageSlice` | script.js:42-44 | The page holds at most six records, those at positions (page-1)*6 onward, as many as remain up to six, and none past the end |
| `Paging.PageSizes` | script.js:42-44 | Pages before the last are full; the last holds one to six records; pages after it are empty |
| `Paging.PagesArePrefix` | script.js:42-44 | Pages 1..k concatenated are the first min(6k, len) records of the view |
| `Paging.PagesReassemble` | script.js:130 | Pages 1..TotalPages concatenated in order are exactly the view |
| `Directory.BuildControls` | script.js:130-154 | The controls keep the view and the page. The page count is zero exactly for an empty view and is otherwise its ceiling over six. Prev is disabled exactly on page 1 and Next exactly when the page equals the page count, so Next is never disabled over an empty view |
| `Directory.Render` | script.js:37-55 | An empty list shows "User not found", and only an empty list does. A non-empty list shows cards, and the cards are the page slice, at most six |
| `Directory.Controller.NoEmptyPage` | script.js:37-44 | In every valid state the container never shows an empty page of cards: the current page starts inside the list last displayed |
| `Directory.Controller.constructor` | script.js:13-15 | Starts before the fetch with no users, page 1, an empty search box, a blank container and no controls, in a valid state |
| `Directory.Controller.CreatePaginationControls` | script.js:119-161 | Replaces the controls with those built over the given view on the current page; the state is valid when the screen and fetch parts were and the new controls agree with the state |
| `Directory.Controller.UpdatePaginationControls` | script.js:163-168 | Rebuilds the controls over the view selected by the raw, untrimmed box value. With the screen and fetch parts valid, the result is valid exactly when the page is 1, that view is empty, or the page is at most one past that view's page count |
| `Directory.Controller.DisplayUsers` | script.js:34-58 | Collection, page and box value are unchanged, and the list becomes the one last displayed. An empty list shows "User not found" and leaves the controls untouched, giving a valid state when the old controls agreed with the state. Otherwise the current page slice is shown and the controls are rebuilt over the raw-box view, giving a valid state when the page is within the list's page count and at most one past the raw-box view's |
| `Directory.Controller.Load` | script.js:18-26 | The one fetch: stores the fetched users, displays them on page 1 and leaves the controls over the whole collection, keeping `Valid` |
| `Directory.Controller.Search` | script.js:78-95 | Keeps `Valid`. Whatever the previous page, the page becomes 1. The displayed view is the one for the normalised term. For a non-blank term the controls end up over that view; for a blank term they are rebuilt over the raw-box view, or left alone when there are no users |
| `Directory.Controller.Prev` | script.js:132-140 | Keeps `Valid`. With controls present and page > 1, the page drops by exactly 1 and the captured view is displayed. At page 1, or without controls, nothing changes. The disabled button is never the reason for a no-op: `Valid` makes its flag imply page 1 |
| `Directory.Controller.Next` | script.js:142-150 | Keeps `Valid`. Whenever the page is below the captured page count, the page rises by exactly 1 and the captured view is displayed with rebuilt controls. Otherwise nothing changes, including over an empty view, where the count is 0 and the button is enabled. The disabled button is never the reason for a no-op: `Valid` makes its flag imply that the page has reached the count |

## Left out

- Fetching: the network request, JSON parsing, the loader and the "Failed to fetch user data" branch (script.js:18-31) are I/O. `Load` takes the fetched list as a parameter and models only the success path. It requires that no fetch has completed yet, because the page fetches once, at script.js:177.
- Card markup, images, inline styles and the adding and removing of DOM nodes (script.js:47-55, 120-128, 152-160) are not modelled. A screen is the list of records shown, and the controls element is a value that replaces the previous one.
- The detail modal (script.js:61-72), the comment box (script.js:98-106), the login redirect (script.js:109-111), the smooth scroll (script.js:114-116) and the typing effect (script.js:171-174) are browser side effects with no state the search or paging reads.
- Text.Lower: lowers only the ASCII letters A to Z. JavaScript's `toLowerCase` also lowers letters outside ASCII.
- The search box value changes only through `Search`, because every edit of the box fires the input event that runs `handleSearch`. Changing the box without that event is not modelled.
- A user record's fields other than the two names are opaque strings; nothing reads them.
