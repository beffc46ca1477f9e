# Dashboard page: search and paging, in Dafny

The dashboard page of this React front end shows the users fetched from the
back end, five at a time. A search box narrows the list to the users whose
lower-cased first name contains the trimmed search text; Prev and Next buttons
move a page counter, each disabled at its end of the range, and the page shows
"Page `page` of `totalPages`".

The model has four modules:

- `JsString` (js_string.dfy): the JavaScript built-ins the search uses,
  `trim`, `toLowerCase` and `includes`, as functions on `seq<char>` with
  contracts that characterise them.
- `UserFilter` (users.dfy): the `User` record and the memoised
  `filteredUserList`, with lemmas that it is an order-preserving selection of
  the fetched list, keeps everyone for an empty or blank search, and keeps
  nobody for a search text with an ASCII upper-case letter.
- `Pagination` (pagination.dfy): `Array.prototype.slice` with its
  relative-index rules, the memoised `paginatedList` and `totalPages`, and
  lemmas that the pages tile the list, that every page before the last is
  full, that in-range pages are non-empty and that the others are empty.
- `Dashboard` (dashboard.dfy): the component's state cells (`userList`,
  `page`, `filter`) as a class whose methods are the setter calls of its
  handlers; Prev and Next require their button's enabling condition, since a
  disabled button delivers no click.

Lower-casing the first name makes the search look case-insensitive, but the
search text itself is never lower-cased; the model follows the code, and
`UserFilter.UppercaseFilterMatchesNone` states the consequence.

## Model

| member | source | states |
|---|---|---|
| `JsString.Trim` | frontend/src/pages/dashboard.page.tsx:32 | `filter.trim()`: the result is the infix of the input left after cutting whitespace at both ends; only whitespace is cut, the result neither starts nor ends with whitespace, and it is empty exactly when the input is all whitespace |
| `JsString.ToLower` | frontend/src/pages/dashboard.page.tsx:32 | `first_name.toLowerCase()`: same length, no ASCII upper-case letter left, every ASCII upper-case letter replaced by its lower-case partner and every other character kept |
| `JsString.Includes` | frontend/src/pages/dashboard.page.tsx:32 | `includes(needle)` holds exactly when the needle occurs at some position of the string (so the empty needle is in every string) |
| `JsString.UpperNeverInLower` | frontend/src/pages/dashboard.page.tsx:32 | a needle holding an ASCII upper-case letter never occurs in a lower-cased name |
| `UserFilter.Matches` | frontend/src/pages/dashboard.page.tsx:31-33 | the filter callback holds exactly when the search needle occurs at some position of the lower-cased first name; the empty needle matches every user |
| `UserFilter.KeepMatching` | frontend/src/pages/dashboard.page.tsx:31-33 | `userList.filter(...)` is no longer than the list and holds a user exactly when the list holds it and it matches |
| `UserFilter.FilteredUsers` | frontend/src/pages/dashboard.page.tsx:29-36 | `filteredUserList` is no longer than `userList` and holds a user exactly when `userList` does and either the search box is empty or the lower-cased first name contains the trimmed search text |
| `UserFilter.KeepMatchingEmptyNeedle` | frontend/src/pages/dashboard.page.tsx:31-33 | filtering with the empty needle returns the list unchanged |
| `UserFilter.KeepMatchingNone` | frontend/src/pages/dashboard.page.tsx:31-33 | when no user matches, the filter returns the empty list |
| `UserFilter.GuardIsRedundant` | frontend/src/pages/dashboard.page.tsx:29-36 | the `filter !== ''` guard does not change the result: it always equals filtering by the trimmed text |
| `UserFilter.WhitespaceFilterKeepsAll` | frontend/src/pages/dashboard.page.tsx:29-36 | an empty or whitespace-only search text leaves `filteredUserList` equal to `userList` |
| `UserFilter.UppercaseFilterMatchesNone` | frontend/src/pages/dashboard.page.tsx:29-36 | the search text is trimmed but not lower-cased, so a trimmed text holding an ASCII upper-case letter leaves `filteredUserList` empty |
| `UserFilter.KeepMatchingSelects` | frontend/src/pages/dashboard.page.tsx:31-33 | the filter result is the list read at strictly increasing positions, and a position is read exactly when its user matches |
| `UserFilter.FilteredUsersSelects` | frontend/src/pages/dashboard.page.tsx:29-36 | `filteredUserList` is an order-preserving selection from `userList` that takes exactly the users matching the trimmed search text |
| `Pagination.SliceIndex` | frontend/src/pages/dashboard.page.tsx:39 | how `slice` resolves an index: clamped to the list, negative ones counted back from the end |
| `Pagination.Slice` | frontend/src/pages/dashboard.page.tsx:39 | `slice(start, end)` is never longer than the list and, for `0 <= start <= end`, is the window between the two indices clamped to the list |
| `Pagination.PageOf` | frontend/src/pages/dashboard.page.tsx:38-40 | `paginatedList` has at most 5 rows; for `page >= 1` it is `filtered[min((page-1)*5, n) .. min(page*5, n)]`, for page 0 it is empty |
| `Pagination.PageCount` | frontend/src/pages/dashboard.page.tsx:42-44 | `totalPages` is the least `k` with `5k >= n`, and it is 0 exactly when the filtered list is empty |
| `Pagination.PagesBeforeLastAreFull` | frontend/src/pages/dashboard.page.tsx:38-44 | every page before page `totalPages` has exactly 5 rows |
| `Pagination.LastPageHoldsTheRest` | frontend/src/pages/dashboard.page.tsx:38-44 | the last page holds `n - 5*(totalPages-1)` rows, between 1 and 5 |
| `Pagination.PagesInRangeAreNonEmpty` | frontend/src/pages/dashboard.page.tsx:38-44 | every page from 1 to `totalPages` shows at least one row |
| `Pagination.PagesPastLastAreEmpty` | frontend/src/pages/dashboard.page.tsx:38-44 | every page past `totalPages` shows no row |
| `Pagination.EntryIsOnItsPage` | frontend/src/pages/dashboard.page.tsx:38-44 | entry `i` of the filtered list is row `i % 5` of page `i / 5 + 1`, a page within `1..totalPages` |
| `Pagination.PagesThroughArePrefix` | frontend/src/pages/dashboard.page.tsx:38-44 | pages 1 to `k` read in order are the first `min(5k, n)` entries of the filtered list |
| `Pagination.PagesTileTheList` | frontend/src/pages/dashboard.page.tsx:38-44 | pages 1 to `totalPages` read in order give back exactly the filtered list |
| `Dashboard.DashboardPage.constructor` | frontend/src/pages/dashboard.page.tsx:13-16 | the initial state: no users, page 1, empty search text |
| `Dashboard.DashboardPage.FilteredUserList` | frontend/src/pages/dashboard.page.tsx:29-36 | the memoised list read from the state: no longer than `userList`, holding a user exactly when `userList` does and the search box is empty or the user matches the trimmed text |
| `Dashboard.DashboardPage.PaginatedList` | frontend/src/pages/dashboard.page.tsx:38-40 | the rows on show: at most 5, and for `page >= 1` the window of the filtered list from entry `(page-1)*5` |
| `Dashboard.DashboardPage.TotalPages` | frontend/src/pages/dashboard.page.tsx:42-44 | the least number of 5-row pages holding the filtered list, 0 exactly when it is empty |
| `Dashboard.DashboardPage.PrevDisabled` | frontend/src/pages/dashboard.page.tsx:92 | `disabled={page <= 1}`: in every state the handlers reach, Prev is disabled exactly on page 1 |
| `Dashboard.DashboardPage.NextDisabled` | frontend/src/pages/dashboard.page.tsx:104 | `disabled={page >= totalPages}`: in every state the handlers reach, Next is disabled exactly when the following page would show no row |
| `Dashboard.DashboardPage.SetUserList` | frontend/src/pages/dashboard.page.tsx:22 | storing the fetched list changes only `userList` |
| `Dashboard.DashboardPage.SetFilter` | frontend/src/pages/dashboard.page.tsx:56 | typing changes only `filter`; the page counter is left as it was (so `totalPages`, recomputed from the new filter, may drop below it) |
| `Dashboard.DashboardPage.ClickPrev` | frontend/src/pages/dashboard.page.tsx:89-95 | an enabled Prev (page > 1) lowers the counter by exactly 1, never below 1, changes nothing else, and from a page within range lands on a full page |
| `Dashboard.DashboardPage.ClickNext` | frontend/src/pages/dashboard.page.tsx:101-107 | an enabled Next (page < totalPages) raises the counter by exactly 1, never past `totalPages`, changes nothing else, and the new page shows at least one row |
| `Dashboard.StrandedPage` | frontend/src/pages/dashboard.page.tsx:56-104 | since a new search text does not reset the counter, the state "page 2 of 0" with no rows is reachable through the handlers alone |

## Left out

- The asynchronous fetch through `BackendClient.getAllUsers()` and the `loading` flag it toggles (lines 18-27): network I/O through a client that is not part of this model; the fetched list is the argument of `SetUserList`.
- The rendering (JSX, the MUI layout, text field, buttons and spinner, `UserCard`): user interface only. The `disabled` conditions of the two buttons are kept, as `PrevDisabled` and `NextDisabled`.
- React's `useState`, `useEffect` and `useMemo` machinery: the memoised values are functions of the current state, recomputed on demand.
- `IUserProps` beyond `id` and `first_name`: no other field is read by the search or the paging (the card rendering passes them all on), and the DTO file is not part of this model. The `User` datatype stands for it.
- `Math.ceil(filteredUserList.length / 5)` divides in floating point; the model uses integer ceiling division, which agrees for every non-negative length.
- Strings are Dafny sequences of Unicode code points, while JavaScript strings are sequences of UTF-16 code units. On well-formed strings `trim`, the ASCII part of `toLowerCase` and `includes` give the same results either way; a lone surrogate cannot be represented.
- JsString.ToLower: maps only the ASCII letters A-Z; the full Unicode case mapping of `toLowerCase` is not modelled.
- `trim` removes ECMAScript's WhiteSpace and LineTerminator code points; the space-separator category is taken as of current Unicode.
