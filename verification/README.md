# Users directory listing — Dafny model

This project models the client-side list pipeline of a React users directory:
the screen fetches a batch of randomly generated user profiles, filters them by
a case-insensitive search over name, email and username, cuts the filtered list
into pages of twelve, and shows either a loading message, a card grid (with a
pagination control when there is more than one page) or "No users found". The
pagination control shows a window of at most seven page labels with `...`
markers, and Previous/Next buttons.

Modules (one per concern of the source):

- `Text` (`text.dfy`): ASCII lower-casing and JavaScript's `String.prototype.includes`.
- `Users` (`users.dfy`): the user record, reduced to the fields the listing uses.
- `Search` (`search.dfy`): the search filter, built on a generic order-preserving selection.
- `Paging` (`paging.dfy`): page count, JavaScript `Array.prototype.slice`, page slices and their partition of the list.
- `Pagination` (`pagination.dfy`): the label window and the Previous/Next buttons.
- `Listing` (`listing.dfy`): the session state, its updates, the event step and the render decision.
- `Wrappers` (`wrappers.dfy`): `Option`, for nullable values and disabled buttons.

Modelling choices:

- The fetch is an event: it resolves with a batch or rejects with a thrown
  value. Network I/O is not modelled.
- Choosing a different gender sets the filter and starts a fetch in the same
  step (the effect on `selectedGender`). Choosing the gender already selected
  changes nothing, because the effect does not run again.
- `slice` is modelled in full, including negative arguments counted from the
  end. The model proves that no reachable session has a page below 1, so
  these negative arguments never occur.
- The error banner and the "Found N results" line are shown according to
  JavaScript truthiness, so an empty string shows neither.
- A successful fetch does not clear an error. Only the start of a fetch clears it.
- Page numbers are not clamped, and responses are not matched to requests.
  `Listing.StalePageHidesMatches` shows the first: a search can leave the
  page past the end, and the screen then says "No users found" while the
  result line counts matches. `Listing.LastArrivalWins` shows the second:
  whichever response settles last decides the batch. Neither a clamp nor
  last-request-wins is stated as a guarantee, because the code has neither.

## Model

| member | source | states |
|---|---|---|
| `Text.Includes` | src/pages/UserListing.tsx:48-52 | `includes` is true exactly when the query occurs at some index of the field; the empty query occurs everywhere |
| `Text.LowerAppend` | src/pages/UserListing.tsx:43-44 | lower-casing `first + " " + last` is the same as joining the lower-cased first name, a space and the lower-cased last name |
| `Text.IncludesTransitive` | src/pages/UserListing.tsx:48-52 | if the query occurs in a string that occurs in a field, the query occurs in the field |
| `Search.MatchesFieldwise` | src/pages/UserListing.tsx:42-52 | a user matches iff the lower-cased query occurs in the lower-cased first name, a space and the lower-cased last name joined, or in the lower-cased email or username |
| `Search.Select` | src/pages/UserListing.tsx:41 | `filter` returns only elements that satisfy the test, keeps every element that does, and is never longer than its input |
| `Search.SelectCounts` | src/pages/UserListing.tsx:41 | `filter` neither drops nor duplicates: a kept value occurs as often as in the input, any other value not at all |
| `Search.SelectedPositions` | src/pages/UserListing.tsx:41 | the filter result is the input read at strictly increasing positions |
| `Search.Filter` | src/pages/UserListing.tsx:40-54 | a user is in the filtered list iff it is in the batch and the lower-cased query occurs in its lower-cased full name, email or username; multiplicities are those of the batch |
| `Search.FilterIsSubsequence` | src/pages/UserListing.tsx:40-54 | the filtered list is an order-preserving subsequence of the batch |
| `Search.EmptyQueryKeepsAll` | src/pages/UserListing.tsx:42-52 | the empty search keeps the whole batch unchanged |
| `Search.FilterAppend` | src/pages/UserListing.tsx:40-54 | filtering a concatenation is concatenating the filtered parts |
| `Search.FilterIdempotent` | src/pages/UserListing.tsx:40-54 | filtering the filtered list again by the same query changes nothing |
| `Search.NarrowerQueryMatchesWider` | src/pages/UserListing.tsx:42-52 | a user matching a query also matches every query contained in it |
| `Search.NarrowingRefilters` | src/pages/UserListing.tsx:40-54 | filtering the result of a wider query by a narrower one equals filtering the batch by the narrower one |
| `Paging.TotalPages` | src/pages/UserListing.tsx:56 | the page count is the ceiling of count/12: the fewest pages of twelve holding all users, and 0 exactly for an empty list |
| `Paging.Slice` | src/pages/UserListing.tsx:59 | with non-negative arguments `slice` is the part between them cut at the end of the list, and empty when the end does not exceed the start |
| `Paging.NegativeCountsFromEnd` | src/pages/UserListing.tsx:59 | a negative start or end `a` of `slice` counts back from the end, standing for index `len + a`, and for index 0 when it reaches back past the beginning |
| `Paging.Page` | src/pages/UserListing.tsx:57-59 | a page has at most 12 users; for pages from 1 it is empty exactly past the last page; within range it is the contiguous run of `min(12, rest)` users starting at `(page-1)*12` |
| `Paging.JoinedIsPrefix` | src/pages/UserListing.tsx:56-59 | pages `1..k` joined are the prefix of the filtered list of length `min(12k, n)` |
| `Paging.PagesPartition` | src/pages/UserListing.tsx:56-59 | pages `1..totalPages` joined are exactly the filtered list |
| `Paging.PageOfPosition` | src/pages/UserListing.tsx:56-59 | position `i` of the filtered list is entry `i % 12` of page `i / 12 + 1` and lies on no other page |
| `Paging.PastLastPageIsEmpty` | src/pages/UserListing.tsx:57-59 | a page number past the last page yields an empty page, not an error |
| `Paging.NegativePageWrapsAround` | src/pages/UserListing.tsx:57-59 | with at least 24 users, page -1 would show the second-to-last twelve users, because `slice` counts negative arguments from the end |
| `Pagination.Run` | src/components/Pagination.tsx:17-20 | a counting loop from `lo` to `hi` pushes exactly the page numbers `lo..hi`, none when `hi < lo` |
| `Pagination.ListedShape` | src/components/Pagination.tsx:17-20 | listing every page gives labels in range, ascending, with no gaps |
| `Pagination.HeadShape` | src/components/Pagination.tsx:22-27 | the window near the start is in range and ascending, and its ellipsis stands for at least one page |
| `Pagination.TailShape` | src/components/Pagination.tsx:28-33 | the window near the end is in range and ascending, and its ellipsis stands for at least one page |
| `Pagination.MiddleShape` | src/components/Pagination.tsx:34-42 | the middle window is in range and ascending, and each of its two ellipses stands for at least one page |
| `Pagination.PageLabels` | src/components/Pagination.tsx:15-43 | up to 7 pages the labels are exactly `1..totalPages` (none for 0 or fewer); beyond 7 there are exactly 7 labels from `1` to `totalPages`; page numbers lie in `[1, totalPages]` and strictly increase; every ellipsis sits between two numbers at least 2 apart; adjacent numbers are consecutive; a current page within range is always listed |
| `Pagination.PushRun` | src/components/Pagination.tsx:18-20 | the counting loop appends exactly the run `lo..hi` to the labels pushed so far |
| `Pagination.BuildPageLabels` | src/components/Pagination.tsx:15-43 | pushing labels one by one, as the component does, yields exactly the label window |
| `Pagination.NavButtons` | src/components/Pagination.tsx:47-76 | Previous is disabled iff on page 1 and otherwise asks for the page before; Next is disabled iff on the last page and otherwise asks for the page after; from a page in range every enabled button asks for a page in range |
| `Pagination.TenPageWindows` | src/components/Pagination.tsx:22-42 | with ten pages, pages 1, 9 and 5 give `[1,2,3,4,5,…,10]`, `[1,…,6,7,8,9,10]` and `[1,…,4,5,6,…,10]`; five pages give `[1,2,3,4,5]` |
| `Listing.Render` | src/pages/UserListing.tsx:89-126 | loading shows only the loading message; otherwise a non-empty page shows its cards, all from the batch and matching the search, with the control iff there are at least 2 pages; the control gets the session's page, which is at most `totalPages` when it is at least 1 (reachable sessions keep it in range, see `Listing.ControlShowsCurrentPage`); an empty page shows "No users found", which on a page from 1 means the page is past the end; the error banner shows a non-empty error; the result line shows for a non-empty search with the filtered count and the plural iff the count is not 1, quoting the search text |
| `Listing.Initial` | src/pages/UserListing.tsx:12-17 | the mounted screen starts with no users, no gender filter, an empty search and page 1, showing only the loading message, with no banner and no result line, and the mount fetch's start leaves it unchanged |
| `Listing.Step` | src/pages/UserListing.tsx:19-72 | only a resolved fetch replaces the batch, and it returns to page 1 and ends loading; only a rejected fetch or a gender change touches the error; only a search changes the query; only choosing another gender changes the filter, and that also sets loading and clears the error; choosing the current gender changes nothing; a press on the pagination control changes only the page, and only when the control is on screen |
| `Listing.StartFetch` | src/pages/UserListing.tsx:21-22 | starting a fetch sets loading and clears the error, changes nothing else, and the screen shows the loading message with no banner |
| `Listing.FetchSucceeded` | src/pages/UserListing.tsx:28-33 | a successful fetch replaces the batch wholesale, returns to page 1 and ends loading; error, gender and search are kept; the screen then shows the first up-to-12 matches of the new batch, or "No users found" when none match |
| `Listing.FetchFailed` | src/pages/UserListing.tsx:30-33 | a failed fetch records the thrown error's message, or the fallback text for a non-`Error` value, and ends loading; batch, page, gender and search are kept |
| `Listing.ChangeSearch` | src/pages/UserListing.tsx:65-67 | a new search text changes only the query; the page is not reset |
| `Listing.ChangePage` | src/pages/UserListing.tsx:69-72 | a page request sets exactly the requested page, unclamped, and changes nothing else |
| `Listing.ChangeGender` | src/pages/UserListing.tsx:61-63 | the gender handler changes only the selected gender |
| `Listing.PageRequest` | src/components/Pagination.tsx:47-76 | the control only asks for a page when it is on screen, and from a page of at least 1 it only asks for pages within `[1, totalPages]` |
| `Listing.StepKeepsPagePositive` | src/pages/UserListing.tsx:19-72 | no event takes a page of at least 1 below 1 |
| `Listing.ReachablePagePositive` | src/pages/UserListing.tsx:19-72 | every session reached by any sequence of events from a page of at least 1 keeps a page of at least 1 |
| `Listing.ControlShowsCurrentPage` | src/pages/UserListing.tsx:114-120 | in every session reachable from mount, a shown control gets a current page within `[1, totalPages]`, and that page is among its labels |
| `Listing.NoMatchShowsEmptyState` | src/pages/UserListing.tsx:89-126 | a search with no match, once loaded, shows "No users found" without a control, and the result line counts 0 results |
| `Listing.StalePageHidesMatches` | src/pages/UserListing.tsx:56-67 | on page 3, a search leaving twelve matches shows "No users found" while the result line reports twelve results |
| `Listing.SettlingIgnoresRequest` | src/pages/UserListing.tsx:23-34 | a settling fetch updates the session the same way whichever request it answers: no request identity is checked |
| `Listing.LastArrivalWins` | src/pages/UserListing.tsx:19-38 | switching from Male to Female, when the earlier Male response settles after the Female one, the session holds the Male batch under the Female filter and every card on screen is a Male user |
| `Listing.FailureKeepsPreviousUsers` | src/pages/UserListing.tsx:19-34 | a fetch that starts from a loaded screen and then fails, whether started directly or by choosing another gender, brings back the main area shown before it started, under a banner with the error message when that message is not empty |

## Left out

- `src/api/userApi.ts`: the HTTP request and JSON parsing are network I/O. A fetch is modelled only as an event that resolves with a batch or rejects with a thrown value.
- The 300 ms search debounce in `src/components/SearchBar.tsx` is timer behaviour. The model sees only the query it finally delivers.
- `src/pages/UserProfile.tsx`, `src/components/UserCard.tsx` and `src/App.tsx` are declarative rendering and routing, so they are not part of this model.
- Fetch events are not tied to fetches in flight. A fetch event names the request it answers, but the model lets any number of responses settle, in any order and at any time. The screen itself keeps no record of pending requests either. The 100-user count of a request does not constrain the batch that comes back.
- `src/components/GenderFilter.tsx` is only modelled as the gender value it delivers.
- User record fields other than first and last name, email, username, uuid and gender are not used by the listing logic.
- `Text.Lower`: lower-cases ASCII letters only, where `toLowerCase` follows full Unicode case mapping.
- `window.scrollTo` on a page change is a view side effect and is not modelled.
- Page numbers are JavaScript numbers. The model uses integers, because every page number the screen produces is a whole number.
- React's batching of state updates is not modelled. Each handler's updates are applied together as one step.
