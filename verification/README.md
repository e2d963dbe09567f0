# presight-exercise: the user directory and the task queue, in Dafny

The exercise is a small full-stack application. Its server, an Express app
(`server/src/index.ts`), answers `GET /api/users` with one page of a user
directory. The request can carry a name search, a list of required hobbies and
a list of accepted nationalities. The server's tests add two inline apps of
their own. `server/src/index.test.ts` serves a variant of `/api/users` that
also reports facet counts. `server/src/queue.test.ts` builds a task queue
with `POST /api/queue-request` and `GET /api/queue-request/:id` endpoints,
and a `setInterval` worker that completes one pending item per tick and
pushes the result to the open WebSocket clients; these queue endpoints and
the worker exist only in that test file. The React client does three things:

- it shows the directory as an infinite list with facet filters in a sidebar;
- it keeps a selection of hobbies and nationalities;
- it tracks queued tasks until every one has a result.

This project models that logic and proves its properties. The files are:

- `seqs.dfy` (`Seqs`): `Array.prototype.filter`, order-preserving
  subsequences, distinctness and occurrence counts, with their lemmas.
- `text.dfy` (`Text`): `toLowerCase`, `includes`, `split` on one character,
  `join` and `filter(Boolean)`. It proves that joining a list and splitting it
  again gives the list back.
- `users.dfy` (`UserModel`): the user record.
- `user_query.dfy` (`UserQuery`): the production handler of
  `server/src/index.ts`. It parses parameters with defaults, runs three staged
  filters and cuts one page.
- `facet_query.dfy`:
  - `FacetQuery` is the handler variant inlined in `server/src/index.test.ts`.
    Its search splits into terms, its nationality filter is a single value,
    and it reports hobby and nationality facet counts. The counts come from an
    imperative reduce over two insertion-ordered maps.
  - `FacetQueryFixture` holds that file's three-user fixture and its test
    expectations.
- `task_queue.dfy` (`TaskQueue`): the queue of `server/src/queue.test.ts`.
  - A `Queue` class keeps an insertion-ordered map, with `Create`, `Get` and
    the worker `Tick`.
  - The tick broadcasts to the open clients.
  - Lemmas cover draining the queue tick by tick.
- `filter_selection.dfy` (`FilterSelection`): `toggleItem` and the
  checked-state test of `FilterSection.tsx`.
- `infinite_users.dfy` (`InfiniteUsers`): `fetchUsers`, `getNextPageParam`
  and the flattening of loaded pages in `useUsers.ts`. It includes the walk
  over all pages from page 1.
- `task_tracker.dfy` (`TaskTracker`): the task list of
  `useWebSocketQueue.ts`. A `TaskList` class holds the `tasks` and the sticky
  `allCompleted` flag and applies the per-message update.
- `users_page.dfy` (`UsersPageLogic`): the facet lists derived on
  `UsersPage.tsx`, the virtual row count and the load-more condition.

Strings are `seq<char>`. Counts are unbounded integers. JavaScript `Map`s
that keep insertion order become association sequences.

## Model

| member | source | states |
|---|---|---|
| UserQuery.NumberOr | server/src/index.ts:16-17 | `Number(x) \|\| d`: a missing or zero parameter takes the default; any other value is kept; the result is never zero |
| UserQuery.ParseList | server/src/index.ts:19-20 | the parsed hobby or nationality list holds no empty segment and no comma; a missing parameter gives the empty list |
| UserQuery.SearchStage | server/src/index.ts:24-29 | the search stage is one filter by "search empty or the first or last name contains it" |
| UserQuery.HobbyStage | server/src/index.ts:31-35 | the hobby stage is one filter by "no hobbies requested or the user has every one" |
| UserQuery.NationalityStage | server/src/index.ts:37-41 | the nationality stage is one filter by "no nationalities requested or the user's is one of them" |
| UserQuery.FilteredIsOneFilter | server/src/index.ts:22-41 | the three staged filters equal one filter by the conjunction of the switched-on tests, and the result is an order-preserving subsequence of the users |
| UserQuery.FilteredMembers | server/src/index.ts:22-41 | a user is in the filtered list exactly when it is one of the users and passes every switched-on filter |
| UserQuery.NoCriteriaKeepsAll | server/src/index.ts:22-41 | with no search, no hobbies and no nationalities the filtered list is the whole user list |
| UserQuery.CeilDiv | server/src/index.ts:44 | `Math.ceil(n / d)` is the least count of `d`-sized pages covering `n` items |
| UserQuery.Resolve | server/src/index.ts:16-20 | the parsed page, limit, lowercased search and lists; stated by `NumberOr`, `ParseList`, `DefaultQuery` and `InfiniteUsers.RequestRoundTrip` |
| UserQuery.Filtered | server/src/index.ts:22-41 | the three staged filters; stated by `FilteredIsOneFilter`, `FilteredMembers` and `NoCriteriaKeepsAll` |
| UserQuery.Paginate | server/src/index.ts:45-48 | `slice((page-1)*limit, page*limit)` has length `min(limit, max(0, n-(page-1)*limit))` and its i-th item is item `(page-1)*limit + i` of the list |
| UserQuery.FirstPageWhole | server/src/index.ts:45-48 | a list no longer than the limit is its own first page |
| UserQuery.PageMembers | server/src/index.ts:48 | every item on a page comes from the list it was cut from |
| UserQuery.Respond | server/src/index.ts:43-55 | `total` is the filtered count, `page` is the requested page, `totalPages` is the ceiling of total over limit, and `data` is that page of the filtered users with the page-length law |
| UserQuery.RespondMembers | server/src/index.ts:22-48 | every user in `data` is one of the users and passes every switched-on filter |
| UserQuery.HandleUsers | server/src/index.ts:15-56 | the handler answers the defaulted page, the filtered total and its page count, and as `data` that page of the filtered users, of length `min(limit, max(0, total-(page-1)*limit))`, holding only users that pass the query's filters |
| UserQuery.DefaultQuery | server/src/index.ts:16-20 | a query without parameters resolves to page 1, limit 20, no filters, and returns the first 20 users |
| Text.LowerChar | server/src/index.ts:18 | `toLowerCase` maps `A`-`Z` to `a`-`z` and leaves every other character alone |
| Text.Lower | server/src/index.ts:18 | lowercasing keeps the length and lowercases each character |
| Text.ContainsAt | server/src/index.ts:26-27 | `includes` holds exactly when the needle occurs at some position of the string |
| Text.NotContainsMissingChar | server/src/index.test.ts:51 | a needle holding a character absent from the string is not included in it |
| Text.Split | server/src/index.ts:19-20 | `split` gives at least one piece, no piece holds the separator, and joining the pieces gives the string back |
| Text.DropEmpty | server/src/index.ts:19-20 | `filter(Boolean)` keeps exactly the non-empty pieces |
| Text.SplitTwo | server/src/index.test.ts:48 | two separator-free words joined by the separator split back into those two words |
| Text.SplitJoin | client/src/hooks/useUsers.ts:26-27 | splitting a join of separator-free pieces gives the pieces back |
| Text.ListRoundTrip | client/src/hooks/useUsers.ts:26-27 | a comma-joined list of non-empty comma-free labels survives `split(',').filter(Boolean)` unchanged, the empty list included |
| Seqs.Filter | server/src/index.ts:25-40 | `filter` keeps exactly the items passing the test, and only items of the input |
| Seqs.FilterIsSubsequence | server/src/index.ts:22-41 | a filter result is an order-preserving subsequence of its input |
| Seqs.FilterFilter | server/src/index.ts:22-41 | two successive filters are one filter by the conjunction of their tests |
| FacetQuery.SearchTerms | server/src/index.test.ts:48 | the lowercased search split on single spaces; stated by `TestFilteredMembers`, `FacetQueryFixture.OneTerm` and `FacetQueryFixture.TwoTerms` |
| FacetQuery.TestFiltered | server/src/index.test.ts:45-65 | the search, nationality and hobby stages of the test handler; stated by `TestFilteredMembers`, `TestFilteredIsSubsequence` and the fixture lemmas below |
| FacetQuery.TestFilteredMembers | server/src/index.test.ts:47-65 | a user is in the test handler's filtered list exactly when it is one of the users, every lowercased space-separated term occurs in its lowercased "first last", its nationality equals the filter's when a non-empty one is given, and it has every listed hobby when a list (even an empty one) is given |
| FacetQuery.TestFilteredIsSubsequence | server/src/index.test.ts:45-65 | the filtered list is an order-preserving subsequence of the users |
| FacetQuery.Increment | server/src/index.test.ts:70-76 | `map.set(k, (map.get(k) \|\| 0) + 1)` raises the count of `k` by one, leaves every other count alone, adds one to the total and keeps counts positive |
| FacetQuery.IncrementKeepsDistinct | server/src/index.test.ts:70-76 | `set` on a map never creates a second entry for a key |
| FacetQuery.LookupPositive | server/src/index.test.ts:67-84 | in a map built by increments a key has a positive count exactly when it is present |
| FacetQuery.AddHobbies | server/src/index.test.ts:69-71 | the `forEach` over one user's hobbies adds, for each label, its number of occurrences in that list, and keeps keys distinct and counts positive |
| FacetQuery.CountFacets | server/src/index.test.ts:67-84 | the reduce gives, for every label, the number of hobby occurrences and the number of users of that nationality over the filtered users, with distinct keys, positive counts, and nationality counts summing to the number of users |
| FacetQuery.HobbyFacetLabels | server/src/index.test.ts:67-72 | a hobby appears among the facet keys exactly when some filtered user lists it |
| FacetQuery.HobbyOccurrencesPositive | server/src/index.test.ts:67-72 | a hobby's occurrence count is positive exactly when some user lists it |
| FacetQuery.HandleTestUsers | server/src/index.test.ts:38-103 | the response carries the defaulted page and limit (1 and 10), the filtered total, the ceiling page count, the page of the filtered list, facet counts over the filtered users with distinct keys and positive counts, and nationality counts summing to `total` |
| FacetQueryFixture.Unfiltered | server/src/index.test.ts:107-114 | the unfiltered fixture query keeps all three users |
| FacetQueryFixture.Italians | server/src/index.test.ts:127-135 | the Italian filter keeps Jane and Mario, in that order |
| FacetQueryFixture.Gamers | server/src/index.test.ts:137-145 | the Gaming filter keeps John and Mario, in that order |
| FacetQueryFixture.FixtureNationalities | server/src/index.test.ts:73-76 | over the fixture, Italian counts 2 and USA counts 1 |
| FacetQueryFixture.FixtureHobbies | server/src/index.test.ts:69-71 | over the fixture, Gaming occurs twice and Music once |
| FacetQueryFixture.DefaultPagination | server/src/index.test.ts:107-114 | `GET /api/users` answers page 1, limit 10, total 3 with three users, and the facet counts above |
| FacetQueryFixture.CustomLimit | server/src/index.test.ts:116-123 | `?page=1&limit=2` answers page 1, limit 2, total 3 with two users |
| FacetQueryFixture.ItalianFilter | server/src/index.test.ts:127-135 | the nationality filter answers total 2 and only Italian users |
| FacetQueryFixture.GamingFilter | server/src/index.test.ts:137-145 | the hobby filter answers total 2 and only users who play Gaming |
| FacetQueryFixture.OneTerm | server/src/index.test.ts:48 | a lowercase search without a space is a single term |
| FacetQueryFixture.TwoTerms | server/src/index.test.ts:48 | `mario rossi` splits into the terms `mario` and `rossi` |
| FacetQueryFixture.SearchJohn | server/src/index.test.ts:149-154 | over the fixture, the search `john` keeps only John Doe |
| FacetQueryFixture.SearchSmith | server/src/index.test.ts:156-161 | over the fixture, the search `smith` keeps only Jane Smith |
| FacetQueryFixture.SearchMarioRossi | server/src/index.test.ts:163-169 | over the fixture, the search `mario rossi` keeps only Mario Rossi: each term matches a different name |
| FacetQueryFixture.SearchMarioItalian | server/src/index.test.ts:173-185 | over the fixture, the search `mario` with the Italian filter keeps only Mario |
| FacetQueryFixture.SearchByFirstName | server/src/index.test.ts:149-154 | `?search=john` answers total 1 and the one user John |
| FacetQueryFixture.SearchByLastName | server/src/index.test.ts:156-161 | `?search=smith` answers total 1 and the one user with last name Smith |
| FacetQueryFixture.SearchAcrossNames | server/src/index.test.ts:163-169 | `?search=mario rossi` answers total 1 and the one user Mario Rossi |
| FacetQueryFixture.SearchWithNationality | server/src/index.test.ts:173-185 | `search=mario` with `filter={"nationality":"Italian"}` answers total 1 and the one Italian user Mario |
| FacetQueryFixture.FilteredPage | server/src/index.test.ts:187-202 | page 1 of limit 1 under the Italian filter answers total 2 and one Italian user |
| TaskQueue.Set | server/src/queue.test.ts:36 | `queue.set` on the insertion-ordered map; stated by `SetAppends`, `SetKeepsIds`, `SetThenLookup`, `LookupAfterSet`, `SetKeepsOthers` and `SetKeepsUnique` |
| TaskQueue.PendingItems | server/src/queue.test.ts:56-57 | the pending entries in insertion order; stated by `TickDropsHead`, `PendingCountDrops` and `DrainReportsPendingInOrder` |
| TaskQueue.AfterTick | server/src/queue.test.ts:59-63 | the queue after one worker tick; stated by `IdleTick`, `TickCompletesFirstPending`, `CompletedStaysCompleted` and `TickDropsHead` |
| TaskQueue.Reported | server/src/queue.test.ts:59-71 | the id the tick's message carries, if any; stated by `IdleTick`, `TickDropsHead` and `DrainReportsEachOnce` |
| TaskQueue.Lookup | server/src/queue.test.ts:41 | `queue.get(id)` finds an item with that id exactly when the id is a key |
| TaskQueue.SetAppends | server/src/queue.test.ts:36 | `queue.set` with a new id appends the item at the end |
| TaskQueue.SetKeepsIds | server/src/queue.test.ts:36 | `queue.set` with a present id keeps the keys and their order |
| TaskQueue.SetThenLookup | server/src/queue.test.ts:36-41 | after `set`, `get` of that id returns the item just set |
| TaskQueue.LookupAfterSet | server/src/queue.test.ts:36-41 | `set` of one id does not change `get` of another |
| TaskQueue.SetKeepsOthers | server/src/queue.test.ts:36 | `set` leaves every entry with a different id in place |
| TaskQueue.SetKeepsUnique | server/src/queue.test.ts:36 | the map keeps one entry per id |
| TaskQueue.Broadcast | server/src/queue.test.ts:73-77 | the message goes to every open client and to no closed one, unchanged |
| TaskQueue.BroadcastOpen | server/src/queue.test.ts:73-77 | there is exactly one delivery per open client, in the clients' order, so no client receives the message twice |
| TaskQueue.IdleTick | server/src/queue.test.ts:56-59 | a tick without pending items changes nothing and reports nothing |
| TaskQueue.TickCompletesFirstPending | server/src/queue.test.ts:56-63 | a tick with pending items keeps the keys, completes exactly the first pending item in insertion order with result "Test result", and leaves every other item unchanged |
| TaskQueue.CompletedStaysCompleted | server/src/queue.test.ts:56-63 | a completed item is still completed after a tick |
| TaskQueue.TickDropsHead | server/src/queue.test.ts:56-63 | after a tick the pending items are the earlier ones minus the first, and the reported id is that first one |
| TaskQueue.PendingCountDrops | server/src/queue.test.ts:56-63 | each tick with pending items lowers the pending count by exactly one |
| TaskQueue.DrainReportsPendingInOrder | server/src/queue.test.ts:55-79 | n ticks report the first n pending ids in insertion order |
| TaskQueue.DrainReportsEachOnce | server/src/queue.test.ts:55-79 | draining reports every pending id, each exactly once |
| TaskQueue.NewItemsPending | server/src/queue.test.ts:29-38 | freshly created items are all pending and keep the created ids in order |
| TaskQueue.CreateAllAppends | server/src/queue.test.ts:29-38 | creating fresh distinct ids appends their pending items in arrival order |
| TaskQueue.CreateAllKeepsUnique | server/src/queue.test.ts:29-38 | creation keeps one entry per id |
| TaskQueue.CreatedReportedOnce | server/src/queue.test.ts:150-179 | after n fresh items are created into an idle queue, n ticks report exactly those ids in creation order, each exactly once |
| TaskQueue.Queue.constructor | server/src/queue.test.ts:22 | the queue starts empty |
| TaskQueue.Queue.Create | server/src/queue.test.ts:29-38 | `POST /api/queue-request` sets a pending item without result under the id and answers `{id, status: 'pending'}` |
| TaskQueue.Queue.Get | server/src/queue.test.ts:40-47 | `GET /api/queue-request/:id` answers the stored item when the id is known, otherwise 404 "Item not found" |
| TaskQueue.Queue.Tick | server/src/queue.test.ts:55-79 | the worker tick moves the queue to its after-tick state and sends the result message for the completed id to the open clients, or sends nothing when no item is pending |
| TaskQueue.Send | server/src/queue.test.ts:73-77 | the `forEach` over clients delivers the message to exactly the open ones |
| TaskQueue.CreateThenGet | server/src/queue.test.ts:100-113 | `get` right after `create` returns that id, pending and without result |
| TaskQueue.GetUnknown | server/src/queue.test.ts:115-121 | `get` of an id never created answers 404 "Item not found" |
| TaskQueue.CreateThenTick | server/src/queue.test.ts:125-148 | one created item and one tick send a `result` message with that id and a non-empty text to the open client |
| FilterSelection.Toggle | client/src/components/FilterSection.tsx:16-21 | `toggleItem`'s new selection; stated by `ToggleFlips`, `ToggleRemoves`, `ToggleAppends`, `ToggleTwice` and `ToggleKeepsDistinct` |
| FilterSelection.Checked | client/src/components/FilterSection.tsx:58 | a label's checkbox is checked when the selection includes it; stated by `ToggleFlips` |
| FilterSelection.ToggleFlips | client/src/components/FilterSection.tsx:16-21 | a toggle flips whether the toggled label is checked and leaves every other label's checked state alone |
| FilterSelection.ToggleRemoves | client/src/components/FilterSection.tsx:17-18 | toggling a selected label removes every copy of it, keeps the rest in order, and shortens the selection |
| FilterSelection.ToggleAppends | client/src/components/FilterSection.tsx:17-19 | toggling an unselected label appends it after the unchanged selection, making it one longer |
| FilterSelection.ToggleTwice | client/src/components/FilterSection.tsx:16-21 | toggling an unselected label twice gives the original selection |
| FilterSelection.ToggleKeepsDistinct | client/src/components/FilterSection.tsx:16-21 | a selection without repeats stays without repeats |
| InfiniteUsers.Request | client/src/hooks/useUsers.ts:18-28 | the query `fetchUsers` sends; stated by `RequestRoundTrip` |
| InfiniteUsers.NextPageParam | client/src/hooks/useUsers.ts:49-50 | `getNextPageParam`; stated by `LoadFromPages` and `PageWalk` |
| InfiniteUsers.Flatten | client/src/hooks/useUsers.ts:54 | `pages.flatMap(page => page.data)`; stated by `FlattenAppend`, `FlattenLength`, `FlattenPages` and `LoadAllIsMatching` |
| InfiniteUsers.RequestRoundTrip | client/src/hooks/useUsers.ts:18-28 | the request `fetchUsers` builds resolves on the server to the same page, the limit (12 when none is given), the lowercased search and the same hobby and nationality lists |
| InfiniteUsers.FetchUsers | client/src/hooks/useUsers.ts:30-34 | `fetchUsers` returns the server's page of the matching users, and `nextPage` is the page plus one |
| InfiniteUsers.LoadFromPages | client/src/hooks/useUsers.ts:49-51 | following `getNextPageParam` from a page loads one page per remaining page number, up to `max(1, totalPages)`, the i-th being page `page + i` |
| InfiniteUsers.PageWalk | client/src/hooks/useUsers.ts:49-51 | starting from page 1 the list loads pages 1, 2, … strictly increasing, never past `max(1, totalPages)` and none twice |
| InfiniteUsers.LoadAllFetches | client/src/hooks/useUsers.ts:48-51 | the i-th loaded page is what `fetchUsers` returns for page i + 1 |
| InfiniteUsers.FlattenAppend | client/src/hooks/useUsers.ts:54 | `flatMap` over two runs of pages is the concatenation of the two |
| InfiniteUsers.FlattenLength | client/src/hooks/useUsers.ts:54 | the flattened list is as long as the pages' data together |
| InfiniteUsers.FlattenPages | client/src/hooks/useUsers.ts:49-54 | the pages loaded from a page on flatten to the matching users from that page's offset on |
| InfiniteUsers.LoadAllIsMatching | client/src/hooks/useUsers.ts:49-54 | once every page is loaded, `users` is exactly the server's filtered list, in order |
| TaskTracker.Receive | client/src/hooks/useWebSocketQueue.ts:42-65 | the tasks after one frame; stated by `ApplyResult`, `UnknownIdUnchanged`, `ReceiveAll`, `ReceiveAllKeeps` and `ResultCompletes` |
| TaskTracker.ApplyResult | client/src/hooks/useWebSocketQueue.ts:48-56 | a result completes the tasks with its id, with the message text as result, and keeps their id and creation time; the length, the order and every other task are unchanged |
| TaskTracker.UnknownIdUnchanged | client/src/hooks/useWebSocketQueue.ts:48-56 | a result for an unknown id changes nothing |
| TaskTracker.ApplyResultIdempotent | client/src/hooks/useWebSocketQueue.ts:48-56 | applying the same result twice equals applying it once |
| TaskTracker.AllDoneAfterResult | client/src/hooks/useWebSocketQueue.ts:48-58 | after a result every task is completed exactly when each task has the result's id or was completed already |
| TaskTracker.ReceiveAll | client/src/hooks/useWebSocketQueue.ts:42-69 | a run of messages keeps the number of tasks |
| TaskTracker.ReceiveAllKeeps | client/src/hooks/useWebSocketQueue.ts:42-69 | messages never change a task's id and never move a completed task back |
| TaskTracker.ResultCompletes | client/src/hooks/useWebSocketQueue.ts:46-56 | a task is completed once a result with its id has arrived |
| TaskTracker.ResultsForEveryTask | client/src/hooks/useWebSocketQueue.ts:46-61 | once a result has arrived for every task, all tasks are completed |
| TaskTracker.TaskList.constructor | client/src/hooks/useWebSocketQueue.ts:19-20 | the hook starts with no tasks and `allCompleted` false |
| TaskTracker.TaskList.Created | client/src/hooks/useWebSocketQueue.ts:32-36 | a created task is appended, pending, with the returned id; earlier tasks and the flag are unchanged |
| TaskTracker.TaskList.Open | client/src/hooks/useWebSocketQueue.ts:26-40 | the creation loop appends one pending task per returned id, in arrival order, after the unchanged earlier tasks |
| TaskTracker.TaskList.OnMessage | client/src/hooks/useWebSocketQueue.ts:42-69 | a result message updates the tasks and sets `allCompleted` once all are completed (an empty list included); other or unparsable messages change nothing; the flag never goes back to false |
| TaskTracker.ResultBeforeAnyTask | client/src/hooks/useWebSocketQueue.ts:58-61 | a result arriving before any task is created already sets `allCompleted` |
| TaskTracker.TwoTasks | client/src/hooks/useWebSocketQueue.ts:42-69 | with two tasks the flag stays false after the first result and becomes true after the second |
| UsersPageLogic.LessEqTotal | client/src/pages/UsersPage.tsx:79 | the label order compares any two labels |
| UsersPageLogic.SortByPermutes | client/src/pages/UsersPage.tsx:79 | sorting by label gives a sorted rearrangement of its input |
| UsersPageLogic.Dedup | client/src/pages/UsersPage.tsx:74-75 | `Array.from(new Set(xs))` holds every value of `xs` exactly once |
| UsersPageLogic.AllHobbiesMembers | client/src/pages/UsersPage.tsx:75 | `flatMap` of hobbies holds a label exactly when some user lists it |
| UsersPageLogic.AllNationalitiesMembers | client/src/pages/UsersPage.tsx:81 | `map` of nationalities holds a value exactly when some user has it |
| UsersPageLogic.FacetsShape | client/src/pages/UsersPage.tsx:73-86 | a facet list has distinct labels sorted by label, each label's count is its counter's value, and its labels are exactly the input values |
| UsersPageLogic.HobbyFacets | client/src/pages/UsersPage.tsx:74-79 | the hobby facet list; stated by `HobbyFacetsSpec` and `FacetsShape` |
| UsersPageLogic.NationalityFacets | client/src/pages/UsersPage.tsx:80-85 | the nationality facet list; stated by `NationalityFacetsSpec`, `NationalityTotal` and `FacetsShape` |
| UsersPageLogic.HobbyFacetsSpec | client/src/pages/UsersPage.tsx:74-79 | the hobby facets are the distinct hobbies of the loaded users, sorted by label, each counting the users who list it, at least 1 |
| UsersPageLogic.NationalityFacetsSpec | client/src/pages/UsersPage.tsx:80-85 | the nationality facets are the distinct nationalities, sorted by label, each counting its users, at least 1, and the counts sum to the number of users |
| UsersPageLogic.NationalityTotal | client/src/pages/UsersPage.tsx:80-85 | the nationality counts sum to `users.length` |
| UsersPageLogic.HobbySectionShown | client/src/pages/UsersPage.tsx:95 | the hobby section is shown exactly when some loaded user lists a hobby |
| UsersPageLogic.NationalitySectionShown | client/src/pages/UsersPage.tsx:104 | the nationality section is shown exactly when some user is loaded |
| UsersPageLogic.RowCount | client/src/pages/UsersPage.tsx:30 | the virtualizer's row count; stated by `LoaderRowLoads` |
| UsersPageLogic.ShouldLoadMore | client/src/pages/UsersPage.tsx:40-51 | the load-more effect's test; stated by `LoaderRowLoads` |
| UsersPageLogic.LoaderRowLoads | client/src/pages/UsersPage.tsx:30-51 | for any row of the virtual list (index below `RowCount`): while a next page exists the loader row, at index `users.length`, is the last row; the effect requests the next page exactly when a next page exists, none is being fetched, and the last visible row is the last user's row or the loader row |

## Left out

- Text.LowerChar: `toLowerCase` is modelled on the ASCII letters only. JavaScript also lowercases other scripts, and the model leaves non-ASCII characters unchanged.
- UserQuery.NumberOr: `Number(x)` on text that is not a number gives `NaN`, which `||` also replaces by the default. The model takes the parameter as an optional integer. It does not model negative or fractional pages and limits, or `slice` with negative indices. The handlers require a page and a limit of at least 1.
- UserQuery.CeilDiv: `Math.ceil` on a float division is modelled as integer division rounding up, which agrees for the non-negative integers the model allows.
- FacetQuery.HandleTestUsers: the `filter` query parameter is taken already parsed, as an optional nationality and an optional hobby list. `JSON.parse` and its errors are not modelled.
- FacetQuery.HandleTestUsers: the facet maps are returned as association lists of `{label, count}` in key-insertion order, so the conversion by `Array.from(map.entries())` is the identity here.
- The user list is an input. `generateUsers` in `server/src/data.ts` draws from faker and `Math.random`, and is not part of this model.
- Ids, timestamps and clocks are parameters: `'test-' + Date.now()`, `Date.now()` and `new Date()`. A colliding id overwrites the existing entry in place, as `queue.set` does.
- TaskQueue.Queue.Tick: the worker completes the first pending item in insertion order, as the code does. The `setInterval` schedule is replaced by explicit calls to `Tick`.
- WebSocket and HTTP plumbing is not modelled: connection lifecycle, `readyState` changes, `JSON.stringify`/`JSON.parse` of frames and `supertest`. A client is an id with an open flag. An incoming frame is either a parsed message or `Unparsable`, a frame that `JSON.parse` rejects.
- TaskTracker.TaskList.OnMessage: a frame that parses but has no `data` field is not modelled. The handler reads `message.data.id` inside the `setTasks` updater, which React runs outside the handler's `try`, so such a frame raises an error in the component instead of being ignored.
- TaskTracker.TaskList.Open: the twenty `api.queue.create()` calls complete asynchronously, and their `then` callbacks may run in any order. The model takes the ids in the order they arrive. Failed creations, which only log an error, are absent from that list.
- InfiniteUsers.FetchUsers: the HTTP round trip is the server handler applied to the request the client builds. `useInfiniteQuery` caching, refetching and cancellation are not modelled.
- InfiniteUsers.NextPageParam has no contract of its own. Its behaviour is stated through `LoadFromPages` and `PageWalk`.
- UsersPageLogic.LessEqTotal: `localeCompare` is modelled as lexicographic order on character codes. Its locale rules are not modelled. Labels are distinct, so the stability of JavaScript's sort does not matter.
- Rendering, layout, the TanStack virtualizer internals, character streaming (`server/src/stream.test.ts`, `StreamingTextDisplay.tsx`, `readStream`) and `server/src/worker.ts` are not part of this model.
