# JobSearch component model

A Dafny model of the `JobSearch` Lightning Web Component
(`force-app/main/default/lwc/jobSearch/jobSearch.js`). The component lets a
user:

- search a job board by keywords and location;
- page through the results 100 at a time;
- sort the page on display;
- tick rows on any page;
- submit all ticked rows as one batch.

The model covers the component's state and every handler that changes it:

- **Page cache and loading.** `getJobs` serves a page from
  `allJobsByPageNumber` when the page is stored there. Otherwise it calls
  `searchJobs`. Its `finally` block sets the status line and the four
  navigation buttons from the requested page R. It then moves `currentPage`
  to R and sets `requestedPage` to null. The navigation handlers only choose
  R.
- **Selection tracker.** `handleJobSelection` rewrites the slice of
  `selectedJobsByPageNumber` for the current page.
  - `checkIfJobsSavedOnAllPages` tells whether any slice is non-empty.
  - The save button stays disabled exactly when no slice is non-empty. This
    is the invariant `Valid`, which every handler preserves.
- **Reset and search gating.**
  - `resetVariablesForNewSearch` restores the initial values.
  - `handleSearchParameters` keeps the search button disabled exactly when a
    criterion is empty.
  - `handleSearchClick` resets only after a completed search.
- **Sort.** The `sortByField` comparator and `handleTableSort`, which sorts a
  copy of the rows on display.
- **Batch save.** `handleJobSave` gathers the slices with a `for...in` loop,
  submits them, and then always resets and notifies success.
- **Errors.** `showError` builds the message shown for a failed call.

## How the model is built

- **The component is one class, `JobSearchComponent.JobSearch`.** Each
  handler is a method with a narrow `modifies` frame.
  - The fields declared at lines 9-48 are kept in eight datatype-valued
    groups. Seven follow the source's comment headings (lines 9, 13, 18, 33,
    38, 42 and 46), and the heading at line 18 is split into the buttons and
    the rest of the UI. The groups are search parameters, error handling,
    buttons, the rest of the UI, totals, paging, the rows on display, and
    the stores. So `this.totalPages` is `totals.totalPages` in the model.
  - `jobTableColumns` is not modelled.
- **Remote calls are parameters.** `searchJobs` and `processSelectedJobs`
  are Apex calls. Each handler that awaits one is given the way it settles
  (`Apex.FetchOutcome`, `Apex.SaveOutcome`). A handler that may call
  `searchJobs` returns the request it sent, or `None` when it made no call.
- **JavaScript semantics are written out.**
  - `requestedPage` is `Option<int>`, and `Number(null)` is 0
    (`JsValues.ToNumber`).
  - The status line renders null as `"null"`.
  - The back/first test `Number(this.requestedPage == 1)` holds exactly
    when `requestedPage` is 1.
  - A JavaScript object remembers the order in which it gained its keys. The
    model records this order for the selection store (`selectionKeyOrder`).
  - A `for...in` loop visits array-index keys (0 to 2^32 - 2) ascending, and
    then the other keys in insertion order (`Selections.ForInOrder`).
- **The filter at lines 186-187 keeps every row.** It asks a set of string
  ids whether it holds a row object. Values are modelled as `JsString` or
  `JsObject` (`Selections.KeepNotYetSelected`), so the answer is always no
  and every row is kept.
- **`Array.prototype.sort` is replaced by a stable insertion sort**
  (`Sorting.SortBy`). On a column where numbers and text mix, the source's
  comparator is not transitive. The result is therefore proved to be a
  permutation on all inputs, and ordered when the column holds one kind of
  value and the string comparison is a total preorder.

Behaviour that follows from the code as written. Each item is proved on the
model:

- A first search whose call fails leaves `requestedPage` null and
  `searchComplete` false. Clicking search again therefore requests page 0
  (`Scenarios.RetryAfterFailedSearch`).
- A page can hold a selection without being cached. After a failed
  next-page call the component still moves to that page
  (`Scenarios.SelectedPageNotCached`).
- A failed save still ends in the reset and the success notification. The
  error message it set is cleared straight away
  (`Scenarios.FailedSaveStillResets`).
- The batch lists pages in ascending page number, not in the order they
  were picked (`Scenarios.BatchFollowsPageOrder`).
- Missing values (null, undefined, `''`) sort first when ascending and last
  when descending (lines 286-298; `Jobs.CompareJobs`,
  `Scenarios.MissingValueSortsFirstAscending`).

## Model

Source paths are relative to the repository root.

| member | source | states |
|---|---|---|
| JsValues.DigitChar | force-app/main/default/lwc/jobSearch/jobSearch.js:249-251 | a decimal digit is rendered as a character between '0' and '9' |
| JsValues.NatToString | force-app/main/default/lwc/jobSearch/jobSearch.js:249-251 | the text of a page number is non-empty, all digits, and has no leading zero |
| JsValues.NatToStringRoundTrip | force-app/main/default/lwc/jobSearch/jobSearch.js:249-251 | reading the digits of a rendered number back gives the number |
| JsValues.NatToStringInjective | force-app/main/default/lwc/jobSearch/jobSearch.js:249-251 | two numbers that render alike are equal |
| JsValues.NegativeTextIsNotDigits | force-app/main/default/lwc/jobSearch/jobSearch.js:249-251 | a negative number never renders like a non-negative one |
| JsValues.IntToStringInjective | force-app/main/default/lwc/jobSearch/jobSearch.js:249-251 | two integers that render alike are equal |
| JobSearchComponent.PageNumberTextDeterminesTotalPages | force-app/main/default/lwc/jobSearch/jobSearch.js:249-251 | two status lines for the same requested page are equal only when they report the same page count |
| Sorting.Insert | force-app/main/default/lwc/jobSearch/jobSearch.js:263 | inserting into a sorted run keeps exactly the given rows plus the new one |
| Sorting.SortBy | force-app/main/default/lwc/jobSearch/jobSearch.js:263 | the sort returns a permutation of its input |
| Sorting.SortedPrepend | force-app/main/default/lwc/jobSearch/jobSearch.js:263 | a row no greater than every row of a sorted run can go in front of it |
| Sorting.InsertSorted | force-app/main/default/lwc/jobSearch/jobSearch.js:263 | under a total preorder, inserting into a sorted run leaves it sorted |
| Sorting.SortByOrdersWithin | force-app/main/default/lwc/jobSearch/jobSearch.js:263 | under a total preorder on a domain holding the input, the sort's result is ordered |
| Sorting.SortByOrders | force-app/main/default/lwc/jobSearch/jobSearch.js:263 | under a total preorder on the input, the sort's result is ordered |
| Sorting.SortIntsAscending | force-app/main/default/lwc/jobSearch/jobSearch.js:316 | integer keys sorted by difference come out as a permutation in ascending order |
| Jobs.Multiplier | force-app/main/default/lwc/jobSearch/jobSearch.js:278 | the multiplier is +1 or -1, and +1 exactly for 'asc' |
| Jobs.CompareJobs | force-app/main/default/lwc/jobSearch/jobSearch.js:281-307 | two missing values tie; a missing first value goes first when ascending and last otherwise, and the mirror case gives the opposite; two numbers compare by signed difference; any other pair by the collation of their text, signed by the direction |
| Jobs.SortByField | force-app/main/default/lwc/jobSearch/jobSearch.js:271-308 | the returned closure compares every pair of rows exactly as CompareJobs does |
| Jobs.DescendingNegatesAscending | force-app/main/default/lwc/jobSearch/jobSearch.js:278-307 | any direction other than 'asc' gives exactly the negation of the ascending comparison |
| Jobs.CompareTotal | force-app/main/default/lwc/jobSearch/jobSearch.js:281-307 | with a collation that is a total preorder, any two rows compare one way or the other |
| Jobs.CompareTransitive | force-app/main/default/lwc/jobSearch/jobSearch.js:281-307 | on values of one kind (missing, number, or text), the comparator is transitive |
| Jobs.ComparatorOrdersSingleKindColumn | force-app/main/default/lwc/jobSearch/jobSearch.js:271-308 | on a column holding one kind of value, the comparator is a total preorder of the rows |
| Jobs.SortRowsOrders | force-app/main/default/lwc/jobSearch/jobSearch.js:261-263 | sorting such a column leaves the rows ordered by the comparator |
| Jobs.SortRowsOrdersWhenOrderable | force-app/main/default/lwc/jobSearch/jobSearch.js:261-263 | the same, stated for every column with the conditions as hypotheses |
| Jobs.SortRows | force-app/main/default/lwc/jobSearch/jobSearch.js:261-263 | the sorted copy is a permutation of the rows on display, and it is ordered when the column is orderable |
| Selections.Values | force-app/main/default/lwc/jobSearch/jobSearch.js:167 | Object.values lists one slice per key, each the slice stored under that key |
| Selections.SomeNonEmptyValues | force-app/main/default/lwc/jobSearch/jobSearch.js:167 | the some() over the values succeeds exactly when a listed page has a non-empty slice |
| Selections.SomeNonEmptyIsAnySelection | force-app/main/default/lwc/jobSearch/jobSearch.js:166-168 | listing every key, the some() is true exactly when some page holds a selection |
| Selections.ClearingASliceKeepsTheOthers | force-app/main/default/lwc/jobSearch/jobSearch.js:177-183 | after one slice is emptied, any remaining selection was there before |
| Selections.Ids | force-app/main/default/lwc/jobSearch/jobSearch.js:119-120 | the ids come one per row, in row order |
| Selections.IdSet | force-app/main/default/lwc/jobSearch/jobSearch.js:174-186 | the set holds only strings, among them the id of every given row |
| Selections.KeepNotYetSelected | force-app/main/default/lwc/jobSearch/jobSearch.js:187 | only given rows the set does not hold are kept; against a set of strings every row is kept, in order |
| Selections.AppendKey | force-app/main/default/lwc/jobSearch/jobSearch.js:179-189 | assigning a key extends the key order, by that key exactly when it is new |
| Selections.AppendKeyRecords | force-app/main/default/lwc/jobSearch/jobSearch.js:179-189 | after the assignment the key order again lists each key of the store exactly once |
| Selections.IndexKeys | force-app/main/default/lwc/jobSearch/jobSearch.js:316 | the keys kept are array indices |
| Selections.OtherKeys | force-app/main/default/lwc/jobSearch/jobSearch.js:316 | the keys kept are not array indices |
| Selections.PartitionKeys | force-app/main/default/lwc/jobSearch/jobSearch.js:316 | index keys and other keys together are exactly the keys |
| Selections.AllIndexKeys | force-app/main/default/lwc/jobSearch/jobSearch.js:316 | when every key is an index, the other keys are none and the index keys are all of them |
| Selections.ForInOrderVisitsEachKey | force-app/main/default/lwc/jobSearch/jobSearch.js:316 | the loop visits each key once; index keys come first in ascending order, and the other keys follow in insertion order |
| Selections.ForInOrderAscending | force-app/main/default/lwc/jobSearch/jobSearch.js:316 | page numbers are visited in ascending order |
| Selections.SomeValueInForInOrder | force-app/main/default/lwc/jobSearch/jobSearch.js:166-168 | with the key order recorded, the some() over Object.values is HasAnySelection |
| Selections.FlattenContains | force-app/main/default/lwc/jobSearch/jobSearch.js:316-321 | a row is in the batch exactly when it is in the slice of a visited page |
| Selections.FlattenStep | force-app/main/default/lwc/jobSearch/jobSearch.js:318-319 | visiting one more page appends that page's slice, keeping its order |
| Apex.ErrorText | force-app/main/default/lwc/jobSearch/jobSearch.js:151-153 | no body gives 'An unknown error occurred'; a body with a non-empty message gives that message; otherwise the serialized body |
| JobSearchComponent.JobSearch.constructor | force-app/main/default/lwc/jobSearch/jobSearch.js:9-48 | the initial values are the reset values (with `error` and `errorMessage` None, see Left out), with empty criteria, the search button disabled, no spinner and no notifications, and the state is Valid |
| JobSearchComponent.JobSearch.HandleSearchParameters | force-app/main/default/lwc/jobSearch/jobSearch.js:61-74 | only the named criterion changes ('jobKeywords', or else the location); the search button is then disabled exactly when a criterion is empty, whatever it was; Valid is kept |
| JobSearchComponent.JobSearch.ResetVariablesForNewSearch | force-app/main/default/lwc/jobSearch/jobSearch.js:86-109 | every field the reset names takes its initial value; the criteria, search button, spinner and notifications are untouched; Valid is kept |
| JobSearchComponent.JobSearch.ShowError | force-app/main/default/lwc/jobSearch/jobSearch.js:151-154 | the message becomes ErrorText of the error, and the error is marked active |
| JobSearchComponent.JobSearch.CheckIfTableShouldDisplay | force-app/main/default/lwc/jobSearch/jobSearch.js:157-163 | the table is shown exactly when some page is cached |
| JobSearchComponent.JobSearch.CheckIfJobsSavedOnAllPages | force-app/main/default/lwc/jobSearch/jobSearch.js:166-168 | with the key order recorded, the answer is true exactly when some page holds a selection |
| JobSearchComponent.JobSearch.HandlePageNumberMessage | force-app/main/default/lwc/jobSearch/jobSearch.js:249-251 | the status line becomes 'Page ' + requestedPage + ' of ' + totalPages |
| JobSearchComponent.JobSearch.ShouldNextLastButtonsBeEnabled | force-app/main/default/lwc/jobSearch/jobSearch.js:199-207 | next and last are disabled exactly when the requested page is the page count |
| JobSearchComponent.JobSearch.ShouldBackFirstButtonsBeEnabled | force-app/main/default/lwc/jobSearch/jobSearch.js:210-218 | back and first are disabled exactly when the requested page is 1 |
| JobSearchComponent.JobSearch.LoadCachedPage | force-app/main/default/lwc/jobSearch/jobSearch.js:116-120 | the cached rows are displayed, with the ids of the page's stored selection in order ([] without one) |
| JobSearchComponent.JobSearch.StoreFetchedPage | force-app/main/default/lwc/jobSearch/jobSearch.js:122-134 | the response rows are cached under the page and displayed with nothing ticked; totals come from the response; the table shows and the search is complete |
| JobSearchComponent.JobSearch.RecordFailure | force-app/main/default/lwc/jobSearch/jobSearch.js:135-139 | the spinner stops, and the error is recorded, shown and marked active |
| JobSearchComponent.JobSearch.SettlePageLoad | force-app/main/default/lwc/jobSearch/jobSearch.js:140-147 | the status line and the four buttons follow R; the page becomes R; requestedPage becomes null; the spinner stops |
| JobSearchComponent.JobSearch.GetJobs | force-app/main/default/lwc/jobSearch/jobSearch.js:113-148 | a cached R makes no call and restores R's rows and selection ids; otherwise one call for R with the current criteria; a success caches and shows the rows and takes the totals; a failure records the error and changes no store; whatever happened, the page settles on R; selections, key order, sort and the search and save buttons are unchanged; Valid is kept |
| JobSearchComponent.JobSearch.HandleSearchClick | force-app/main/default/lwc/jobSearch/jobSearch.js:77-83 | after a completed search: page 1 is loaded as by GetJobs from the reset state, so the stores, totals, errors and display start empty, the sort is back to its default, the status line is for page 1, and back and first end disabled. Otherwise: whatever requestedPage holds is loaded as by GetJobs from the current state. The search is complete exactly when a call was made and succeeded; Valid is kept |
| JobSearchComponent.JobSearch.HandleFirstPage | force-app/main/default/lwc/jobSearch/jobSearch.js:221-225 | page 1 is loaded as by GetJobs (SettledOn): a cached page needs no call and restores its rows and selection ids; a miss requests it; a success caches and shows it and takes the totals; a failure records the error and keeps the display; the errors otherwise, the sort, the selections and the save and search buttons are unchanged; the page settles on the target and the four buttons follow it; Valid is kept |
| JobSearchComponent.JobSearch.HandleBackPage | force-app/main/default/lwc/jobSearch/jobSearch.js:228-232 | the page before the current one is loaded as by GetJobs (SettledOn): a cached page needs no call and restores its rows and selection ids; a miss requests it; a success caches and shows it and takes the totals; a failure records the error and keeps the display; the errors otherwise, the sort, the selections and the save and search buttons are unchanged; the page settles on the target and the four buttons follow it; Valid is kept |
| JobSearchComponent.JobSearch.HandleNextPage | force-app/main/default/lwc/jobSearch/jobSearch.js:235-239 | the page after the current one is loaded as by GetJobs (SettledOn): a cached page needs no call and restores its rows and selection ids; a miss requests it; a success caches and shows it and takes the totals; a failure records the error and keeps the display; the errors otherwise, the sort, the selections and the save and search buttons are unchanged; the page settles on the target and the four buttons follow it; Valid is kept |
| JobSearchComponent.JobSearch.HandleLastPage | force-app/main/default/lwc/jobSearch/jobSearch.js:242-246 | the page whose number is the page count before the load is loaded as by GetJobs (SettledOn): a cached page needs no call and restores its rows and selection ids; a miss requests it; a success caches and shows it and takes the totals; a failure records the error and keeps the display; the errors otherwise, the sort, the selections and the save and search buttons are unchanged; the page settles on the target and the four buttons follow it; Valid is kept |
| JobSearchComponent.JobSearch.HandleJobSelection | force-app/main/default/lwc/jobSearch/jobSearch.js:171-196 | only the current page's slice changes, and it becomes the given rows in order; the key order gains the page if it is new; the cache is untouched. An empty selection clears the ticked ids and disables save when nothing is selected anywhere. A non-empty one enables save. Valid is kept |
| JobSearchComponent.JobSearch.DisableSaveIfNothingSelected | force-app/main/default/lwc/jobSearch/jobSearch.js:180-183 | save is disabled afterwards exactly when it was disabled before or no page holds a selection |
| JobSearchComponent.JobSearch.StorePageSelection | force-app/main/default/lwc/jobSearch/jobSearch.js:179-189 | the slice is stored under the page and the page is recorded among the keys; a non-empty slice means some selection exists |
| JobSearchComponent.JobSearch.HandleTableSort | force-app/main/default/lwc/jobSearch/jobSearch.js:256-269 | the rows on display become SortRows of themselves (a permutation, ordered when orderable); the sort field and direction are recorded; ticked ids and every store are untouched |
| JobSearchComponent.JobSearch.GatherSelections | force-app/main/default/lwc/jobSearch/jobSearch.js:314-321 | the loop's batch is every slice concatenated in for...in order of the page keys |
| JobSearchComponent.JobSearch.HandleJobSave | force-app/main/default/lwc/jobSearch/jobSearch.js:311-341 | the batch submitted is all slices in for...in order; whether or not the save fails, the reset values hold afterwards, the spinner is off and one more success notification is sent; the criteria and search button are kept; Valid is kept |
| Scenarios.RetryAfterFailedSearch | force-app/main/default/lwc/jobSearch/jobSearch.js:77-83 | after a failed first search for page 1, a second click requests page 0 |
| Scenarios.RevisitCachedPage | force-app/main/default/lwc/jobSearch/jobSearch.js:116-120 | going forward and back again makes no call, and restores page 1's rows and the ids ticked there |
| Scenarios.NewSearchStartsOver | force-app/main/default/lwc/jobSearch/jobSearch.js:77-109 | after a completed and re-sorted search, a new search restores the default sort, clears the error, takes the new totals and disables back on page 1 |
| Scenarios.FailedNextPageKeepsRows | force-app/main/default/lwc/jobSearch/jobSearch.js:136-147 | a failed next-page call shows the error's text, keeps page 1's rows on display and still moves to page 2 |
| Scenarios.SelectedPageNotCached | force-app/main/default/lwc/jobSearch/jobSearch.js:140-147 | after a failed next-page call, rows ticked are stored under page 2, only page 1 is cached, and save is enabled |
| Scenarios.PickOnFirstPage | force-app/main/default/lwc/jobSearch/jobSearch.js:171-196 | a first search followed by ticking rows stores those rows under page 1 alone |
| Scenarios.FailedSaveStillResets | force-app/main/default/lwc/jobSearch/jobSearch.js:327-340 | a failed save submits the ticked rows, then clears the message and hides the table, and counts one success notification |
| Scenarios.PickOnLastPage | force-app/main/default/lwc/jobSearch/jobSearch.js:242-246 | after the last button leads to page 3, rows ticked there are the only selection, under key 3 |
| Scenarios.PickOnLastThenFirstPage | force-app/main/default/lwc/jobSearch/jobSearch.js:221-246 | then going to page 1 and ticking there records keys 3 and then 1, each with its rows |
| Scenarios.BatchFollowsPageOrder | force-app/main/default/lwc/jobSearch/jobSearch.js:316-321 | rows ticked on page 3 and then on page 1 are submitted page 1 first |
| Scenarios.BatchOfOnePage | force-app/main/default/lwc/jobSearch/jobSearch.js:318-319 | the batch for one page is that page's slice |
| Scenarios.BatchOfTwoPages | force-app/main/default/lwc/jobSearch/jobSearch.js:318-319 | the batch for two pages is their slices in visit order |
| Scenarios.ForInOrderOfOneKey | force-app/main/default/lwc/jobSearch/jobSearch.js:316 | a single key 1 is visited alone |
| Scenarios.ForInOrderOfTwoKeys | force-app/main/default/lwc/jobSearch/jobSearch.js:316 | keys added as 3 and then 1 are visited as 1 and then 3 |
| Scenarios.NonIndexKeysComeLast | force-app/main/default/lwc/jobSearch/jobSearch.js:316 | a key that is not an array index (-1) is visited after the index keys |
| Scenarios.MissingValueSortsFirstAscending | force-app/main/default/lwc/jobSearch/jobSearch.js:284-294 | ascending on a numeric column, the row with a null value goes first and 2 goes before 5 |
| Scenarios.ThreeRowsAscending | force-app/main/default/lwc/jobSearch/jobSearch.js:284-301 | the same for any rows whose values are missing, 5 and 2 |

## Left out

- `columnHandler` (lines 51-58) and `jobTableColumns` are left out. They are a wired read of column settings from Apex and never touch the state modelled here.
- The Apex callouts `JobBoardCallout.getJobs` and `JobBoardCallout.processSelectedJobs` are not part of this model. Their results are parameters, and a resolved save response is ignored here as in the source.
- Only the success notification is modelled, as a counter (`successToasts`). `ShowToastEvent` and `dispatchEvent` are UI plumbing.
- Overlapping handlers are not modelled. The handlers do not await `getJobs`, so a second event could start before a load settles. Each event runs to completion, one after another.
- `String(...).toLowerCase()` followed by `localeCompare` is locale-dependent. It is a `collate` parameter, assumed a total preorder wherever sortedness is claimed, and works on the rendered value (`Jobs.Render`).
- `JSON.stringify(error.body)` is a foreign serializer. It is the `serialized` field of the error body.
- JavaScript numbers are integers in the model. `NaN`, floating-point subtraction in the comparator, and `Number(...)` on non-numeric text are not modelled. Page numbers, counts and numeric columns are integers; a row field holds null, undefined, a number or a string.
- Jobs.SortRows: sortedness is proved only for single-kind columns and a total-preorder collation. With numbers and text mixed in one column, the source's comparator is not transitive, and no order is promised.
- Jobs.SortRows: stability is not proved. ECMAScript has required `Array.prototype.sort` to be stable since 2019. The insertion sort puts an element before equal ones that came after it, but no lemma states this.
- Rows, slices and pages are values. The aliasing between `currentlyDisplayedJobs` and the cached array, which `handleTableSort` avoids by sorting a copy, is not represented.
- `response.jobs` is taken to be an array. An undefined `jobs` would be stored under the page and then read as a cache miss, because a falsy entry fails the test at line 116. This is not modelled.
- `error` and `errorMessage` start undefined (lines 14-15) and are reset to null (lines 87-88). Both are `None` here, so the model does not tell a fresh component from a reset one by these two fields.
- `isLoading` and `searchButtonDisabled` are not part of `HasResetValues`, because the reset does not assign them.
