/**
 * Whole sessions of the job-search component, each started from a freshly
 * created component, with the remote calls settling as the parameters say.
 */
module Scenarios {
  import opened Wrappers
  import opened Jobs
  import opened Sorting
  import opened Selections
  import opened Apex
  import opened JobSearchComponent

  /**
   * A first search whose call fails leaves requestedPage at null, so a
   * second click asks the server for page Number(null), that is page 0.
   */
  method RetryAfterFailedSearch(e: ApexError, outcome: FetchOutcome) returns (first: Option<SearchRequest>, retry: Option<SearchRequest>)
    ensures first == Some(SearchRequest("java", "Austin", 1))
    ensures retry == Some(SearchRequest("java", "Austin", 0))
  {
    var c := new JobSearch();
    c.HandleSearchParameters("jobKeywords", "java");
    c.HandleSearchParameters("jobLocation", "Austin");
    first := c.HandleSearchClick(FetchFailed(e));
    retry := c.HandleSearchClick(outcome);
  }

  /**
   * Going forward and back to a page already shown makes no call and
   * brings back its rows and the ids of the rows picked on it.
   */
  method RevisitCachedPage(page1: SearchResponse, page2: SearchResponse, picked: seq<Job>, anyOutcome: FetchOutcome)
    returns (request: Option<SearchRequest>, shown: seq<Job>, ticked: seq<string>)
    ensures request == None && shown == page1.jobs && ticked == Ids(picked)
  {
    var c := new JobSearch();
    c.HandleSearchParameters("jobKeywords", "java");
    c.HandleSearchParameters("jobLocation", "Austin");
    var _ := c.HandleSearchClick(Fetched(page1));
    c.HandleJobSelection(picked);
    var _ := c.HandleNextPage(Fetched(page2));
    request := c.HandleBackPage(anyOutcome);
    shown := c.display.currentlyDisplayedJobs;
    ticked := c.display.currentlySelectedJobs;
  }

  /**
   * Searching again after a completed search starts over: the sort returns
   * to its default, no error is active, the totals are those of the new
   * response, and page 1's back button is disabled.
   */
  method NewSearchStartsOver(page1: SearchResponse, again: SearchResponse, field: string, direction: string,
                             collate: (string, string) -> int)
    returns (sortBy: string, sortDirection: string, activeError: bool, totalPages: int, backDisabled: bool)
    ensures sortBy == "updated" && sortDirection == "desc" && !activeError
    ensures totalPages == again.maxPages && backDisabled
  {
    var c := new JobSearch();
    c.HandleSearchParameters("jobKeywords", "java");
    c.HandleSearchParameters("jobLocation", "Austin");
    var _ := c.HandleSearchClick(Fetched(page1));
    c.HandleTableSort(field, direction, collate);
    var _ := c.HandleSearchClick(Fetched(again));
    sortBy, sortDirection := c.view.sortBy, c.view.sortDirection;
    activeError := c.errors.activeError;
    totalPages := c.totals.totalPages;
    backDisabled := c.buttons.backButtonDisabled;
  }

  /**
   * A failed call for the next page shows the error, keeps page 1's rows on
   * display, and still moves the component to page 2.
   */
  method FailedNextPageKeepsRows(page1: SearchResponse, e: ApexError)
    returns (activeError: bool, message: Option<string>, shown: seq<Job>, onPage: int)
    ensures activeError && message == Some(ErrorText(e)) && shown == page1.jobs && onPage == 2
  {
    var c := new JobSearch();
    c.HandleSearchParameters("jobKeywords", "java");
    c.HandleSearchParameters("jobLocation", "Austin");
    var _ := c.HandleSearchClick(Fetched(page1));
    var _ := c.HandleNextPage(FetchFailed(e));
    activeError := c.errors.activeError;
    message := c.errors.errorMessage;
    shown := c.display.currentlyDisplayedJobs;
    onPage := c.paging.currentPage;
  }

  /**
   * A page can hold a selection without being cached: the call for page 2
   * fails, the component still moves to page 2, and rows picked there are
   * stored under 2 while only page 1 is cached.
   */
  method SelectedPageNotCached(page1: SearchResponse, e: ApexError, picked: seq<Job>)
    returns (selectedPages: set<int>, cachedPages: set<int>, saveEnabled: bool)
    requires picked != []
    ensures selectedPages == {2} && cachedPages == {1} && saveEnabled
  {
    var c := new JobSearch();
    c.HandleSearchParameters("jobKeywords", "java");
    c.HandleSearchParameters("jobLocation", "Austin");
    var _ := c.HandleSearchClick(Fetched(page1));
    var _ := c.HandleNextPage(FetchFailed(e));
    c.HandleJobSelection(picked);
    selectedPages := c.stores.selectedJobsByPageNumber.Keys;
    cachedPages := c.stores.allJobsByPageNumber.Keys;
    saveEnabled := !c.buttons.saveSelectedJobsButtonDisabled;
  }

  /** A search for "java" in "Austin" whose first page loads, with `picked` chosen on it. */
  method PickOnFirstPage(page1: SearchResponse, picked: seq<Job>) returns (c: JobSearch)
    ensures fresh(c)
    ensures c.stores.selectedJobsByPageNumber == map[1 := picked] && c.stores.selectionKeyOrder == [1]
    ensures c.successToasts == 0
  {
    c := new JobSearch();
    c.HandleSearchParameters("jobKeywords", "java");
    c.HandleSearchParameters("jobLocation", "Austin");
    var _ := c.HandleSearchClick(Fetched(page1));
    c.HandleJobSelection(picked);
  }

  /**
   * A save whose call fails still ends in the reset and the success
   * notification, and the error message it set is already cleared.
   */
  method FailedSaveStillResets(page1: SearchResponse, picked: seq<Job>, e: ApexError)
    returns (batch: seq<Job>, toasts: nat, message: Option<string>, tableShown: bool)
    ensures batch == picked && toasts == 1 && message == None && !tableShown
  {
    var c := PickOnFirstPage(page1, picked);
    ForInOrderOfOneKey();
    BatchOfOnePage(map[1 := picked], 1);
    batch := c.HandleJobSave(SaveFailed(e));
    toasts := c.successToasts;
    message := c.errors.errorMessage;
    tableShown := c.view.shouldDisplayTable;
  }

  /** The same search, with `rows3` chosen on page 3, reached by the last button. */
  method PickOnLastPage(page1: SearchResponse, page3: SearchResponse, rows3: seq<Job>) returns (c: JobSearch)
    requires page1.maxPages == 3
    ensures fresh(c)
    ensures c.stores.selectedJobsByPageNumber == map[3 := rows3] && c.stores.selectionKeyOrder == [3]
  {
    c := new JobSearch();
    c.HandleSearchParameters("jobKeywords", "java");
    c.HandleSearchParameters("jobLocation", "Austin");
    var _ := c.HandleSearchClick(Fetched(page1));
    assert c.totals.totalPages == 3 && c.stores.selectedJobsByPageNumber == map[] && c.stores.selectionKeyOrder == [];
    var _ := c.HandleLastPage(Fetched(page3));
    assert c.paging.currentPage == 3 && c.stores.selectedJobsByPageNumber == map[] && c.stores.selectionKeyOrder == [];
    c.HandleJobSelection(rows3);
  }

  /** Then the first button, and `rows1` chosen on page 1. */
  method PickOnLastThenFirstPage(page1: SearchResponse, page3: SearchResponse, rows3: seq<Job>, rows1: seq<Job>,
                                 anyOutcome: FetchOutcome) returns (c: JobSearch)
    requires page1.maxPages == 3
    ensures fresh(c)
    ensures c.stores.selectedJobsByPageNumber == map[3 := rows3, 1 := rows1] && c.stores.selectionKeyOrder == [3, 1]
  {
    c := PickOnLastPage(page1, page3, rows3);
    var _ := c.HandleFirstPage(anyOutcome);
    c.HandleJobSelection(rows1);
  }

  /**
   * Rows picked on page 3 and then on page 1 are submitted page 1 first:
   * the loop visits page numbers ascending, not in the order they were picked.
   */
  method BatchFollowsPageOrder(page1: SearchResponse, page3: SearchResponse, rows3: seq<Job>, rows1: seq<Job>, anyOutcome: FetchOutcome)
    returns (batch: seq<Job>)
    requires page1.maxPages == 3
    ensures batch == rows1 + rows3
  {
    var c := PickOnLastThenFirstPage(page1, page3, rows3, rows1, anyOutcome);
    ForInOrderOfTwoKeys();
    BatchOfTwoPages(map[3 := rows3, 1 := rows1], 1, 3);
    batch := c.HandleJobSave(Saved);
  }

  lemma BatchOfOnePage(m: map<int, seq<Job>>, k: int)
    ensures Flatten(m, [k]) == SliceOf(m, k)
  {
    assert [k][..0] == [];
  }

  lemma BatchOfTwoPages(m: map<int, seq<Job>>, j: int, k: int)
    ensures Flatten(m, [j, k]) == SliceOf(m, j) + SliceOf(m, k)
  {
    assert [j, k][..1] == [j];
    BatchOfOnePage(m, j);
  }

  lemma ForInOrderOfOneKey()
    ensures ForInOrder([1]) == [1]
  {
    assert IndexKeys([1]) == [1];
    assert OtherKeys([1]) == [];
  }

  /** Keys 3 and then 1 are visited as 1, 3. */
  lemma ForInOrderOfTwoKeys()
    ensures ForInOrder([3, 1]) == [1, 3]
  {
    assert IndexKeys([3, 1]) == [3, 1];
    assert OtherKeys([3, 1]) == [];
  }

  /** A key that is not an array index, such as -1, is visited after every index key. */
  lemma NonIndexKeysComeLast()
    ensures ForInOrder([-1, 2]) == [2, -1]
  {
    assert IndexKeys([-1, 2]) == [2];
    assert OtherKeys([-1, 2]) == [-1];
  }

  /**
   * Sorting ascending on a numeric column puts the row without a value
   * first and the numbers in increasing order after it.
   */
  lemma MissingValueSortsFirstAscending(collate: (string, string) -> int)
    ensures SortRows([Job("a", map["salary" := Null]), Job("b", map["salary" := Num(5)]), Job("c", map["salary" := Num(2)])],
                     "salary", "asc", collate)
            == [Job("a", map["salary" := Null]), Job("c", map["salary" := Num(2)]), Job("b", map["salary" := Num(5)])]
  {
    var a, b, c := Job("a", map["salary" := Null]), Job("b", map["salary" := Num(5)]), Job("c", map["salary" := Num(2)]);
    assert FieldOf(a, "salary") == Null && FieldOf(b, "salary") == Num(5) && FieldOf(c, "salary") == Num(2);
    ThreeRowsAscending(a, b, c, "salary", collate);
  }

  /** The same on any rows whose values in `field` are missing, 5 and 2. */
  lemma ThreeRowsAscending(a: Job, b: Job, c: Job, field: string, collate: (string, string) -> int)
    requires IsMissing(FieldOf(a, field)) && FieldOf(b, field) == Num(5) && FieldOf(c, field) == Num(2)
    ensures SortRows([a, b, c], field, "asc", collate) == [a, c, b]
  {
    var cmp := SortByField(field, "asc", collate);
    assert cmp(b, c) > 0 && cmp(a, c) < 0;
    assert [a, b, c][1..] == [b, c] && [b, c][1..] == [c];
    assert SortBy([c], cmp) == [c];
    assert SortBy([b, c], cmp) == [c, b];
  }
}
