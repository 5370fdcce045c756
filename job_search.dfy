/**
 * The JobSearch component: its fields, updated in place by its handlers.
 * The fields are held in the groups the component's own declarations form
 * (search parameters, error handling, buttons, the rest of the UI, totals,
 * paging, the rows on display, the stores across pages), so `this.totalPages`
 * there is `totals.totalPages` here. Each handler runs to completion before
 * the next event; a handler that awaits an Apex call is given the way that
 * call settles and returns the request it sent.
 */
module JobSearchComponent {
  import opened Wrappers
  import opened JsValues
  import opened Sorting
  import opened Jobs
  import opened Selections
  import opened Apex

  const DefaultSortBy: string := "updated"
  const DefaultSortDirection: string := "desc"
  const PageSize: int := 100

  /** Search parameters entered by the user. */
  datatype SearchParameters = SearchParameters(jobKeywords: string, jobLocation: string)

  /** Error handling: `error` and `errorMessage` start undefined and are reset to null. */
  datatype ErrorState = ErrorState(error: Option<ApexError>, errorMessage: Option<string>, activeError: bool)

  /** The six buttons. */
  datatype Buttons = Buttons(
    searchButtonDisabled: bool, firstButtonDisabled: bool, nextButtonDisabled: bool,
    backButtonDisabled: bool, lastButtonDisabled: bool, saveSelectedJobsButtonDisabled: bool)

  /** The rest of the UI: the status line, the spinner, the table and its sort. */
  datatype View = View(
    pageNumberMessage: string, isLoading: bool, shouldDisplayTable: bool, searchComplete: bool,
    sortBy: string, sortDirection: string)

  /** Totals of the whole search. */
  datatype Totals = Totals(totalJobs: int, totalPages: int, pageSize: int)

  /** The page shown and the page asked for; requestedPage is null between loads. */
  datatype Paging = Paging(currentPage: int, requestedPage: Option<int>)

  /** The rows on display and the ids of those selected. */
  datatype Display = Display(currentlyDisplayedJobs: seq<Job>, currentlySelectedJobs: seq<string>)

  /**
   * The stores across pages, keyed by page number, and the order in which the
   * selection store gained its keys (a JavaScript object remembers it).
   */
  datatype Stores = Stores(
    selectedJobsByPageNumber: map<int, seq<Job>>, selectionKeyOrder: seq<int>,
    allJobsByPageNumber: map<int, seq<Job>>)

  /** The status line: 'Page ' + requestedPage + ' of ' + totalPages. */
  function PageNumberText(requestedPage: Option<int>, totalPages: int): string
  {
    "Page " + SlotToString(requestedPage) + " of " + IntToString(totalPages)
  }

  /** The status line determines the page count it reports. */
  lemma PageNumberTextDeterminesTotalPages(requestedPage: Option<int>, totalPages: int, otherTotalPages: int)
    requires PageNumberText(requestedPage, totalPages) == PageNumberText(requestedPage, otherTotalPages)
    ensures totalPages == otherTotalPages
  {
    var prefix := "Page " + SlotToString(requestedPage) + " of ";
    assert PageNumberText(requestedPage, totalPages)[|prefix|..] == IntToString(totalPages);
    assert PageNumberText(requestedPage, otherTotalPages)[|prefix|..] == IntToString(otherTotalPages);
    IntToStringInjective(totalPages, otherTotalPages);
  }

  class JobSearch {
    var search: SearchParameters
    var errors: ErrorState
    var buttons: Buttons
    var view: View
    var totals: Totals
    var paging: Paging
    var display: Display
    var stores: Stores
    /** Success notifications dispatched so far. */
    var successToasts: nat

    /**
     * What every handler keeps: the save button is disabled exactly when no
     * page has a selected row, the search button exactly when a criterion is
     * empty, and the recorded key order lists each selected page once.
     */
    ghost predicate Valid()
      reads this
    {
      && buttons.saveSelectedJobsButtonDisabled == !HasAnySelection(stores.selectedJobsByPageNumber)
      && buttons.searchButtonDisabled == (search.jobKeywords == "" || search.jobLocation == "")
      && KeysRecorded(stores.selectionKeyOrder, stores.selectedJobsByPageNumber)
    }

    /**
     * The values resetVariablesForNewSearch restores. They are also the field
     * initialisers, except that `error` and `errorMessage` start undefined
     * and are reset to null; both are None here.
     */
    ghost predicate HasResetValues()
      reads this
    {
      && errors == ErrorState(None, None, false)
      && buttons.firstButtonDisabled && buttons.nextButtonDisabled
      && buttons.backButtonDisabled && buttons.lastButtonDisabled
      && buttons.saveSelectedJobsButtonDisabled
      && view.pageNumberMessage == "" && !view.shouldDisplayTable && !view.searchComplete
      && view.sortBy == DefaultSortBy && view.sortDirection == DefaultSortDirection
      && totals == Totals(0, 0, PageSize)
      && paging == Paging(1, Some(1))
      && display == Display([], [])
      && stores == Stores(map[], [], map[])
    }

    /** The field initialisers. */
    constructor()
      ensures HasResetValues()
      ensures search == SearchParameters("", "") && buttons.searchButtonDisabled
      ensures !view.isLoading && successToasts == 0
      ensures Valid()
    {
      search := SearchParameters(jobKeywords := "", jobLocation := "");
      errors := ErrorState(error := None, errorMessage := None, activeError := false);
      buttons := Buttons(
        searchButtonDisabled := true, firstButtonDisabled := true, nextButtonDisabled := true,
        backButtonDisabled := true, lastButtonDisabled := true, saveSelectedJobsButtonDisabled := true);
      view := View(
        pageNumberMessage := "", isLoading := false, shouldDisplayTable := false, searchComplete := false,
        sortBy := DefaultSortBy, sortDirection := DefaultSortDirection);
      totals := Totals(totalJobs := 0, totalPages := 0, pageSize := PageSize);
      paging := Paging(currentPage := 1, requestedPage := Some(1));
      display := Display(currentlyDisplayedJobs := [], currentlySelectedJobs := []);
      stores := Stores(selectedJobsByPageNumber := map[], selectionKeyOrder := [], allJobsByPageNumber := map[]);
      successToasts := 0;
    }

    /** Number(this.requestedPage): the page a load is for. */
    function Requested(): int
      reads this
    {
      ToNumber(paging.requestedPage)
    }

    /** handleSearchParameters: store the edited criterion, then gate the search button. */
    method HandleSearchParameters(fieldName: string, newValue: string)
      modifies this`search, this`buttons
      ensures fieldName == "jobKeywords" ==> search == old(search).(jobKeywords := newValue)
      ensures fieldName != "jobKeywords" ==> search == old(search).(jobLocation := newValue)
      // whatever the button was before, it is now disabled exactly when a criterion is empty
      ensures buttons == old(buttons).(searchButtonDisabled := search.jobKeywords == "" || search.jobLocation == "")
      ensures old(Valid()) ==> Valid()
    {
      if fieldName == "jobKeywords" {
        search := search.(jobKeywords := newValue);
      } else {
        search := search.(jobLocation := newValue);
      }
      if search.jobKeywords != "" && search.jobLocation != "" && buttons.searchButtonDisabled {
        buttons := buttons.(searchButtonDisabled := false);
      } else if (search.jobKeywords == "" || search.jobLocation == "") && !buttons.searchButtonDisabled {
        buttons := buttons.(searchButtonDisabled := true);
      }
    }

    /** resetVariablesForNewSearch */
    method ResetVariablesForNewSearch()
      modifies this`errors, this`buttons, this`view, this`totals, this`paging, this`display, this`stores
      ensures HasResetValues()
      // the criteria, the search button, the spinner and the notifications are not reset
      ensures buttons.searchButtonDisabled == old(buttons.searchButtonDisabled)
      ensures view.isLoading == old(view.isLoading)
      ensures old(Valid()) ==> Valid()
    {
      errors := ErrorState(error := None, errorMessage := None, activeError := false);
      buttons := buttons.(
        firstButtonDisabled := true, nextButtonDisabled := true, backButtonDisabled := true,
        lastButtonDisabled := true, saveSelectedJobsButtonDisabled := true);
      view := view.(pageNumberMessage := "", shouldDisplayTable := false);
      totals := Totals(totalJobs := 0, totalPages := 0, pageSize := PageSize);
      paging := Paging(currentPage := 1, requestedPage := Some(1));
      display := Display(currentlyDisplayedJobs := [], currentlySelectedJobs := []);
      stores := Stores(selectedJobsByPageNumber := map[], selectionKeyOrder := [], allJobsByPageNumber := map[]);
      view := view.(searchComplete := false, sortBy := DefaultSortBy, sortDirection := DefaultSortDirection);
    }

    /** showError */
    method ShowError(e: ApexError)
      modifies this`errors
      ensures errors == old(errors).(errorMessage := Some(ErrorText(e)), activeError := true)
    {
      errors := errors.(errorMessage := Some(ErrorText(e)), activeError := true);
    }

    /** checkIfTableShouldDisplay: the table shows once some page is stored. */
    method CheckIfTableShouldDisplay()
      modifies this`view
      ensures view == old(view).(shouldDisplayTable := stores.allJobsByPageNumber != map[])
    {
      assert stores.allJobsByPageNumber == map[] <==> |stores.allJobsByPageNumber| == 0;
      if |stores.allJobsByPageNumber| != 0 {
        view := view.(shouldDisplayTable := true);
      } else {
        view := view.(shouldDisplayTable := false);
      }
    }

    /**
     * checkIfJobsSavedOnAllPages: some() over Object.values, which lists the
     * slices in the for...in order of their keys.
     */
    function CheckIfJobsSavedOnAllPages(): (saved: bool)
      reads this
      ensures KeysRecorded(stores.selectionKeyOrder, stores.selectedJobsByPageNumber) ==>
                (saved <==> HasAnySelection(stores.selectedJobsByPageNumber))
    {
      SomeValueInForInOrder(stores.selectionKeyOrder, stores.selectedJobsByPageNumber);
      SomeNonEmpty(Values(stores.selectedJobsByPageNumber, ForInOrder(stores.selectionKeyOrder)))
    }

    /** handlePageNumberMessage */
    method HandlePageNumberMessage()
      modifies this`view
      ensures view == old(view).(pageNumberMessage := PageNumberText(paging.requestedPage, totals.totalPages))
    {
      view := view.(pageNumberMessage := "Page " + SlotToString(paging.requestedPage) + " of " + IntToString(totals.totalPages));
    }

    /** shouldNextLastButtonsBeEnabled */
    method ShouldNextLastButtonsBeEnabled()
      modifies this`buttons
      ensures buttons == old(buttons).(nextButtonDisabled := Requested() == totals.totalPages,
                                       lastButtonDisabled := Requested() == totals.totalPages)
    {
      if Requested() == totals.totalPages {
        buttons := buttons.(nextButtonDisabled := true, lastButtonDisabled := true);
      } else {
        buttons := buttons.(nextButtonDisabled := false, lastButtonDisabled := false);
      }
    }

    /**
     * shouldBackFirstButtonsBeEnabled. The source tests Number(requestedPage == 1),
     * the number of a comparison, which is truthy exactly when the comparison
     * holds; a null requestedPage is not == 1.
     */
    method ShouldBackFirstButtonsBeEnabled()
      modifies this`buttons
      ensures buttons == old(buttons).(backButtonDisabled := Requested() == 1, firstButtonDisabled := Requested() == 1)
    {
      var isFirstPage := paging.requestedPage == Some(1);
      if isFirstPage {
        buttons := buttons.(backButtonDisabled := true, firstButtonDisabled := true);
      } else {
        buttons := buttons.(backButtonDisabled := false, firstButtonDisabled := false);
      }
    }

    /** The try block of getJobs on a cache hit: the stored rows and the ids of their stored selection. */
    method LoadCachedPage(page: int)
      requires page in stores.allJobsByPageNumber
      modifies this`display
      ensures display == Display(stores.allJobsByPageNumber[page], Ids(SliceOf(stores.selectedJobsByPageNumber, page)))
    {
      display := display.(currentlyDisplayedJobs := stores.allJobsByPageNumber[page]);
      var selectedRowsForPage := SliceOf(stores.selectedJobsByPageNumber, page);
      display := display.(currentlySelectedJobs := Ids(selectedRowsForPage));
    }

    /** The try block of getJobs once searchJobs resolved for `page`. */
    method StoreFetchedPage(page: int, response: SearchResponse)
      modifies this`stores, this`totals, this`display, this`view
      ensures stores == old(stores).(allJobsByPageNumber := old(stores.allJobsByPageNumber)[page := response.jobs])
      ensures totals == old(totals).(totalJobs := response.jobCount, totalPages := response.maxPages)
      ensures display == Display(response.jobs, [])
      ensures view == old(view).(shouldDisplayTable := true, searchComplete := true)
    {
      stores := stores.(allJobsByPageNumber := stores.allJobsByPageNumber[page := response.jobs]);
      totals := totals.(totalJobs := response.jobCount, totalPages := response.maxPages);
      display := Display(currentlyDisplayedJobs := response.jobs, currentlySelectedJobs := []);
      assert page in stores.allJobsByPageNumber;
      CheckIfTableShouldDisplay();
      view := view.(searchComplete := true);
    }

    /** The catch block shared by getJobs and handleJobSave. */
    method RecordFailure(e: ApexError)
      modifies this`view, this`errors
      ensures view == old(view).(isLoading := false)
      ensures errors == ErrorState(Some(e), Some(ErrorText(e)), true)
    {
      view := view.(isLoading := false);
      errors := errors.(error := Some(e));
      ShowError(e);
    }

    /** The finally block of getJobs: status line and buttons for R, then the page settles on R. */
    method SettlePageLoad()
      modifies this`view, this`buttons, this`paging
      ensures view == old(view).(pageNumberMessage := PageNumberText(old(paging.requestedPage), totals.totalPages),
                                 isLoading := false)
      ensures buttons == old(buttons).(nextButtonDisabled := old(Requested()) == totals.totalPages,
                                       lastButtonDisabled := old(Requested()) == totals.totalPages,
                                       backButtonDisabled := old(Requested()) == 1,
                                       firstButtonDisabled := old(Requested()) == 1)
      ensures paging == Paging(old(Requested()), None)
    {
      HandlePageNumberMessage();
      ShouldNextLastButtonsBeEnabled();
      ShouldBackFirstButtonsBeEnabled();
      paging := Paging(currentPage := Requested(), requestedPage := None);
      view := view.(isLoading := false);
    }

    /**
     * getJobs for the page requestedPage holds (R below): served from the
     * cache, or fetched with `outcome` as the way the call settles.
     */
    method GetJobs(outcome: FetchOutcome) returns (request: Option<SearchRequest>)
      modifies this`display, this`stores, this`totals, this`view, this`errors, this`buttons, this`paging
      // a cached page: no call; its rows and the ids of its stored selection, in order, come back
      ensures old(Requested() in stores.allJobsByPageNumber) ==>
                && request == None
                && display.currentlyDisplayedJobs == old(stores.allJobsByPageNumber[Requested()])
                && display.currentlySelectedJobs == Ids(SliceOf(old(stores.selectedJobsByPageNumber), old(Requested())))
                && totals == old(totals) && errors == old(errors)
                && view.shouldDisplayTable == old(view.shouldDisplayTable)
                && view.searchComplete == old(view.searchComplete)
      // otherwise one call, for R, with the current criteria
      ensures old(Requested() !in stores.allJobsByPageNumber) ==>
                request == Some(SearchRequest(old(search.jobKeywords), old(search.jobLocation), old(Requested())))
      ensures old(Requested() !in stores.allJobsByPageNumber) && outcome.Fetched? ==>
                && stores.allJobsByPageNumber == old(stores.allJobsByPageNumber)[old(Requested()) := outcome.response.jobs]
                && totals == old(totals).(totalJobs := outcome.response.jobCount, totalPages := outcome.response.maxPages)
                && display == Display(outcome.response.jobs, [])
                && view.shouldDisplayTable && view.searchComplete
                && errors == old(errors)
      ensures old(Requested() !in stores.allJobsByPageNumber) && outcome.FetchFailed? ==>
                && errors == ErrorState(Some(outcome.error), Some(ErrorText(outcome.error)), true)
                && totals == old(totals) && display == old(display)
                && view.shouldDisplayTable == old(view.shouldDisplayTable)
                && view.searchComplete == old(view.searchComplete)
      // only a successful call adds to the cache
      ensures !(old(Requested() !in stores.allJobsByPageNumber) && outcome.Fetched?) ==>
                stores.allJobsByPageNumber == old(stores.allJobsByPageNumber)
      // whatever happened: the page is settled on R and the status line and buttons follow it
      ensures paging == Paging(old(Requested()), None) && !view.isLoading
      ensures view.pageNumberMessage == PageNumberText(old(paging.requestedPage), totals.totalPages)
      ensures buttons.nextButtonDisabled == buttons.lastButtonDisabled == (old(Requested()) == totals.totalPages)
      ensures buttons.backButtonDisabled == buttons.firstButtonDisabled == (old(Requested()) == 1)
      // and no selection, criterion, sort or notification changes
      ensures stores.selectedJobsByPageNumber == old(stores.selectedJobsByPageNumber)
      ensures stores.selectionKeyOrder == old(stores.selectionKeyOrder)
      ensures buttons.searchButtonDisabled == old(buttons.searchButtonDisabled)
      ensures buttons.saveSelectedJobsButtonDisabled == old(buttons.saveSelectedJobsButtonDisabled)
      ensures view.sortBy == old(view.sortBy) && view.sortDirection == old(view.sortDirection)
      ensures old(Valid()) ==> Valid()
    {
      var page := Requested();
      if page in stores.allJobsByPageNumber {
        LoadCachedPage(page);
        request := None;
      } else {
        request := Some(SearchRequest(search.jobKeywords, search.jobLocation, page));
        match outcome
        case Fetched(response) => StoreFetchedPage(page, response);
        case FetchFailed(e) => RecordFailure(e);
      }
      SettlePageLoad();
    }

    /** handleSearchClick: a search after a completed one starts over from page 1. */
    method HandleSearchClick(outcome: FetchOutcome) returns (request: Option<SearchRequest>)
      modifies this`display, this`stores, this`totals, this`view, this`errors, this`buttons, this`paging
      // after a completed search: everything is reset, then page 1 is loaded from the emptied stores
      ensures old(view.searchComplete) ==>
                && SettledOn(1, Stores(map[], [], map[]), Totals(0, 0, PageSize), ErrorState(None, None, false),
                             Display([], []), View("", true, false, false, DefaultSortBy, DefaultSortDirection),
                             old(buttons).(saveSelectedJobsButtonDisabled := true),
                             old(search.jobKeywords), old(search.jobLocation), outcome, request)
                && view.pageNumberMessage == PageNumberText(Some(1), totals.totalPages)
      // otherwise nothing is reset: whatever requestedPage holds is loaded, from the cache if it is there
      ensures !old(view.searchComplete) ==>
                && SettledOn(old(Requested()), old(stores), old(totals), old(errors), old(display), old(view), old(buttons),
                             old(search.jobKeywords), old(search.jobLocation), outcome, request)
                && view.pageNumberMessage == PageNumberText(old(paging.requestedPage), totals.totalPages)
      // a search counts as complete once a call for it has succeeded
      ensures view.searchComplete <==> request.Some? && outcome.Fetched?
      ensures old(Valid()) ==> Valid()
    {
      view := view.(isLoading := true);
      if view.searchComplete {
        ResetVariablesForNewSearch();
      }
      request := GetJobs(outcome);
    }

    /**
     * A page load for `target` has settled, starting from the stores
     * `stores0`, the totals `totals0`, the error state `errors0`, the display
     * `display0`, the view `view0` and the buttons `buttons0`. A cached page
     * comes back without a call. Anything else is requested with the criteria
     * `keywords` and `location`; a success caches and shows it and takes the
     * totals, a failure records the error and leaves the rows shown. Either
     * way the page settles on `target` and the four buttons follow it, while
     * the selections, their key order, the sort and the save and search
     * buttons stay.
     */
    ghost predicate SettledOn(target: int, stores0: Stores, totals0: Totals, errors0: ErrorState, display0: Display,
                              view0: View, buttons0: Buttons,
                              keywords: string, location: string, outcome: FetchOutcome, request: Option<SearchRequest>)
      reads this
    {
      var cache0 := stores0.allJobsByPageNumber;
      var fetched := target !in cache0 && outcome.Fetched?;
      var failed := target !in cache0 && outcome.FetchFailed?;
      && paging == Paging(target, None) && !view.isLoading
      && stores.selectedJobsByPageNumber == stores0.selectedJobsByPageNumber
      && stores.selectionKeyOrder == stores0.selectionKeyOrder
      && (target in cache0 ==>
            && request == None
            && display.currentlyDisplayedJobs == cache0[target]
            && display.currentlySelectedJobs == Ids(SliceOf(stores0.selectedJobsByPageNumber, target)))
      && (target !in cache0 ==> request == Some(SearchRequest(keywords, location, target)))
      && (fetched ==>
            && stores.allJobsByPageNumber == cache0[target := outcome.response.jobs]
            && display == Display(outcome.response.jobs, [])
            && totals == totals0.(totalJobs := outcome.response.jobCount, totalPages := outcome.response.maxPages)
            && view.shouldDisplayTable && view.searchComplete)
      && (!fetched ==>
            && stores.allJobsByPageNumber == cache0 && totals == totals0
            && view.shouldDisplayTable == view0.shouldDisplayTable && view.searchComplete == view0.searchComplete)
      && (failed ==>
            && errors == ErrorState(Some(outcome.error), Some(ErrorText(outcome.error)), true)
            && display == display0)
      && (!failed ==> errors == errors0)
      && view.sortBy == view0.sortBy && view.sortDirection == view0.sortDirection
      && buttons.saveSelectedJobsButtonDisabled == buttons0.saveSelectedJobsButtonDisabled
      && buttons.searchButtonDisabled == buttons0.searchButtonDisabled
      && (buttons.nextButtonDisabled <==> target == totals.totalPages)
      && (buttons.lastButtonDisabled <==> target == totals.totalPages)
      && (buttons.backButtonDisabled <==> target == 1)
      && (buttons.firstButtonDisabled <==> target == 1)
    }

    /** handleFirstPage */
    method HandleFirstPage(outcome: FetchOutcome) returns (request: Option<SearchRequest>)
      modifies this`display, this`stores, this`totals, this`view, this`errors, this`buttons, this`paging
      ensures SettledOn(1, old(stores), old(totals), old(errors), old(display), old(view), old(buttons),
                        old(search.jobKeywords), old(search.jobLocation), outcome, request)
      ensures view.pageNumberMessage == PageNumberText(Some(1), totals.totalPages)
      ensures old(Valid()) ==> Valid()
    {
      view := view.(isLoading := true);
      paging := paging.(requestedPage := Some(1));
      request := GetJobs(outcome);
    }

    /** handleBackPage */
    method HandleBackPage(outcome: FetchOutcome) returns (request: Option<SearchRequest>)
      modifies this`display, this`stores, this`totals, this`view, this`errors, this`buttons, this`paging
      ensures SettledOn(old(paging.currentPage) - 1, old(stores), old(totals), old(errors), old(display), old(view), old(buttons),
                        old(search.jobKeywords), old(search.jobLocation), outcome, request)
      ensures view.pageNumberMessage == PageNumberText(Some(old(paging.currentPage) - 1), totals.totalPages)
      ensures old(Valid()) ==> Valid()
    {
      view := view.(isLoading := true);
      paging := paging.(requestedPage := Some(paging.currentPage - 1));
      request := GetJobs(outcome);
    }

    /** handleNextPage */
    method HandleNextPage(outcome: FetchOutcome) returns (request: Option<SearchRequest>)
      modifies this`display, this`stores, this`totals, this`view, this`errors, this`buttons, this`paging
      ensures SettledOn(old(paging.currentPage) + 1, old(stores), old(totals), old(errors), old(display), old(view), old(buttons),
                        old(search.jobKeywords), old(search.jobLocation), outcome, request)
      ensures view.pageNumberMessage == PageNumberText(Some(old(paging.currentPage) + 1), totals.totalPages)
      ensures old(Valid()) ==> Valid()
    {
      view := view.(isLoading := true);
      paging := paging.(requestedPage := Some(paging.currentPage + 1));
      request := GetJobs(outcome);
    }

    /** handleLastPage: the target is the page count as it stood before the load. */
    method HandleLastPage(outcome: FetchOutcome) returns (request: Option<SearchRequest>)
      modifies this`display, this`stores, this`totals, this`view, this`errors, this`buttons, this`paging
      ensures SettledOn(old(totals.totalPages), old(stores), old(totals), old(errors), old(display), old(view), old(buttons),
                        old(search.jobKeywords), old(search.jobLocation), outcome, request)
      ensures view.pageNumberMessage == PageNumberText(Some(old(totals.totalPages)), totals.totalPages)
      ensures old(Valid()) ==> Valid()
    {
      view := view.(isLoading := true);
      paging := paging.(requestedPage := Some(totals.totalPages));
      request := GetJobs(outcome);
    }

    /**
     * handleJobSelection: the table reports the complete selection on the
     * page shown, which becomes that page's slice.
     */
    method HandleJobSelection(selectedRows: seq<Job>)
      modifies this`display, this`stores, this`buttons
      // only the current page's slice changes, and it becomes the rows given, in their order
      ensures stores.selectedJobsByPageNumber == old(stores.selectedJobsByPageNumber)[paging.currentPage := selectedRows]
      ensures stores.selectionKeyOrder ==
                AppendKey(old(stores.selectionKeyOrder), old(stores.selectedJobsByPageNumber), paging.currentPage)
      ensures stores.allJobsByPageNumber == old(stores.allJobsByPageNumber)
      ensures selectedRows == [] ==> display == old(display).(currentlySelectedJobs := [])
      ensures old(Valid()) && selectedRows == [] ==>
                (buttons.saveSelectedJobsButtonDisabled <==>
                   old(buttons.saveSelectedJobsButtonDisabled) || !HasAnySelection(stores.selectedJobsByPageNumber))
      ensures selectedRows != [] ==> display == old(display) && !buttons.saveSelectedJobsButtonDisabled
      ensures buttons == old(buttons).(saveSelectedJobsButtonDisabled := buttons.saveSelectedJobsButtonDisabled)
      ensures old(Valid()) ==> Valid()
    {
      var selectedIds := Ids(selectedRows);
      var page := paging.currentPage;
      if |selectedIds| == 0 {
        display := display.(currentlySelectedJobs := []);
        StorePageSelection(page, []);
        ClearingASliceKeepsTheOthers(old(stores.selectedJobsByPageNumber), page);
        DisableSaveIfNothingSelected();
      } else {
        var currentlySelectedIds := IdSet(selectedRows);
        var jobsNotYetSelected := KeepNotYetSelected(selectedRows, currentlySelectedIds);
        StorePageSelection(page, jobsNotYetSelected);
        if (|selectedIds| != 0 || CheckIfJobsSavedOnAllPages()) && buttons.saveSelectedJobsButtonDisabled {
          buttons := buttons.(saveSelectedJobsButtonDisabled := false);
        }
      }
    }

    /** After a slice was cleared: the save button turns off when no page has a selection left. */
    method DisableSaveIfNothingSelected()
      modifies this`buttons
      ensures KeysRecorded(stores.selectionKeyOrder, stores.selectedJobsByPageNumber) ==>
                buttons == old(buttons).(saveSelectedJobsButtonDisabled :=
                                           old(buttons.saveSelectedJobsButtonDisabled) ||
                                           !HasAnySelection(stores.selectedJobsByPageNumber))
      ensures buttons == old(buttons).(saveSelectedJobsButtonDisabled := buttons.saveSelectedJobsButtonDisabled)
    {
      if !CheckIfJobsSavedOnAllPages() && !buttons.saveSelectedJobsButtonDisabled {
        buttons := buttons.(saveSelectedJobsButtonDisabled := true);
      }
    }

    /** Makes `slice` the selection of `page`, recording the page among the keys if it is new. */
    method StorePageSelection(page: int, slice: seq<Job>)
      modifies this`stores
      ensures stores == Stores(old(stores.selectedJobsByPageNumber)[page := slice],
                               AppendKey(old(stores.selectionKeyOrder), old(stores.selectedJobsByPageNumber), page),
                               old(stores.allJobsByPageNumber))
      ensures |slice| > 0 ==> HasAnySelection(stores.selectedJobsByPageNumber)
      ensures old(KeysRecorded(stores.selectionKeyOrder, stores.selectedJobsByPageNumber)) ==>
                KeysRecorded(stores.selectionKeyOrder, stores.selectedJobsByPageNumber)
    {
      if KeysRecorded(stores.selectionKeyOrder, stores.selectedJobsByPageNumber) {
        AppendKeyRecords(stores.selectionKeyOrder, stores.selectedJobsByPageNumber, page, slice);
      }
      stores := stores.(selectedJobsByPageNumber := stores.selectedJobsByPageNumber[page := slice],
                        selectionKeyOrder := AppendKey(stores.selectionKeyOrder, stores.selectedJobsByPageNumber, page));
      assert page in stores.selectedJobsByPageNumber && stores.selectedJobsByPageNumber[page] == slice;
    }

    /** handleTableSort: a sorted copy of the rows on display replaces them; nothing cached is touched. */
    method HandleTableSort(fieldName: string, sortDirection: string, collate: (string, string) -> int)
      modifies this`display, this`view
      ensures display == old(display).(currentlyDisplayedJobs :=
                                         SortRows(old(display.currentlyDisplayedJobs), fieldName, sortDirection, collate))
      ensures view == old(view).(sortBy := fieldName, sortDirection := sortDirection)
    {
      var parsedData := display.currentlyDisplayedJobs;
      parsedData := SortRows(parsedData, fieldName, sortDirection, collate);
      display := display.(currentlyDisplayedJobs := parsedData);
      view := view.(sortBy := fieldName, sortDirection := sortDirection);
    }

    /**
     * The for...in loop of handleJobSave: every page's slice, in the order
     * the loop visits the keys, concatenated.
     */
    method GatherSelections() returns (allSelectedJobs: seq<Job>)
      ensures allSelectedJobs == Flatten(stores.selectedJobsByPageNumber, ForInOrder(stores.selectionKeyOrder))
    {
      allSelectedJobs := [];
      var selected := stores.selectedJobsByPageNumber;
      var pages := ForInOrder(stores.selectionKeyOrder);
      var i := 0;
      while i < |pages|
        invariant 0 <= i <= |pages|
        invariant allSelectedJobs == Flatten(selected, pages[..i])
      {
        var pageNumber := pages[i];
        FlattenStep(selected, pages, i);
        if pageNumber in selected {
          allSelectedJobs := allSelectedJobs + selected[pageNumber];
        }
        i := i + 1;
      }
      assert pages[..i] == pages;
    }

    /**
     * handleJobSave: the for...in loop gathers every slice, the batch goes
     * out, and the finally block resets and notifies success whether or not
     * the save failed.
     */
    method HandleJobSave(outcome: SaveOutcome) returns (submitted: seq<Job>)
      modifies this`display, this`stores, this`totals, this`view, this`errors, this`buttons, this`paging,
               this`successToasts
      ensures submitted == Flatten(old(stores.selectedJobsByPageNumber), ForInOrder(old(stores.selectionKeyOrder)))
      ensures HasResetValues() && !view.isLoading
      ensures successToasts == old(successToasts) + 1
      ensures search == old(search) && buttons.searchButtonDisabled == old(buttons.searchButtonDisabled)
      ensures old(Valid()) ==> Valid()
    {
      view := view.(isLoading := true);
      submitted := GatherSelections();
      if outcome.SaveFailed? {
        RecordFailure(outcome.error);
      }
      ResetVariablesForNewSearch();
      view := view.(isLoading := false);
      successToasts := successToasts + 1;
    }
  }
}
