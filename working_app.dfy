/** The component of the older application as an object. It has the same
    fields and setters as the current one; each handler calls the setters its
    source calls and so changes exactly the fields its handler sets, to the
    values the matching transition computes from the state before the
    handler. */
module WorkingApp {
  import opened Types
  import opened Strings
  import opened Grid
  import opened DeedKeys
  import opened Session
  import WorkingSession
  import WorkingSearch

  class WorkingAppSession {
    /** `deedData`, fixed for the life of the page. */
    const store: seq<DeedEntry>

    var hajryInput: string
    var buildingNoInput: string
    var searchType: SearchType
    var searchResults: seq<DeedEntry>
    var notFound: bool
    var searchedTerm: string
    var searchedBuildingNoTerm: string
    var showFullTable: bool
    var file: Option<UploadedFile>
    var excelData: Option<seq<Row>>
    var excelHeaders: Option<seq<Cell>>
    var selectedExcelColumn1: Option<string>
    var selectedExcelColumn2: Option<string>
    var selectedExcelColumn3: Option<string>
    var isProcessingExcel: bool

    function State(): SessionState
      reads this
    {
      SessionState(hajryInput, buildingNoInput, searchType, searchResults, notFound, searchedTerm,
                   searchedBuildingNoTerm, showFullTable, file, excelData, excelHeaders,
                   selectedExcelColumn1, selectedExcelColumn2, selectedExcelColumn3, isProcessingExcel)
    }

    ghost predicate Valid()
      reads this
    {
      ValidState(store, State()) && NoSelectedColumns(State())
    }

    constructor(deedData: seq<DeedEntry>)
      ensures store == deedData && State() == InitialState() && Valid()
    {
      store := deedData;
      hajryInput, buildingNoInput, searchType := "", "", HajryOnly;
      searchResults, notFound, searchedTerm, searchedBuildingNoTerm := [], false, "", "";
      showFullTable := false;
      file, excelData, excelHeaders := None, None, None;
      selectedExcelColumn1, selectedExcelColumn2, selectedExcelColumn3 := None, None, None;
      isProcessingExcel := false;
    }

    /** The state setters `useState` returns, one per field. */
    method SetHajryInput(v: string) modifies this ensures State() == old(State()).(hajryInput := v) { hajryInput := v; }
    method SetBuildingNoInput(v: string) modifies this ensures State() == old(State()).(buildingNoInput := v) { buildingNoInput := v; }
    method SetSearchType(v: SearchType) modifies this ensures State() == old(State()).(searchType := v) { searchType := v; }
    method SetSearchResults(v: seq<DeedEntry>) modifies this ensures State() == old(State()).(searchResults := v) { searchResults := v; }
    method SetNotFound(v: bool) modifies this ensures State() == old(State()).(notFound := v) { notFound := v; }
    method SetSearchedTerm(v: string) modifies this ensures State() == old(State()).(searchedTerm := v) { searchedTerm := v; }
    method SetSearchedBuildingNoTerm(v: string) modifies this ensures State() == old(State()).(searchedBuildingNoTerm := v) { searchedBuildingNoTerm := v; }
    method SetShowFullTable(v: bool) modifies this ensures State() == old(State()).(showFullTable := v) { showFullTable := v; }
    method SetFile(v: Option<UploadedFile>) modifies this ensures State() == old(State()).(file := v) { file := v; }
    method SetExcelData(v: Option<seq<Row>>) modifies this ensures State() == old(State()).(excelData := v) { excelData := v; }
    method SetExcelHeaders(v: Option<seq<Cell>>) modifies this ensures State() == old(State()).(excelHeaders := v) { excelHeaders := v; }
    method SetSelectedExcelColumn1(v: Option<string>) modifies this ensures State() == old(State()).(selectedExcelColumn1 := v) { selectedExcelColumn1 := v; }
    method SetSelectedExcelColumn2(v: Option<string>) modifies this ensures State() == old(State()).(selectedExcelColumn2 := v) { selectedExcelColumn2 := v; }
    method SetSelectedExcelColumn3(v: Option<string>) modifies this ensures State() == old(State()).(selectedExcelColumn3 := v) { selectedExcelColumn3 := v; }
    method SetIsProcessingExcel(v: bool) modifies this ensures State() == old(State()).(isProcessingExcel := v) { isProcessingExcel := v; }

    method ResetExcelState()
      modifies this
      ensures State() == ExcelCleared(old(State()))
    {
      SetFile(None);
      SetExcelData(None);
      SetExcelHeaders(None);
      SetSelectedExcelColumn1(None);
      SetSelectedExcelColumn2(None);
      SetSelectedExcelColumn3(None);
      SetIsProcessingExcel(false);
    }

    /** The four setter calls that clear the outcome of a search. */
    method ClearResults()
      modifies this
      ensures State() == ResultsCleared(old(State()))
    {
      SetSearchResults([]);
      SetNotFound(false);
      SetSearchedTerm("");
      SetSearchedBuildingNoTerm("");
    }

    method HandleSearchTypeChange(value: SearchType)
      requires Valid()
      modifies this
      ensures State() == SearchTypeChanged(old(State()), value) && Valid()
    {
      TransitionsPreserveValid(store, State(), value, None, NoPayload);
      SearchTypeChangeBody(value);
    }

    /** The handler bodies below call the setters as the handler does; the
        `Handle` methods add that the state stays valid. */
    method SearchTypeChangeBody(value: SearchType)
      modifies this
      ensures State() == SearchTypeChanged(old(State()), value)
    {
      SetSearchType(value);
      SetHajryInput("");
      SetBuildingNoInput("");
      ClearResults();
      ResetExcelState();
    }

    method HandleSearch()
      requires Valid()
      modifies this
      ensures State() == WorkingSession.Searched(store, old(State())) && Valid()
    {
      WorkingSession.SearchPreservesValid(store, State());
      WorkingSession.SearchKeepsColumns(store, State());
      SearchBody();
    }

    method SearchBody()
      modifies this
      ensures State() == WorkingSession.Searched(store, old(State()))
    {
      if searchType == ExcelFile || showFullTable {
        return;
      }
      var mode := searchType;
      ResetExcelState();
      var currentSearchTerm := Trim(hajryInput);
      var currentBuildingNoTerm := Trim(buildingNoInput);
      if WorkingSession.RequiredTermsMissing(mode, currentSearchTerm, currentBuildingNoTerm) {
        ClearResults();
        return;
      }
      SetSearchedTerm(currentSearchTerm);
      SetSearchedBuildingNoTerm(currentBuildingNoTerm);
      var rawResults := WorkingSearch.PerformSingleSearch(store, mode, currentSearchTerm, currentBuildingNoTerm);
      var uniqueResults := DeduplicateDeedEntries(rawResults);
      SetSearchResults(uniqueResults);
      SetNotFound(|uniqueResults| == 0
                  && (currentSearchTerm != "" || (mode == HajryAndBuilding && currentBuildingNoTerm != "")));
    }

    method ClearSearchResults()
      requires Valid()
      modifies this
      ensures State() == ResultsClearedOnEdit(old(State())) && Valid()
    {
      TransitionsPreserveValid(store, State(), searchType, None, NoPayload);
      ClearSearchResultsBody();
    }

    method ClearSearchResultsBody()
      modifies this
      ensures State() == ResultsClearedOnEdit(old(State()))
    {
      if |searchResults| > 0 || notFound || file.Some? {
        var processing, uploaded := isProcessingExcel, file;
        ClearResults();
        if !processing && uploaded.Some? {
          ResetExcelState();
        }
      }
    }

    /** The synchronous part of `handleFileChange`. */
    method HandleFileChange(selected: Option<UploadedFile>)
      requires Valid()
      modifies this
      ensures State() == WorkingSession.FileSelected(old(State()), selected) && Valid()
    {
      WorkingSession.UploadPreservesValid(store, State(), selected, NoPayload);
      WorkingSession.UploadKeepsColumns(State(), selected, NoPayload);
      if selected.Some? {
        SetFile(selected);
      }
    }

    /** The reader's `onload` callback, given what decoding produced. */
    method FinishFileRead(outcome: ReadOutcome)
      requires Valid()
      modifies this
      ensures State() == WorkingSession.FileRead(old(State()), outcome) && Valid()
    {
      WorkingSession.UploadPreservesValid(store, State(), None, outcome);
      WorkingSession.UploadKeepsColumns(State(), None, outcome);
      FileReadBody(outcome);
    }

    method FileReadBody(outcome: ReadOutcome)
      modifies this
      ensures State() == WorkingSession.FileRead(old(State()), outcome)
    {
      if outcome.Loaded? {
        var jsonData := outcome.grid;
        SetExcelHeaders(if |jsonData| > 0 then Some(jsonData[0]) else None);
        SetExcelData(if |jsonData| > 0 then Some(jsonData[1..]) else None);
        SetSelectedExcelColumn1(None);
        SetSelectedExcelColumn2(None);
        SetSelectedExcelColumn3(None);
        SetSearchResults([]);
        SetNotFound(false);
      }
    }

    method HandleExcelSearch()
      requires Valid()
      modifies this
      ensures State() == WorkingSession.ExcelSearched(store, old(State())) && Valid()
    {
      WorkingSession.ExcelSearchPreservesValid(store, State());
      WorkingSession.UnselectedColumnsReject(store, State());
      ExcelSearchBody();
    }

    method ExcelSearchBody()
      modifies this
      ensures State() == WorkingSession.ExcelSearched(store, old(State()))
    {
      if excelData.None? || excelHeaders.None?
         || (!Truthy(selectedExcelColumn1) && !Truthy(selectedExcelColumn2) && !Truthy(selectedExcelColumn3)) {
        ExcelRejectedBody();
        return;
      }
      var mode, headers, rows := searchType, excelHeaders.value, excelData.value;
      var columns := [selectedExcelColumn1, selectedExcelColumn2, selectedExcelColumn3];
      SetIsProcessingExcel(true);
      var aggregatedResults := WorkingSearch.BulkSearch(store, mode, headers, rows, columns);
      ShowBulkResults(aggregatedResults);
    }

    /** The setter calls that end `handleExcelSearch` after the row loop. */
    method ShowBulkResults(aggregatedResults: seq<DeedEntry>)
      modifies this
      ensures State() == old(State()).(searchResults := aggregatedResults, notFound := |aggregatedResults| == 0,
                                       searchedTerm := ExcelUploadTerm, searchedBuildingNoTerm := "",
                                       isProcessingExcel := false)
    {
      SetSearchResults(aggregatedResults);
      SetNotFound(|aggregatedResults| == 0);
      SetSearchedTerm(ExcelUploadTerm);
      SetSearchedBuildingNoTerm("");
      SetIsProcessingExcel(false);
    }

    /** The setter calls of the early return of `handleExcelSearch`. */
    method ExcelRejectedBody()
      modifies this
      ensures State() == ExcelRejected(old(State()))
    {
      SetSearchResults([]);
      SetNotFound(true);
      SetSearchedTerm(ExcelUploadTerm);
    }

    method HandleTableViewChange(value: TableViewType)
      requires Valid()
      modifies this
      ensures State() == TableViewChanged(store, old(State()), value) && Valid()
    {
      TableViewPreservesValid(store, State(), value);
      TableViewChangeBody(value);
    }

    method TableViewChangeBody(value: TableViewType)
      modifies this
      ensures State() == TableViewChanged(store, old(State()), value)
    {
      var isFullView := IsFullView(value);
      SetShowFullTable(isFullView);
      if isFullView {
        var all := DeduplicateDeedEntries(store);
        SetSearchResults(all);
        SetNotFound(false);
        SetHajryInput("");
        SetBuildingNoInput("");
        SetSearchedTerm("");
        SetSearchedBuildingNoTerm("");
        ResetExcelState();
      } else {
        SetSearchResults([]);
        SetNotFound(false);
      }
    }
  }
}
