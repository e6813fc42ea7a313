/** The component of the current application as an object: one field and one
    setter per `useState` call, one method per handler. Each handler calls the
    setters its source calls, in the same order, and so changes exactly the
    fields its handler sets, to the values the matching transition of
    `Session` computes from the state before the handler. */
module App {
  import opened Types
  import opened Strings
  import opened Grid
  import opened DeedKeys
  import opened Session
  import Search
  import Bulk

  class AppSession {
    /** `deedData`, fixed for the life of the page. */
    const store: seq<DeedEntry>

    var hajryInput: string
    var buildingNoInput: string
    var searchType: SearchType
    var searchResults: seq<DeedEntry>
    var notFound: bool
    var searchedTerm: string
    var searchedBuildingNoTerm: string
    var showFullTable: bool
    var file: Option<UploadedFile>
    var excelData: Option<seq<Row>>
    var excelHeaders: Option<seq<Cell>>
    var selectedExcelColumn1: Option<string>
    var selectedExcelColumn2: Option<string>
    var selectedExcelColumn3: Option<string>
    var isProcessingExcel: bool

    function State(): SessionState
      reads this
    {
      SessionState(hajryInput, buildingNoInput, searchType, searchResults, notFound, searchedTerm,
                   searchedBuildingNoTerm, showFullTable, file, excelData, excelHeaders,
                   selectedExcelColumn1, selectedExcelColumn2, selectedExcelColumn3, isProcessingExcel)
    }

    ghost predicate Valid()
      reads this
    {
      ValidState(store, State()) && NoSelectedColumns(State())
    }

    constructor(deedData: seq<DeedEntry>)
      ensures store == deedData && State() == InitialState() && Valid()
    {
      store := deedData;
      hajryInput, buildingNoInput, searchType := "", "", HajryOnly;
      searchResults, notFound, searchedTerm, searchedBuildingNoTerm := [], false, "", "";
      showFullTable := false;
      file, excelData, excelHeaders := None, None, None;
      selectedExcelColumn1, selectedExcelColumn2, selectedExcelColumn3 := None, None, None;
      isProcessingExcel := false;
    }

    /** The state setters `useState` returns, one per field. */
    method SetHajryInput(v: string) modifies this ensures State() == old(State()).(hajryInput := v) { hajryInput := v; }
    method SetBuildingNoInput(v: string) modifies this ensures State() == old(State()).(buildingNoInput := v) { buildingNoInput := v; }
    method SetSearchType(v: SearchType) modifies this ensures State() == old(State()).(searchType := v) { searchType := v; }
    method SetSearchResults(v: seq<DeedEntry>) modifies this ensures State() == old(State()).(searchResults := v) { searchResults := v; }
    method SetNotFound(v: bool) modifies this ensures State() == old(State()).(notFound := v) { notFound := v; }
    method SetSearchedTerm(v: string) modifies this ensures State() == old(State()).(searchedTerm := v) { searchedTerm := v; }
    method SetSearchedBuildingNoTerm(v: string) modifies this ensures State() == old(State()).(searchedBuildingNoTerm := v) { searchedBuildingNoTerm := v; }
    method SetShowFullTable(v: bool) modifies this ensures State() == old(State()).(showFullTable := v) { showFullTable := v; }
    method SetFile(v: Option<UploadedFile>) modifies this ensures State() == old(State()).(file := v) { file := v; }
    method SetExcelData(v: Option<seq<Row>>) modifies this ensures State() == old(State()).(excelData := v) { excelData := v; }
    method SetExcelHeaders(v: Option<seq<Cell>>) modifies this ensures State() == old(State()).(excelHeaders := v) { excelHeaders := v; }
    method SetSelectedExcelColumn1(v: Option<string>) modifies this ensures State() == old(State()).(selectedExcelColumn1 := v) { selectedExcelColumn1 := v; }
    method SetSelectedExcelColumn2(v: Option<string>) modifies this ensures State() == old(State()).(selectedExcelColumn2 := v) { selectedExcelColumn2 := v; }
    method SetSelectedExcelColumn3(v: Option<string>) modifies this ensures State() == old(State()).(selectedExcelColumn3 := v) { selectedExcelColumn3 := v; }
    method SetIsProcessingExcel(v: bool) modifies this ensures State() == old(State()).(isProcessingExcel := v) { isProcessingExcel := v; }

    method ResetExcelState()
      modifies this
      ensures State() == ExcelCleared(old(State()))
    {
      SetFile(None);
      SetExcelData(None);
      SetExcelHeaders(None);
      SetSelectedExcelColumn1(None);
      SetSelectedExcelColumn2(None);
      SetSelectedExcelColumn3(None);
      SetIsProcessingExcel(false);
    }

    /** The four setter calls that clear the outcome of a search. */
    method ClearResults()
      modifies this
      ensures State() == ResultsCleared(old(State()))
    {
      SetSearchResults([]);
      SetNotFound(false);
      SetSearchedTerm("");
      SetSearchedBuildingNoTerm("");
    }

    method HandleSearchTypeChange(value: SearchType)
      requires Valid()
      modifies this
      ensures State() == SearchTypeChanged(old(State()), value) && Valid()
    {
      TransitionsPreserveValid(store, State(), value, None, NoPayload);
      SearchTypeChangeBody(value);
    }

    /** The handler bodies below call the setters as the handler does; the
        `Handle` methods add that the state stays valid. */
    method SearchTypeChangeBody(value: SearchType)
      modifies this
      ensures State() == SearchTypeChanged(old(State()), value)
    {
      SetSearchType(value);
      SetHajryInput("");
      SetBuildingNoInput("");
      ClearResults();
      ResetExcelState();
    }

    method HandleSearch()
      requires Valid()
      modifies this
      ensures State() == Searched(store, old(State())) && Valid()
    {
      SearchPreservesValid(store, State());
      SearchKeepsColumns(store, State());
      SearchBody();
    }

    method SearchBody()
      modifies this
      ensures State() == Searched(store, old(State()))
    {
      if searchType == ExcelFile || showFullTable {
        return;
      }
      var mode := searchType;
      ResetExcelState();
      var currentSearchTerm := Trim(hajryInput);
      var currentBuildingNoTerm := Trim(buildingNoInput);
      if RequiredTermsMissing(mode, currentSearchTerm, currentBuildingNoTerm) {
        ClearResults();
        return;
      }
      SetSearchedTerm(currentSearchTerm);
      SetSearchedBuildingNoTerm(currentBuildingNoTerm);
      var rawResults := Search.PerformSingleSearch(store, mode, currentSearchTerm, currentBuildingNoTerm);
      var uniqueResults := DeduplicateDeedEntries(rawResults);
      SetSearchResults(uniqueResults);
      SetNotFound(|uniqueResults| == 0
                  && (currentSearchTerm != "" || (mode == HajryAndBuilding && currentBuildingNoTerm != "")));
    }

    method ClearSearchResults()
      requires Valid()
      modifies this
      ensures State() == ResultsClearedOnEdit(old(State())) && Valid()
    {
      TransitionsPreserveValid(store, State(), searchType, None, NoPayload);
      ClearSearchResultsBody();
    }

    method ClearSearchResultsBody()
      modifies this
      ensures State() == ResultsClearedOnEdit(old(State()))
    {
      if |searchResults| > 0 || notFound || file.Some? {
        var processing, uploaded := isProcessingExcel, file;
        ClearResults();
        if !processing && uploaded.Some? {
          ResetExcelState();
        }
      }
    }

    /** The synchronous part of `handleFileChange`. */
    method HandleFileChange(selected: Option<UploadedFile>)
      requires Valid()
      modifies this
      ensures State() == FileSelected(old(State()), selected) && Valid()
    {
      TransitionsPreserveValid(store, State(), searchType, selected, NoPayload);
      FileChangeBody(selected);
    }

    method FileChangeBody(selected: Option<UploadedFile>)
      modifies this
      ensures State() == FileSelected(old(State()), selected)
    {
      if selected.Some? {
        SetFile(selected);
        ClearResults();
        SetExcelHeaders(None);
        SetExcelData(None);
        SetSelectedExcelColumn1(None);
        SetSelectedExcelColumn2(None);
        SetSelectedExcelColumn3(None);
        SetIsProcessingExcel(false);
      }
    }

    /** The reader callback, given what decoding produced. */
    method FinishFileRead(outcome: ReadOutcome)
      requires Valid()
      modifies this
      ensures State() == FileRead(old(State()), outcome) && Valid()
    {
      TransitionsPreserveValid(store, State(), searchType, None, outcome);
      FileReadBody(outcome);
    }

    method FileReadBody(outcome: ReadOutcome)
      modifies this
      ensures State() == FileRead(old(State()), outcome)
    {
      match outcome {
        case Loaded(grid) =>
          if |grid| > 0 {
            SetExcelHeaders(Some(grid[0]));
            SetExcelData(Some(grid[1..]));
            SetSelectedExcelColumn1(None);
            SetSelectedExcelColumn2(None);
            SetSelectedExcelColumn3(None);
          } else {
            SetExcelHeaders(None);
            SetExcelData(None);
          }
        case NoPayload =>
        case DecodeFailed =>
          SetExcelHeaders(None);
          SetExcelData(None);
          SetNotFound(true);
          SetSearchedTerm(UploadErrorTerm);
        case ReaderFailed =>
          SetNotFound(true);
          SetSearchedTerm(UploadErrorTerm);
      }
    }

    method HandleExcelSearch()
      requires Valid()
      modifies this
      ensures State() == ExcelSearched(store, old(State())) && Valid()
    {
      ExcelSearchPreservesValid(store, State());
      ExcelSearchKeepsColumns(store, State());
      ExcelSearchBody();
    }

    method ExcelSearchBody()
      modifies this
      ensures State() == ExcelSearched(store, old(State()))
    {
      if excelData.None? || excelHeaders.None? {
        ExcelRejectedBody();
        return;
      }
      var rows := excelData.value;
      var columns := Bulk.DetectColumns(excelHeaders.value);
      if !Bulk.AnyColumn(columns) {
        ExcelRejectedBody();
        return;
      }
      SetIsProcessingExcel(true);
      var aggregatedResults, totalSearchTerms, foundMatches := Bulk.BulkSearch(store, columns, rows);
      ShowBulkResults(aggregatedResults);
    }

    /** The setter calls that end `handleExcelSearch` after the row loop. */
    method ShowBulkResults(aggregatedResults: seq<DeedEntry>)
      modifies this
      ensures State() == old(State()).(searchResults := aggregatedResults, notFound := |aggregatedResults| == 0,
                                       searchedTerm := ExcelUploadTerm, searchedBuildingNoTerm := "",
                                       isProcessingExcel := false)
    {
      SetSearchResults(aggregatedResults);
      SetNotFound(|aggregatedResults| == 0);
      SetSearchedTerm(ExcelUploadTerm);
      SetSearchedBuildingNoTerm("");
      SetIsProcessingExcel(false);
    }

    /** The setter calls of the two early returns of `handleExcelSearch`. */
    method ExcelRejectedBody()
      modifies this
      ensures State() == ExcelRejected(old(State()))
    {
      SetSearchResults([]);
      SetNotFound(true);
      SetSearchedTerm(ExcelUploadTerm);
    }

    method HandleTableViewChange(value: TableViewType)
      requires Valid()
      modifies this
      ensures State() == TableViewChanged(store, old(State()), value) && Valid()
    {
      TableViewPreservesValid(store, State(), value);
      TableViewChangeBody(value);
    }

    method TableViewChangeBody(value: TableViewType)
      modifies this
      ensures State() == TableViewChanged(store, old(State()), value)
    {
      var isFullView := IsFullView(value);
      SetShowFullTable(isFullView);
      if isFullView {
        var all := DeduplicateDeedEntries(store);
        SetSearchResults(all);
        SetNotFound(false);
        SetHajryInput("");
        SetBuildingNoInput("");
        SetSearchedTerm("");
        SetSearchedBuildingNoTerm("");
        ResetExcelState();
      } else {
        SetSearchResults([]);
        SetNotFound(false);
      }
    }
  }
}
