/** The search session of the current application: the `useState` fields of
    the component as one value, and each event handler as a transition from
    the state before the handler to the state after it. A handler reads the
    values of the render it was created in, so every field it reads is a field
    of the old state. */
module Session {
  import opened Types
  import opened Strings
  import opened Grid
  import opened DeedKeys
  import Search
  import Bulk

  /** The uploaded file object; only its presence matters to the engine. */
  datatype UploadedFile = UploadedFile(name: string)

  datatype SessionState = SessionState(
    hajryInput: string,
    buildingNoInput: string,
    searchType: SearchType,
    searchResults: seq<DeedEntry>,
    notFound: bool,
    searchedTerm: string,
    searchedBuildingNoTerm: string,
    showFullTable: bool,
    file: Option<UploadedFile>,
    excelData: Option<seq<Row>>,
    excelHeaders: Option<seq<Cell>>,
    selectedExcelColumn1: Option<string>,
    selectedExcelColumn2: Option<string>,
    selectedExcelColumn3: Option<string>,
    isProcessingExcel: bool)

  /** The label shown after a bulk search. */
  const ExcelUploadTerm: string := "Excel Upload"
  /** The label shown after a failed upload. */
  const UploadErrorTerm: string := "Excel Upload Error"

  /** The initial values of the `useState` calls. */
  function InitialState(): SessionState
  {
    SessionState("", "", HajryOnly, [], false, "", "", false, None, None, None, None, None, None, false)
  }

  /** What every reachable state satisfies: the results are store records
      with pairwise distinct keys, and no bulk search is half done. */
  ghost predicate ValidState(store: seq<DeedEntry>, s: SessionState)
  {
    && (forall x :: x in s.searchResults ==> x in store)
    && DistinctKeys(s.searchResults)
    && !s.isProcessingExcel
  }

  /** No handler of the current application ever selects a column. */
  predicate NoSelectedColumns(s: SessionState)
  {
    s.selectedExcelColumn1.None? && s.selectedExcelColumn2.None? && s.selectedExcelColumn3.None?
  }

  /** `resetExcelState`. */
  function ExcelCleared(s: SessionState): SessionState
  {
    s.(file := None, excelData := None, excelHeaders := None,
       selectedExcelColumn1 := None, selectedExcelColumn2 := None, selectedExcelColumn3 := None,
       isProcessingExcel := false)
  }

  /** The four setters that clear the outcome of a search. */
  function ResultsCleared(s: SessionState): SessionState
  {
    s.(searchResults := [], notFound := false, searchedTerm := "", searchedBuildingNoTerm := "")
  }

  /** `handleSearchTypeChange(value)`. */
  function SearchTypeChanged(s: SessionState, value: SearchType): SessionState
  {
    ExcelCleared(ResultsCleared(s).(searchType := value, hajryInput := "", buildingNoInput := ""))
  }

  /** The early return of `handleSearch` when the terms a mode needs are empty. */
  predicate RequiredTermsMissing(mode: SearchType, term: string, buildingTerm: string)
  {
    || ((mode == HajryOnly || mode == HajrySearch || mode == MazayaSearch) && term == "")
    || (mode == HajryAndBuilding && term == "" && buildingTerm == "")
  }

  /** `handleSearch`. */
  function Searched(store: seq<DeedEntry>, s: SessionState): SessionState
  {
    if s.searchType == ExcelFile || s.showFullTable then s
    else
      var s1 := ExcelCleared(s);
      var term, buildingTerm := Trim(s.hajryInput), Trim(s.buildingNoInput);
      if RequiredTermsMissing(s.searchType, term, buildingTerm) then ResultsCleared(s1)
      else
        var unique := Dedup(Search.PerformSingleSearch(store, s.searchType, term, buildingTerm));
        s1.(searchedTerm := term, searchedBuildingNoTerm := buildingTerm, searchResults := unique,
            notFound := |unique| == 0 && (term != "" || (s.searchType == HajryAndBuilding && buildingTerm != "")))
  }

  /** `clearSearchResults`. */
  function ResultsClearedOnEdit(s: SessionState): SessionState
  {
    if |s.searchResults| > 0 || s.notFound || s.file.Some? then
      var s1 := ResultsCleared(s);
      if !s.isProcessingExcel && s.file.Some? then ExcelCleared(s1) else s1
    else s
  }

  /** The synchronous part of `handleFileChange`: nothing happens when no file
      was chosen. */
  function FileSelected(s: SessionState, selected: Option<UploadedFile>): SessionState
  {
    match selected
    case None => s
    case Some(f) =>
      ResultsCleared(s).(file := Some(f), excelHeaders := None, excelData := None,
                         selectedExcelColumn1 := None, selectedExcelColumn2 := None, selectedExcelColumn3 := None,
                         isProcessingExcel := false)
  }

  /** The reader's `onload` (with its `catch`) and `onerror` callbacks. */
  function FileRead(s: SessionState, outcome: ReadOutcome): SessionState
  {
    match outcome
    case Loaded(grid) =>
      if |grid| > 0 then
        s.(excelHeaders := Some(grid[0]), excelData := Some(grid[1..]),
           selectedExcelColumn1 := None, selectedExcelColumn2 := None, selectedExcelColumn3 := None)
      else s.(excelHeaders := None, excelData := None)
    case NoPayload => s
    case DecodeFailed => s.(excelHeaders := None, excelData := None, notFound := true, searchedTerm := UploadErrorTerm)
    case ReaderFailed => s.(notFound := true, searchedTerm := UploadErrorTerm)
  }

  /** The two early returns of `handleExcelSearch`. */
  function ExcelRejected(s: SessionState): SessionState
  {
    s.(searchResults := [], notFound := true, searchedTerm := ExcelUploadTerm)
  }

  /** `handleExcelSearch`. */
  function ExcelSearched(store: seq<DeedEntry>, s: SessionState): SessionState
  {
    if s.excelData.None? || s.excelHeaders.None? then ExcelRejected(s)
    else
      var c := Bulk.DetectColumns(s.excelHeaders.value);
      if !Bulk.AnyColumn(c) then ExcelRejected(s)
      else
        var results := UnionByKey(Bulk.AllHits(store, Bulk.Queries(s.excelData.value, c)));
        s.(searchResults := results, notFound := |results| == 0, searchedTerm := ExcelUploadTerm,
           searchedBuildingNoTerm := "", isProcessingExcel := false)
  }

  /** `handleTableViewChange(value)`. */
  function TableViewChanged(store: seq<DeedEntry>, s: SessionState, value: TableViewType): SessionState
  {
    if IsFullView(value) then
      ExcelCleared(ResultsCleared(s).(showFullTable := true, searchResults := Dedup(store),
                                      hajryInput := "", buildingNoInput := ""))
    else s.(showFullTable := false, searchResults := [], notFound := false)
  }

  // ------------------------------------------------------------ properties

  /** The initial state is valid. */
  lemma InitialValid(store: seq<DeedEntry>)
    ensures ValidState(store, InitialState()) && NoSelectedColumns(InitialState())
  {
  }

  /** A mode change forgets everything but the full-view flag. */
  lemma SearchTypeChangeResets(s: SessionState, value: SearchType)
    ensures var s' := SearchTypeChanged(s, value);
      && s'.searchType == value && s'.hajryInput == "" && s'.buildingNoInput == ""
      && s'.searchResults == [] && !s'.notFound && s'.searchedTerm == "" && s'.searchedBuildingNoTerm == ""
      && s'.file.None? && s'.excelData.None? && s'.excelHeaders.None? && NoSelectedColumns(s')
      && !s'.isProcessingExcel && s'.showFullTable == s.showFullTable
  {
  }

  /** `handleSearch` does nothing in the bulk mode or in full view. */
  lemma SearchIgnoredInBulkModeAndFullView(store: seq<DeedEntry>, s: SessionState)
    requires s.searchType == ExcelFile || s.showFullTable
    ensures Searched(store, s) == s
  {
  }

  /** With the needed terms empty, `handleSearch` clears the results and does
      not report "not found". */
  lemma SearchWithoutTermsClears(store: seq<DeedEntry>, s: SessionState)
    requires s.searchType != ExcelFile && !s.showFullTable
    requires RequiredTermsMissing(s.searchType, Trim(s.hajryInput), Trim(s.buildingNoInput))
    ensures Searched(store, s) == ResultsCleared(ExcelCleared(s))
    ensures Searched(store, s).searchResults == [] && !Searched(store, s).notFound
  {
  }

  /** Otherwise `handleSearch` shows, once per key, exactly the store records
      that match the trimmed terms under the current mode, and reports "not
      found" exactly when there are none. */
  lemma SearchShowsMatches(store: seq<DeedEntry>, s: SessionState)
    requires s.searchType != ExcelFile && !s.showFullTable
    requires !RequiredTermsMissing(s.searchType, Trim(s.hajryInput), Trim(s.buildingNoInput))
    ensures var s', term, buildingTerm := Searched(store, s), Trim(s.hajryInput), Trim(s.buildingNoInput);
      && s'.searchResults == Dedup(Search.PerformSingleSearch(store, s.searchType, term, buildingTerm))
      && (forall x :: x in s'.searchResults ==> x in store && Search.Matches(s.searchType, x, term, buildingTerm))
      && (forall x :: x in store && Search.Matches(s.searchType, x, term, buildingTerm) ==> Key(x) in Keys(s'.searchResults))
      && (s'.notFound <==> s'.searchResults == [])
      && s'.searchedTerm == term && s'.searchedBuildingNoTerm == buildingTerm
      && s'.file.None? && s'.excelData.None?
  {
    var term, buildingTerm := Trim(s.hajryInput), Trim(s.buildingNoInput);
    var raw := Search.PerformSingleSearch(store, s.searchType, term, buildingTerm);
    SearchRuns(store, s);
    Search.SearchMembers(store, s.searchType, term, buildingTerm);
    DedupMembers(raw);
    DedupKeepsKeysOf(raw);
  }

  /** The state `handleSearch` leaves when it runs a search. */
  lemma SearchRuns(store: seq<DeedEntry>, s: SessionState)
    requires s.searchType != ExcelFile && !s.showFullTable
    requires !RequiredTermsMissing(s.searchType, Trim(s.hajryInput), Trim(s.buildingNoInput))
    ensures var s', term, buildingTerm := Searched(store, s), Trim(s.hajryInput), Trim(s.buildingNoInput);
      && s'.searchResults == Dedup(Search.PerformSingleSearch(store, s.searchType, term, buildingTerm))
      && s'.notFound == (s'.searchResults == [] && (term != "" || (s.searchType == HajryAndBuilding && buildingTerm != "")))
      && s'.searchedTerm == term && s'.searchedBuildingNoTerm == buildingTerm
      && s'.file.None? && s'.excelData.None? && s'.excelHeaders.None? && NoSelectedColumns(s') && !s'.isProcessingExcel
      && s'.hajryInput == s.hajryInput && s'.buildingNoInput == s.buildingNoInput
      && s'.searchType == s.searchType && s'.showFullTable == s.showFullTable
  {
  }

  /** In full view the table shows the whole store once per key; back in the
      compact view it is empty. */
  lemma TableViewShowsStore(store: seq<DeedEntry>, s: SessionState, value: TableViewType)
    ensures var s' := TableViewChanged(store, s, value);
      && s'.showFullTable == (value == Full)
      && !s'.notFound
      && (value == Full ==> s'.searchResults == Dedup(store) && s'.hajryInput == "" && s'.file.None?
                            && forall x :: x in store ==> Key(x) in Keys(s'.searchResults))
      && (value == Compact ==> s'.searchResults == [])
  {
    DedupCoversKeys(store);
    forall x | x in store
      ensures Key(x) in Keys(Dedup(store))
    {
      var i :| 0 <= i < |store| && store[i] == x;
    }
  }

  /** The failures of the bulk search. */
  lemma ExcelSearchRejects(store: seq<DeedEntry>, s: SessionState)
    requires s.excelData.None? || s.excelHeaders.None? || !Bulk.AnyColumn(Bulk.DetectColumns(s.excelHeaders.value))
    ensures var s' := ExcelSearched(store, s);
      s'.searchResults == [] && s'.notFound && s'.searchedTerm == ExcelUploadTerm
  {
  }

  /** A successful bulk search shows the key union of the row hits, labels it
      "Excel Upload", and reports "not found" exactly when it is empty, which
      includes the case where every row was skipped. */
  lemma ExcelSearchShowsUnion(store: seq<DeedEntry>, s: SessionState)
    requires s.excelData.Some? && s.excelHeaders.Some?
    requires Bulk.AnyColumn(Bulk.DetectColumns(s.excelHeaders.value))
    ensures var s', qs := ExcelSearched(store, s), Bulk.Queries(s.excelData.value, Bulk.DetectColumns(s.excelHeaders.value));
      && s'.searchResults == UnionByKey(Bulk.AllHits(store, qs))
      && (s'.notFound <==> s'.searchResults == [])
      && (Bulk.SearchTermCount(qs) == 0 ==> s'.notFound)
      && s'.searchedTerm == ExcelUploadTerm && !s'.isProcessingExcel
  {
    var qs := Bulk.Queries(s.excelData.value, Bulk.DetectColumns(s.excelHeaders.value));
    var results := UnionByKey(Bulk.AllHits(store, qs));
    assert ExcelSearched(store, s).searchResults == results;
    if Bulk.SearchTermCount(qs) == 0 {
      Bulk.AllSkippedFindsNothing(store, qs);
    }
  }

  /** Choosing a file clears the results and the previous sheet; choosing
      none changes nothing. */
  lemma FileSelectedClears(s: SessionState, selected: Option<UploadedFile>)
    ensures var s' := FileSelected(s, selected);
      && (selected.Some? ==>
            s'.file == selected && s'.searchResults == [] && !s'.notFound && s'.searchedTerm == ""
            && s'.excelHeaders.None? && s'.excelData.None? && NoSelectedColumns(s') && !s'.isProcessingExcel)
      && (selected.None? ==> s' == s)
  {
  }

  /** A decoded sheet gives the header row and the data rows (nothing for an
      empty sheet); a decoding failure drops the sheet and a reader error
      keeps it, and both report "Excel Upload Error" as not found. */
  lemma FileReadOutcomes(s: SessionState, outcome: ReadOutcome)
    ensures var s' := FileRead(s, outcome);
      && (outcome.Loaded? && |outcome.grid| > 0 ==>
            s'.excelHeaders == Some(outcome.grid[0]) && s'.excelData.Some?
            && [outcome.grid[0]] + s'.excelData.value == outcome.grid && NoSelectedColumns(s'))
      && (outcome.Loaded? && |outcome.grid| == 0 ==> s'.excelHeaders.None? && s'.excelData.None?)
      && (outcome.Loaded? ==> s'.searchResults == s.searchResults && s'.notFound == s.notFound)
      && (outcome.DecodeFailed? ==> s'.excelHeaders.None? && s'.excelData.None?)
      && (outcome.ReaderFailed? ==> s'.excelHeaders == s.excelHeaders && s'.excelData == s.excelData)
      && (outcome.DecodeFailed? || outcome.ReaderFailed? ==>
            s'.notFound && s'.searchedTerm == UploadErrorTerm && s'.searchResults == s.searchResults)
      && (outcome.NoPayload? ==> s' == s)
  {
    if outcome.Loaded? && |outcome.grid| > 0 {
      assert [outcome.grid[0]] + outcome.grid[1..] == outcome.grid;
    }
  }

  /** The handlers that do not compute results keep the state valid. */
  lemma TransitionsPreserveValid(store: seq<DeedEntry>, s: SessionState, mode: SearchType,
                                 selected: Option<UploadedFile>, outcome: ReadOutcome)
    requires ValidState(store, s)
    ensures ValidState(store, SearchTypeChanged(s, mode))
    ensures ValidState(store, ResultsClearedOnEdit(s))
    ensures ValidState(store, FileSelected(s, selected))
    ensures ValidState(store, FileRead(s, outcome))
  {
  }

  /** `handleSearch` keeps the state valid. */
  lemma SearchPreservesValid(store: seq<DeedEntry>, s: SessionState)
    requires ValidState(store, s)
    ensures ValidState(store, Searched(store, s))
  {
    var term, buildingTerm := Trim(s.hajryInput), Trim(s.buildingNoInput);
    if s.searchType == ExcelFile || s.showFullTable {
      assert Searched(store, s) == s;
    } else if RequiredTermsMissing(s.searchType, term, buildingTerm) {
      assert Searched(store, s) == ResultsCleared(ExcelCleared(s));
    } else {
      var raw := Search.PerformSingleSearch(store, s.searchType, term, buildingTerm);
      SearchRuns(store, s);
      Search.SearchMembers(store, s.searchType, term, buildingTerm);
      DedupMembers(raw);
      DedupKeysDistinct(raw);
      assert Searched(store, s).searchResults == Dedup(raw) && !Searched(store, s).isProcessingExcel;
    }
  }

  /** `handleExcelSearch` keeps the state valid. */
  lemma ExcelSearchPreservesValid(store: seq<DeedEntry>, s: SessionState)
    requires ValidState(store, s)
    ensures ValidState(store, ExcelSearched(store, s))
  {
    if s.excelData.Some? && s.excelHeaders.Some? {
      Bulk.BulkResults(store, Bulk.Queries(s.excelData.value, Bulk.DetectColumns(s.excelHeaders.value)));
    }
  }

  /** `handleTableViewChange` keeps the state valid. */
  lemma TableViewPreservesValid(store: seq<DeedEntry>, s: SessionState, view: TableViewType)
    requires ValidState(store, s)
    ensures ValidState(store, TableViewChanged(store, s, view))
  {
    DedupMembers(store);
    DedupKeysDistinct(store);
  }

  /** No handler selects a column. */
  lemma TransitionsKeepColumnsUnselected(store: seq<DeedEntry>, s: SessionState, mode: SearchType, view: TableViewType,
                                         selected: Option<UploadedFile>, outcome: ReadOutcome)
    requires NoSelectedColumns(s)
    ensures NoSelectedColumns(SearchTypeChanged(s, mode))
    ensures NoSelectedColumns(Searched(store, s))
    ensures NoSelectedColumns(ResultsClearedOnEdit(s))
    ensures NoSelectedColumns(FileSelected(s, selected))
    ensures NoSelectedColumns(FileRead(s, outcome))
    ensures NoSelectedColumns(ExcelSearched(store, s))
    ensures NoSelectedColumns(TableViewChanged(store, s, view))
  {
    SearchTypeChangeKeepsColumns(s, mode);
    SearchKeepsColumns(store, s);
    EditKeepsColumns(s);
    UploadKeepsColumns(s, selected, outcome);
    ExcelSearchKeepsColumns(store, s);
    TableViewKeepsColumns(store, s, view);
  }

  lemma SearchTypeChangeKeepsColumns(s: SessionState, mode: SearchType)
    ensures NoSelectedColumns(SearchTypeChanged(s, mode))
  {
  }

  lemma EditKeepsColumns(s: SessionState)
    requires NoSelectedColumns(s)
    ensures NoSelectedColumns(ResultsClearedOnEdit(s))
  {
  }

  lemma UploadKeepsColumns(s: SessionState, selected: Option<UploadedFile>, outcome: ReadOutcome)
    requires NoSelectedColumns(s)
    ensures NoSelectedColumns(FileSelected(s, selected))
    ensures NoSelectedColumns(FileRead(s, outcome))
  {
  }

  lemma TableViewKeepsColumns(store: seq<DeedEntry>, s: SessionState, view: TableViewType)
    requires NoSelectedColumns(s)
    ensures NoSelectedColumns(TableViewChanged(store, s, view))
  {
  }

  lemma SearchKeepsColumns(store: seq<DeedEntry>, s: SessionState)
    requires NoSelectedColumns(s)
    ensures NoSelectedColumns(Searched(store, s))
  {
    if s.searchType != ExcelFile && !s.showFullTable
       && !RequiredTermsMissing(s.searchType, Trim(s.hajryInput), Trim(s.buildingNoInput)) {
      SearchRuns(store, s);
    }
  }

  lemma ExcelSearchKeepsColumns(store: seq<DeedEntry>, s: SessionState)
    requires NoSelectedColumns(s)
    ensures NoSelectedColumns(ExcelSearched(store, s))
  {
    if s.excelData.Some? && s.excelHeaders.Some? && Bulk.AnyColumn(Bulk.DetectColumns(s.excelHeaders.value)) {
      ExcelSearchRuns(store, s);
    }
  }

  /** The state `handleExcelSearch` leaves when it runs the row loop. */
  lemma ExcelSearchRuns(store: seq<DeedEntry>, s: SessionState)
    requires s.excelData.Some? && s.excelHeaders.Some? && Bulk.AnyColumn(Bulk.DetectColumns(s.excelHeaders.value))
    ensures var results := UnionByKey(Bulk.AllHits(store, Bulk.Queries(s.excelData.value, Bulk.DetectColumns(s.excelHeaders.value))));
      ExcelSearched(store, s) == s.(searchResults := results, notFound := |results| == 0, searchedTerm := ExcelUploadTerm,
                                    searchedBuildingNoTerm := "", isProcessingExcel := false)
  {
  }
}
