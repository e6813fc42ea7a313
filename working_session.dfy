/** The search session of the older application. Its state has the same
    fields as the current one, and `resetExcelState`, `handleSearchTypeChange`,
    `clearSearchResults` and `handleTableViewChange` are the same handlers as
    there, so they are the transitions of `Session`. What differs is the
    search, the early return of `handleSearch`, the upload callbacks and the
    bulk search over the selected columns. */
module WorkingSession {
  import opened Types
  import opened Strings
  import opened Grid
  import opened DeedKeys
  import opened Session
  import WorkingSearch

  /** The early return of `handleSearch`: only the general and Mazaya modes
      need the main term; `hajrySearch` is not listed. */
  predicate RequiredTermsMissing(mode: SearchType, term: string, buildingTerm: string)
  {
    || ((mode == HajryOnly || mode == MazayaSearch) && term == "")
    || (mode == HajryAndBuilding && term == "" && buildingTerm == "")
  }

  /** `handleSearch`. */
  function Searched(store: seq<DeedEntry>, s: SessionState): SessionState
  {
    if s.searchType == ExcelFile || s.showFullTable then s
    else
      var s1 := ExcelCleared(s);
      var term, buildingTerm := Trim(s.hajryInput), Trim(s.buildingNoInput);
      if RequiredTermsMissing(s.searchType, term, buildingTerm) then ResultsCleared(s1)
      else
        var unique := Dedup(WorkingSearch.PerformSingleSearch(store, s.searchType, term, buildingTerm));
        s1.(searchedTerm := term, searchedBuildingNoTerm := buildingTerm, searchResults := unique,
            notFound := |unique| == 0 && (term != "" || (s.searchType == HajryAndBuilding && buildingTerm != "")))
  }

  /** The synchronous part of `handleFileChange`: only the file is recorded. */
  function FileSelected(s: SessionState, selected: Option<UploadedFile>): SessionState
  {
    match selected
    case None => s
    case Some(f) => s.(file := Some(f))
  }

  /** The reader's `onload` callback. There is no `catch` and no `onerror`:
      a decoding failure or a reader error leaves the state as it was. */
  function FileRead(s: SessionState, outcome: ReadOutcome): SessionState
  {
    match outcome
    case Loaded(grid) =>
      var s1 := s.(selectedExcelColumn1 := None, selectedExcelColumn2 := None, selectedExcelColumn3 := None,
                   searchResults := [], notFound := false);
      if |grid| > 0 then s1.(excelHeaders := Some(grid[0]), excelData := Some(grid[1..]))
      else s1.(excelHeaders := None, excelData := None)
    case NoPayload => s
    case DecodeFailed => s
    case ReaderFailed => s
  }

  /** The three column slots in the order the bulk search visits them. */
  function SelectedColumns(s: SessionState): seq<Option<string>>
  {
    [s.selectedExcelColumn1, s.selectedExcelColumn2, s.selectedExcelColumn3]
  }

  /** Some column slot holds a non-empty name. */
  predicate AnySelected(s: SessionState)
  {
    Truthy(s.selectedExcelColumn1) || Truthy(s.selectedExcelColumn2) || Truthy(s.selectedExcelColumn3)
  }

  /** `handleExcelSearch`. */
  function ExcelSearched(store: seq<DeedEntry>, s: SessionState): SessionState
  {
    if s.excelData.None? || s.excelHeaders.None? || !AnySelected(s) then ExcelRejected(s)
    else
      var vs := WorkingSearch.SearchValues(s.excelHeaders.value, s.excelData.value, SelectedColumns(s));
      var results := UnionByKey(WorkingSearch.AllHits(store, s.searchType, vs));
      s.(searchResults := results, notFound := |results| == 0, searchedTerm := ExcelUploadTerm,
         searchedBuildingNoTerm := "", isProcessingExcel := false)
  }

  // ------------------------------------------------------------ properties

  /** In the general, combined and Mazaya modes the older `handleSearch` is
      the current one. */
  lemma SearchAgreesOnSharedModes(store: seq<DeedEntry>, s: SessionState)
    requires s.searchType == HajryOnly || s.searchType == HajryAndBuilding || s.searchType == MazayaSearch
    ensures Searched(store, s) == Session.Searched(store, s)
  {
    var term, buildingTerm := Trim(s.hajryInput), Trim(s.buildingNoInput);
    assert RequiredTermsMissing(s.searchType, term, buildingTerm)
       == Session.RequiredTermsMissing(s.searchType, term, buildingTerm);
    if !s.showFullTable && !RequiredTermsMissing(s.searchType, term, buildingTerm) {
      WorkingSearch.SearchAgreesOnSharedModes(store, s.searchType, term, buildingTerm);
      SearchRuns(store, s);
      Session.SearchRuns(store, s);
    }
  }

  /** The state `handleSearch` leaves when it runs a search. */
  lemma SearchRuns(store: seq<DeedEntry>, s: SessionState)
    requires s.searchType != ExcelFile && !s.showFullTable
    requires !RequiredTermsMissing(s.searchType, Trim(s.hajryInput), Trim(s.buildingNoInput))
    ensures var s', term, buildingTerm := Searched(store, s), Trim(s.hajryInput), Trim(s.buildingNoInput);
      && s'.searchResults == Dedup(WorkingSearch.PerformSingleSearch(store, s.searchType, term, buildingTerm))
      && s'.notFound == (s'.searchResults == [] && (term != "" || (s.searchType == HajryAndBuilding && buildingTerm != "")))
      && s'.searchedTerm == term && s'.searchedBuildingNoTerm == buildingTerm
      && s'.file.None? && s'.excelData.None? && s'.excelHeaders.None? && NoSelectedColumns(s') && !s'.isProcessingExcel
      && s'.hajryInput == s.hajryInput && s'.buildingNoInput == s.buildingNoInput
      && s'.searchType == s.searchType && s'.showFullTable == s.showFullTable
  {
  }

  /** Outside full view, `hajrySearch` never shows a record. It reports "not
      found" exactly when the term is non-empty, and with an empty term it
      still records the building term, where the current application clears
      the results. */
  lemma HajrySearchFindsNothing(store: seq<DeedEntry>, s: SessionState)
    requires s.searchType == HajrySearch && !s.showFullTable
    ensures var s' := Searched(store, s);
      && s'.searchResults == []
      && (s'.notFound <==> Trim(s.hajryInput) != "")
      && s'.searchedTerm == Trim(s.hajryInput)
      && s'.searchedBuildingNoTerm == Trim(s.buildingNoInput)
  {
    NoHajryHits(store, Trim(s.hajryInput), Trim(s.buildingNoInput));
    SearchRuns(store, s);
  }

  lemma NoHajryHits(store: seq<DeedEntry>, term: string, buildingTerm: string)
    ensures Dedup(WorkingSearch.PerformSingleSearch(store, HajrySearch, term, buildingTerm)) == []
  {
    WorkingSearch.OtherModesFindNothing(store, HajrySearch, term, buildingTerm);
  }

  /** When `handleSearch` runs a search, it shows once per key exactly the
      store records the older predicate matches, and reports "not found"
      exactly when there are none and a term the mode reads was given. */
  lemma SearchShowsMatches(store: seq<DeedEntry>, s: SessionState)
    requires s.searchType != ExcelFile && !s.showFullTable
    requires !RequiredTermsMissing(s.searchType, Trim(s.hajryInput), Trim(s.buildingNoInput))
    ensures var s', term, buildingTerm := Searched(store, s), Trim(s.hajryInput), Trim(s.buildingNoInput);
      && (forall x :: x in s'.searchResults ==> x in store && WorkingSearch.Matches(s.searchType, x, term, buildingTerm))
      && (forall x :: (x in store && (term != "" || buildingTerm != "") && WorkingSearch.Matches(s.searchType, x, term, buildingTerm))
                       ==> Key(x) in Keys(s'.searchResults))
      && DistinctKeys(s'.searchResults)
      && (s'.notFound <==> s'.searchResults == [] && (term != "" || s.searchType == HajryAndBuilding))
      && s'.searchedTerm == term && s'.searchedBuildingNoTerm == buildingTerm
  {
    SearchRuns(store, s);
    WorkingSearch.UniqueMatches(store, s.searchType, Trim(s.hajryInput), Trim(s.buildingNoInput));
  }

  /** A decoded sheet gives the header row and the data rows (nothing at all
      for an empty sheet), unselects every column and clears the results;
      every other outcome changes nothing. */
  lemma FileReadSplitsGrid(s: SessionState, outcome: ReadOutcome)
    ensures var s' := FileRead(s, outcome);
      && (outcome.Loaded? && |outcome.grid| > 0 ==>
            s'.excelHeaders == Some(outcome.grid[0]) && s'.excelData.Some?
            && [outcome.grid[0]] + s'.excelData.value == outcome.grid)
      && (outcome.Loaded? && |outcome.grid| == 0 ==> s'.excelHeaders.None? && s'.excelData.None?)
      && (outcome.Loaded? ==> s'.searchResults == [] && !s'.notFound && NoSelectedColumns(s')
                              && s'.file == s.file && s'.searchedTerm == s.searchedTerm)
      && (!outcome.Loaded? ==> s' == s)
  {
    if outcome.Loaded? && |outcome.grid| > 0 {
      assert [outcome.grid[0]] + outcome.grid[1..] == outcome.grid;
    }
  }

  /** The early return of the bulk search. */
  lemma ExcelSearchRejects(store: seq<DeedEntry>, s: SessionState)
    requires s.excelData.None? || s.excelHeaders.None? || !AnySelected(s)
    ensures var s' := ExcelSearched(store, s);
      s'.searchResults == [] && s'.notFound && s'.searchedTerm == ExcelUploadTerm
  {
  }

  /** No handler selects a column, so in a reachable state every bulk search
      of the older application takes the early return. */
  lemma UnselectedColumnsReject(store: seq<DeedEntry>, s: SessionState)
    requires NoSelectedColumns(s)
    ensures ExcelSearched(store, s) == ExcelRejected(s)
  {
  }

  /** Past the early return, the bulk search shows the key union of the hits
      of every selected cell value: each a store record the current mode
      matches with one of those values, every such match represented by its
      key, and "not found" exactly when the union is empty. */
  lemma ExcelSearchShowsUnion(store: seq<DeedEntry>, s: SessionState)
    requires s.excelData.Some? && s.excelHeaders.Some? && AnySelected(s)
    ensures var s', vs := ExcelSearched(store, s),
                          WorkingSearch.SearchValues(s.excelHeaders.value, s.excelData.value, SelectedColumns(s));
      && s'.searchResults == UnionByKey(WorkingSearch.AllHits(store, s.searchType, vs))
      && DistinctKeys(s'.searchResults)
      && (forall x :: x in s'.searchResults ==>
            x in store && exists k :: 0 <= k < |vs| && vs[k] != "" && WorkingSearch.Matches(s.searchType, x, vs[k], ""))
      && (forall k, x :: (0 <= k < |vs| && vs[k] != "" && x in store && WorkingSearch.Matches(s.searchType, x, vs[k], "")) ==>
            Key(x) in Keys(s'.searchResults))
      && (s'.notFound <==> s'.searchResults == [])
      && s'.searchedTerm == ExcelUploadTerm && s'.searchedBuildingNoTerm == "" && !s'.isProcessingExcel
  {
    var vs := WorkingSearch.SearchValues(s.excelHeaders.value, s.excelData.value, SelectedColumns(s));
    WorkingSearch.BulkResults(store, s.searchType, vs);
  }

  /** The bulk search runs the single search under the current mode, so in
      the `excelFile` and `hajrySearch` modes it finds nothing and always
      reports "not found". */
  lemma ExcelModeBulkFindsNothing(store: seq<DeedEntry>, s: SessionState)
    requires s.searchType == ExcelFile || s.searchType == HajrySearch
    ensures ExcelSearched(store, s).searchResults == [] && ExcelSearched(store, s).notFound
  {
    if s.excelData.Some? && s.excelHeaders.Some? && AnySelected(s) {
      var vs := WorkingSearch.SearchValues(s.excelHeaders.value, s.excelData.value, SelectedColumns(s));
      WorkingSearch.OtherModesBulkFindNothing(store, s.searchType, vs);
    }
  }

  /** The upload callbacks keep the state valid. */
  lemma UploadPreservesValid(store: seq<DeedEntry>, s: SessionState, selected: Option<UploadedFile>, outcome: ReadOutcome)
    requires ValidState(store, s)
    ensures ValidState(store, FileSelected(s, selected))
    ensures ValidState(store, FileRead(s, outcome))
  {
  }

  /** `handleSearch` keeps the state valid. */
  lemma SearchPreservesValid(store: seq<DeedEntry>, s: SessionState)
    requires ValidState(store, s)
    ensures ValidState(store, Searched(store, s))
  {
    var term, buildingTerm := Trim(s.hajryInput), Trim(s.buildingNoInput);
    if s.searchType == ExcelFile || s.showFullTable {
      assert Searched(store, s) == s;
    } else if RequiredTermsMissing(s.searchType, term, buildingTerm) {
      assert Searched(store, s) == ResultsCleared(ExcelCleared(s));
    } else {
      var raw := WorkingSearch.PerformSingleSearch(store, s.searchType, term, buildingTerm);
      SearchRuns(store, s);
      WorkingSearch.SearchMembers(store, s.searchType, term, buildingTerm);
      DedupMembers(raw);
      DedupKeysDistinct(raw);
      assert Searched(store, s).searchResults == Dedup(raw) && !Searched(store, s).isProcessingExcel;
    }
  }

  /** `handleExcelSearch` keeps the state valid. */
  lemma ExcelSearchPreservesValid(store: seq<DeedEntry>, s: SessionState)
    requires ValidState(store, s)
    ensures ValidState(store, ExcelSearched(store, s))
  {
    if s.excelData.Some? && s.excelHeaders.Some? && AnySelected(s) {
      WorkingSearch.BulkResults(store, s.searchType,
        WorkingSearch.SearchValues(s.excelHeaders.value, s.excelData.value, SelectedColumns(s)));
    }
  }

  /** No handler of the older application selects a column either. */
  lemma TransitionsKeepColumnsUnselected(store: seq<DeedEntry>, s: SessionState, selected: Option<UploadedFile>,
                                         outcome: ReadOutcome)
    requires NoSelectedColumns(s)
    ensures NoSelectedColumns(Searched(store, s))
    ensures NoSelectedColumns(FileSelected(s, selected))
    ensures NoSelectedColumns(FileRead(s, outcome))
    ensures NoSelectedColumns(ExcelSearched(store, s))
  {
    SearchKeepsColumns(store, s);
    UploadKeepsColumns(s, selected, outcome);
    UnselectedColumnsReject(store, s);
  }

  lemma SearchKeepsColumns(store: seq<DeedEntry>, s: SessionState)
    requires NoSelectedColumns(s)
    ensures NoSelectedColumns(Searched(store, s))
  {
    if s.searchType != ExcelFile && !s.showFullTable
       && !RequiredTermsMissing(s.searchType, Trim(s.hajryInput), Trim(s.buildingNoInput)) {
      SearchRuns(store, s);
    }
  }

  lemma UploadKeepsColumns(s: SessionState, selected: Option<UploadedFile>, outcome: ReadOutcome)
    requires NoSelectedColumns(s)
    ensures NoSelectedColumns(FileSelected(s, selected))
    ensures NoSelectedColumns(FileRead(s, outcome))
  {
  }
}
