/** The older engine of `App-working.tsx`: substring-only matching in three
    modes, and a bulk search that runs the single-query search, under the
    current mode, on every cell of the selected columns (no control of the
    older interface selects one). */
module WorkingSearch {
  import opened Types
  import opened Strings
  import opened Seqs
  import opened OrderedMaps
  import opened Grid
  import opened DeedKeys
  import DeedData
  import Search

  /** `value && value.toLowerCase().includes(term.toLowerCase())`. */
  predicate FieldContains(v: Option<string>, term: string)
  {
    Truthy(v) && Contains(Lower(v.value), Lower(term))
  }

  predicate GeneralMatch(e: DeedEntry, term: string)
  {
    exists f | f in DeedData.GeneralSearchFields :: FieldContains(FieldValue(e, f), term)
  }

  /** The filter predicate; `hajrySearch` and `excelFile` have no branch. */
  predicate Matches(mode: SearchType, e: DeedEntry, term: string, buildingTerm: string)
  {
    match mode
    case HajryOnly => GeneralMatch(e, term)
    case HajryAndBuilding =>
      && (term != "" ==> GeneralMatch(e, term))
      && (buildingTerm != "" ==> FieldContains(e.buildingNo, buildingTerm))
    case MazayaSearch => FieldContains(e.title, term)
    case HajrySearch => false
    case ExcelFile => false
  }

  function Matcher(mode: SearchType, term: string, buildingTerm: string): DeedEntry -> bool
  {
    e => Matches(mode, e, term, buildingTerm)
  }

  /** `performSingleSearch(searchTerm, buildingNoTerm)`. */
  function PerformSingleSearch(store: seq<DeedEntry>, mode: SearchType, term: string, buildingTerm: string): (r: seq<DeedEntry>)
    ensures term == "" && buildingTerm == "" ==> r == []
    ensures |r| <= |store|
  {
    if term == "" && buildingTerm == "" then [] else Filter(store, Matcher(mode, term, buildingTerm))
  }

  /** A record is in the result exactly when it is in the store, some term is
      given and the record satisfies the mode's predicate. */
  lemma SearchMembers(store: seq<DeedEntry>, mode: SearchType, term: string, buildingTerm: string)
    ensures forall x :: x in PerformSingleSearch(store, mode, term, buildingTerm) <==>
              x in store && (term != "" || buildingTerm != "") && Matches(mode, x, term, buildingTerm)
  {
    if term != "" || buildingTerm != "" {
      FilterMembers(store, Matcher(mode, term, buildingTerm));
    }
  }

  /** The de-duplicated result holds only matching store records, one per
      key, covers the key of every match when some term is given, and is
      empty exactly when the search found nothing. */
  lemma UniqueMatches(store: seq<DeedEntry>, mode: SearchType, term: string, buildingTerm: string)
    ensures var raw := PerformSingleSearch(store, mode, term, buildingTerm);
      && (forall x :: x in Dedup(raw) ==> x in store && Matches(mode, x, term, buildingTerm))
      && (forall x :: (x in store && (term != "" || buildingTerm != "") && Matches(mode, x, term, buildingTerm))
                       ==> Key(x) in Keys(Dedup(raw)))
      && DistinctKeys(Dedup(raw))
      && (Dedup(raw) == [] <==> raw == [])
  {
    var raw := PerformSingleSearch(store, mode, term, buildingTerm);
    SearchMembers(store, mode, term, buildingTerm);
    DedupMembers(raw);
    DedupKeepsKeysOf(raw);
    DedupKeysDistinct(raw);
    DedupEmptyIff(raw);
  }

  /** On the three modes both engines have, the substring-only predicate and
      the current equal-or-contains predicate agree on every record. */
  lemma MatchesAgreeOnSharedModes(mode: SearchType, e: DeedEntry, term: string, buildingTerm: string)
    requires mode == HajryOnly || mode == HajryAndBuilding || mode == MazayaSearch
    ensures Matches(mode, e, term, buildingTerm) == Search.Matches(mode, e, term, buildingTerm)
  {
    forall f | f in DeedData.GeneralSearchFields {
      Search.EqualOrIncludesIsIncludes(FieldValue(e, f), term);
    }
    Search.EqualOrIncludesIsIncludes(e.buildingNo, buildingTerm);
    Search.EqualOrIncludesIsIncludes(e.title, term);
  }

  /** ... so the two searches return the same records there. */
  lemma SearchAgreesOnSharedModes(store: seq<DeedEntry>, mode: SearchType, term: string, buildingTerm: string)
    requires mode == HajryOnly || mode == HajryAndBuilding || mode == MazayaSearch
    ensures PerformSingleSearch(store, mode, term, buildingTerm) == Search.PerformSingleSearch(store, mode, term, buildingTerm)
  {
    forall e | e in store {
      MatchesAgreeOnSharedModes(mode, e, term, buildingTerm);
    }
    FilterCongruent(store, Matcher(mode, term, buildingTerm), Search.Matcher(mode, term, buildingTerm));
  }

  /** Every other mode finds nothing. */
  lemma OtherModesFindNothing(store: seq<DeedEntry>, mode: SearchType, term: string, buildingTerm: string)
    requires mode == HajrySearch || mode == ExcelFile
    ensures PerformSingleSearch(store, mode, term, buildingTerm) == []
  {
    if term != "" || buildingTerm != "" {
      FilterNone(store, Matcher(mode, term, buildingTerm));
    }
  }

  /** Where the engines differ: the current one finds a `mazaya` value by
      `hajrySearch`, the older one finds nothing. */
  lemma HajrySearchDiffers(e: DeedEntry)
    requires e.mazaya == Some("108")
    ensures Search.PerformSingleSearch([e], HajrySearch, "108", "") == [e]
    ensures PerformSingleSearch([e], HajrySearch, "108", "") == []
  {
    assert [e][..0] == [];
    Search.EqualOrIncludesIsIncludes(e.mazaya, "108");
  }

  // ------------------------------------------------------------ bulk search

  /** The value a selected column contributes for one row: nothing unless the
      column is selected, present in the headers and holds a truthy cell with
      non-blank text; then the trimmed text. */
  function SelectedValue(headers: seq<Cell>, row: Row, column: Option<string>): string
  {
    if Truthy(column) then CellText(row, IndexOf(headers, column.value)) else ""
  }

  /** The values of one row, one per selected-column slot, in slot order. */
  function RowValues(headers: seq<Cell>, row: Row, columns: seq<Option<string>>): (vs: seq<string>)
    ensures |vs| == |columns|
    ensures forall j :: 0 <= j < |columns| ==> vs[j] == SelectedValue(headers, row, columns[j])
  {
    seq(|columns|, j requires 0 <= j < |columns| => SelectedValue(headers, row, columns[j]))
  }

  /** All values, row by row and within a row slot by slot. */
  function SearchValues(headers: seq<Cell>, rows: seq<Row>, columns: seq<Option<string>>): seq<string>
    decreases |rows|
  {
    if rows == [] then []
    else SearchValues(headers, rows[..|rows| - 1], columns) + RowValues(headers, rows[|rows| - 1], columns)
  }

  /** `if (searchValue) performSingleSearch(searchValue)`. */
  function ValueHits(store: seq<DeedEntry>, mode: SearchType, v: string): seq<DeedEntry>
  {
    if v != "" then PerformSingleSearch(store, mode, v, "") else []
  }

  /** The hits of all values in the order they reach the map. */
  function AllHits(store: seq<DeedEntry>, mode: SearchType, vs: seq<string>): seq<DeedEntry>
    decreases |vs|
  {
    if vs == [] then []
    else AllHits(store, mode, vs[..|vs| - 1]) + ValueHits(store, mode, vs[|vs| - 1])
  }

  /** The nested loops of `handleExcelSearch`: rows, then selected columns,
      then the hits of each value, all `set` into one map by key. */
  method BulkSearch(store: seq<DeedEntry>, mode: SearchType, headers: seq<Cell>, rows: seq<Row>,
                    columns: seq<Option<string>>)
    returns (results: seq<DeedEntry>)
    ensures results == UnionByKey(AllHits(store, mode, SearchValues(headers, rows, columns)))
  {
    var allResultsMap: OrderedMap<DeedEntry> := Empty();
    for i := 0 to |rows|
      invariant allResultsMap == SetAll(Empty(), AllHits(store, mode, SearchValues(headers, rows[..i], columns)))
    {
      assert rows[..i + 1][..i] == rows[..i];
      allResultsMap := SearchRow(store, mode, headers, rows[i], columns, allResultsMap,
                                 SearchValues(headers, rows[..i], columns));
    }
    assert rows[..|rows|] == rows;
    results := allResultsMap.Values();
  }

  /** The inner loop over the selected columns of one row. */
  method SearchRow(store: seq<DeedEntry>, mode: SearchType, headers: seq<Cell>, row: Row,
                   columns: seq<Option<string>>, m: OrderedMap<DeedEntry>, ghost done: seq<string>)
    returns (m': OrderedMap<DeedEntry>)
    requires m == SetAll(Empty(), AllHits(store, mode, done))
    ensures m' == SetAll(Empty(), AllHits(store, mode, done + RowValues(headers, row, columns)))
  {
    m' := m;
    ghost var rowValues := RowValues(headers, row, columns);
    assert done + rowValues[..0] == done;
    for j := 0 to |columns|
      invariant m' == SetAll(Empty(), AllHits(store, mode, done + rowValues[..j]))
    {
      var searchValue := ReadSelected(headers, row, columns[j]);
      assert searchValue == rowValues[j];
      NextValue(store, mode, done, rowValues, j);
      m' := SearchValue(store, mode, searchValue, m', AllHits(store, mode, done + rowValues[..j]));
    }
    assert rowValues[..|columns|] == rowValues;
  }

  /** The trimmed text of the row's cell under one selected column, or ""
      when the slot is empty, the header is absent or the cell is falsy. */
  method ReadSelected(headers: seq<Cell>, row: Row, column: Option<string>) returns (searchValue: string)
    ensures searchValue == SelectedValue(headers, row, column)
  {
    searchValue := "";
    if Truthy(column) {
      var columnIndex := IndexOf(headers, column.value);
      if columnIndex != -1 && CellTruthy(CellAt(row, columnIndex)) {
        searchValue := Trim(CellString(CellAt(row, columnIndex)));
      }
    }
  }

  /** `if (searchValue)`: search the value and set its hits into the map. */
  method SearchValue(store: seq<DeedEntry>, mode: SearchType, searchValue: string, m: OrderedMap<DeedEntry>,
                     ghost before: seq<DeedEntry>)
    returns (m': OrderedMap<DeedEntry>)
    requires m == SetAll(Empty(), before)
    ensures m' == SetAll(Empty(), before + ValueHits(store, mode, searchValue))
  {
    m' := m;
    if searchValue != "" {
      var results := PerformSingleSearch(store, mode, searchValue, "");
      SetAllAppend(Empty(), before, results);
      m' := SetEach(m', results);
    } else {
      assert before + [] == before;
    }
  }

  /** The hits advance by one value. */
  lemma NextValue(store: seq<DeedEntry>, mode: SearchType, done: seq<string>, rowValues: seq<string>, j: int)
    requires 0 <= j < |rowValues|
    ensures AllHits(store, mode, done + rowValues[..j + 1]) ==
              AllHits(store, mode, done + rowValues[..j]) + ValueHits(store, mode, rowValues[j])
  {
    assert (done + rowValues[..j + 1])[..|done| + j] == done + rowValues[..j];
  }

  /** Every hit is a store record that the current mode matches with one of
      the values. */
  lemma {:induction false} AllHitsSound(store: seq<DeedEntry>, mode: SearchType, vs: seq<string>)
    ensures forall x :: x in AllHits(store, mode, vs) ==>
              x in store && exists k :: 0 <= k < |vs| && vs[k] != "" && Matches(mode, x, vs[k], "")
    decreases |vs|
  {
    if vs != [] {
      var n := |vs| - 1;
      var init := vs[..n];
      AllHitsSound(store, mode, init);
      SearchMembers(store, mode, vs[n], "");
      assert AllHits(store, mode, vs) == AllHits(store, mode, init) + ValueHits(store, mode, vs[n]);
      forall x | x in AllHits(store, mode, vs)
        ensures x in store && exists k :: 0 <= k < |vs| && vs[k] != "" && Matches(mode, x, vs[k], "")
      {
        if x in AllHits(store, mode, init) {
          var k :| 0 <= k < |init| && init[k] != "" && Matches(mode, x, init[k], "");
          assert init[k] == vs[k];
        }
      }
    }
  }

  /** Under `hajrySearch` or `excelFile` the bulk search finds nothing. */
  lemma {:induction false} OtherModesBulkFindNothing(store: seq<DeedEntry>, mode: SearchType, vs: seq<string>)
    requires mode == HajrySearch || mode == ExcelFile
    ensures AllHits(store, mode, vs) == [] && UnionByKey(AllHits(store, mode, vs)) == []
    decreases |vs|
  {
    if vs != [] {
      OtherModesBulkFindNothing(store, mode, vs[..|vs| - 1]);
      OtherModesFindNothing(store, mode, vs[|vs| - 1], "");
    }
  }

  /** Every store record the mode matches with some non-empty value is a hit. */
  lemma {:induction false} AllHitsComplete(store: seq<DeedEntry>, mode: SearchType, vs: seq<string>, k: int, x: DeedEntry)
    requires 0 <= k < |vs| && vs[k] != "" && x in store && Matches(mode, x, vs[k], "")
    ensures x in AllHits(store, mode, vs)
    decreases |vs|
  {
    var n := |vs| - 1;
    var front, last := AllHits(store, mode, vs[..n]), ValueHits(store, mode, vs[n]);
    assert AllHits(store, mode, vs) == front + last;
    if k < n {
      assert vs[..n][k] == vs[k];
      AllHitsComplete(store, mode, vs[..n], k, x);
      assert x in front;
    } else {
      SearchMembers(store, mode, vs[n], "");
      assert x in last;
    }
  }

  /** The union holds one record per key, each a store record the mode
      matches with some value, and every record the mode matches with some
      non-empty value is represented by its key. */
  lemma BulkResults(store: seq<DeedEntry>, mode: SearchType, vs: seq<string>)
    ensures DistinctKeys(UnionByKey(AllHits(store, mode, vs)))
    ensures forall x :: x in UnionByKey(AllHits(store, mode, vs)) ==>
              x in store && exists k :: 0 <= k < |vs| && vs[k] != "" && Matches(mode, x, vs[k], "")
    ensures forall k, x :: (0 <= k < |vs| && vs[k] != "" && x in store && Matches(mode, x, vs[k], "")) ==>
              Key(x) in Keys(UnionByKey(AllHits(store, mode, vs)))
  {
    var hits := AllHits(store, mode, vs);
    UnionKeysDistinct(hits);
    UnionMembers(hits);
    AllHitsSound(store, mode, vs);
    UnionKeysFirstSeen(hits);
    DedupKeepsKeysOf(hits);
    forall k, x | 0 <= k < |vs| && vs[k] != "" && x in store && Matches(mode, x, vs[k], "")
      ensures Key(x) in Keys(UnionByKey(hits))
    {
      AllHitsComplete(store, mode, vs, k, x);
    }
  }
}
