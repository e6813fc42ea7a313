/** The bulk search of the current application (`handleExcelSearch`): every
    data row of an uploaded grid becomes one exact-match query, chosen by a
    five-way priority rule over three recognised columns, and the hits of all
    rows are unioned through a key-indexed `Map`. */
module Bulk {
  import opened Types
  import opened Strings
  import opened Seqs
  import opened OrderedMaps
  import opened Grid
  import opened DeedKeys

  const HajryHeader: string := "Hajry"
  const MazayaHeader: string := "Mazaya"
  const BuildingHeader: string := "Building No."

  /** The one building alias: the query `1142` also finds buildings `OMZ1`. */
  const AliasQuery: string := "1142"
  const AliasBuilding: string := "OMZ1"

  /** The positions of the three recognised columns, each -1 when absent. */
  datatype Columns = Columns(hajry: int, mazaya: int, buildingNo: int)

  function DetectColumns(headers: seq<Cell>): (c: Columns)
    ensures c.hajry == -1 <==> forall j :: 0 <= j < |headers| ==> headers[j] != Str(HajryHeader)
    ensures c.mazaya == -1 <==> forall j :: 0 <= j < |headers| ==> headers[j] != Str(MazayaHeader)
    ensures c.buildingNo == -1 <==> forall j :: 0 <= j < |headers| ==> headers[j] != Str(BuildingHeader)
  {
    Columns(IndexOf(headers, HajryHeader), IndexOf(headers, MazayaHeader), IndexOf(headers, BuildingHeader))
  }

  /** At least one recognised column is present. */
  predicate AnyColumn(c: Columns)
  {
    c.hajry != -1 || c.mazaya != -1 || c.buildingNo != -1
  }

  /** The three normalised values of one row. */
  datatype RowQuery = RowQuery(hajry: string, mazaya: string, buildingNo: string)

  function ReadRow(row: Row, c: Columns): RowQuery
  {
    RowQuery(CellText(row, c.hajry), CellText(row, c.mazaya), CellText(row, c.buildingNo))
  }

  /** The five query forms, strongest first. */
  datatype Rule =
    | ByHajryAndBuilding(hajry: string, building: string)
    | ByMazayaAndBuilding(mazaya: string, building: string)
    | ByHajry(hajry: string)
    | ByMazaya(mazaya: string)
    | ByBuilding(building: string)

  /** The rule a row uses; `None` for a row that is skipped. Exactly one rule
      applies to every other row, and which one is stated here in closed form. */
  function RuleFor(q: RowQuery): (r: Option<Rule>)
    ensures r.None? <==> q.hajry == "" && q.mazaya == "" && q.buildingNo == ""
    ensures r == Some(ByHajryAndBuilding(q.hajry, q.buildingNo)) <==> q.hajry != "" && q.buildingNo != ""
    ensures r == Some(ByMazayaAndBuilding(q.mazaya, q.buildingNo)) <==>
              q.hajry == "" && q.mazaya != "" && q.buildingNo != ""
    ensures r == Some(ByHajry(q.hajry)) <==> q.hajry != "" && q.buildingNo == ""
    ensures r == Some(ByMazaya(q.mazaya)) <==> q.hajry == "" && q.mazaya != "" && q.buildingNo == ""
    ensures r == Some(ByBuilding(q.buildingNo)) <==> q.hajry == "" && q.mazaya == "" && q.buildingNo != ""
  {
    if q.hajry == "" && q.mazaya == "" && q.buildingNo == "" then None
    else if q.hajry != "" && q.buildingNo != "" then Some(ByHajryAndBuilding(q.hajry, q.buildingNo))
    else if q.mazaya != "" && q.buildingNo != "" then Some(ByMazayaAndBuilding(q.mazaya, q.buildingNo))
    else if q.hajry != "" then Some(ByHajry(q.hajry))
    else if q.mazaya != "" then Some(ByMazaya(q.mazaya))
    else Some(ByBuilding(q.buildingNo))
  }

  /** `entry.buildingNo === b || (b === '1142' && entry.buildingNo === 'OMZ1')`. */
  predicate BuildingMatches(e: DeedEntry, b: string)
  {
    e.buildingNo == Some(b) || (b == AliasQuery && e.buildingNo == Some(AliasBuilding))
  }

  /** The filter predicate of a rule: exact, case-sensitive equality. */
  predicate RuleMatches(rule: Rule, e: DeedEntry)
  {
    match rule
    case ByHajryAndBuilding(h, b) => e.mazaya == Some(h) && BuildingMatches(e, b)
    case ByMazayaAndBuilding(m, b) => e.title == Some(m) && BuildingMatches(e, b)
    case ByHajry(h) => e.mazaya == Some(h)
    case ByMazaya(m) => e.title == Some(m)
    case ByBuilding(b) => BuildingMatches(e, b)
  }

  function RuleResults(store: seq<DeedEntry>, rule: Rule): seq<DeedEntry>
  {
    Filter(store, e => RuleMatches(rule, e))
  }

  /** The normalised values of every data row. */
  function Queries(rows: seq<Row>, c: Columns): (qs: seq<RowQuery>)
    ensures |qs| == |rows|
    ensures forall i :: 0 <= i < |rows| ==> qs[i] == ReadRow(rows[i], c)
  {
    seq(|rows|, i requires 0 <= i < |rows| => ReadRow(rows[i], c))
  }

  /** `rowResults` of one row; a skipped row has none. */
  function RowHits(store: seq<DeedEntry>, q: RowQuery): seq<DeedEntry>
  {
    match RuleFor(q)
    case None => []
    case Some(rule) => RuleResults(store, rule)
  }

  /** The hits of all rows, row after row, in the order they reach the map. */
  function AllHits(store: seq<DeedEntry>, qs: seq<RowQuery>): seq<DeedEntry>
    decreases |qs|
  {
    if qs == [] then []
    else AllHits(store, qs[..|qs| - 1]) + RowHits(store, qs[|qs| - 1])
  }

  /** `totalSearchTerms`: the rows that are not skipped. */
  function SearchTermCount(qs: seq<RowQuery>): (n: nat)
    ensures n <= |qs|
    decreases |qs|
  {
    if qs == [] then 0
    else SearchTermCount(qs[..|qs| - 1]) + (if RuleFor(qs[|qs| - 1]).Some? then 1 else 0)
  }

  /** `foundMatches`: the rows with at least one hit. */
  function MatchedRowCount(store: seq<DeedEntry>, qs: seq<RowQuery>): (n: nat)
    ensures n <= |qs|
    decreases |qs|
  {
    if qs == [] then 0
    else MatchedRowCount(store, qs[..|qs| - 1]) + (if RowHits(store, qs[|qs| - 1]) != [] then 1 else 0)
  }

  /** A row is searched exactly when one of the five rules applies to it. */
  predicate IsSearched(q: RowQuery)
  {
    RuleFor(q).Some?
  }

  /** `totalSearchTerms` is the number of rows a rule applies to. */
  lemma {:induction false} SearchTermCountIsFilter(qs: seq<RowQuery>)
    ensures SearchTermCount(qs) == |Filter(qs, IsSearched)|
    decreases |qs|
  {
    if qs != [] {
      SearchTermCountIsFilter(qs[..|qs| - 1]);
    }
  }

  /** `foundMatches` is the number of rows with at least one hit. */
  lemma {:induction false} MatchedRowCountIsFilter(store: seq<DeedEntry>, qs: seq<RowQuery>)
    ensures MatchedRowCount(store, qs) == |Filter(qs, q => RowHits(store, q) != [])|
    decreases |qs|
  {
    if qs != [] {
      MatchedRowCountIsFilter(store, qs[..|qs| - 1]);
    }
  }

  /** A skipped row has no hits, so `foundMatches` never exceeds
      `totalSearchTerms`. */
  lemma {:induction false} MatchedRowsWereSearched(store: seq<DeedEntry>, qs: seq<RowQuery>)
    ensures MatchedRowCount(store, qs) <= SearchTermCount(qs)
    decreases |qs|
  {
    if qs != [] {
      MatchedRowsWereSearched(store, qs[..|qs| - 1]);
    }
  }

  /** The row loop of `handleExcelSearch`: the union of all row hits by key,
      and the two counters. */
  method BulkSearch(store: seq<DeedEntry>, c: Columns, rows: seq<Row>)
    returns (results: seq<DeedEntry>, totalSearchTerms: nat, foundMatches: nat)
    ensures results == UnionByKey(AllHits(store, Queries(rows, c)))
    ensures totalSearchTerms == SearchTermCount(Queries(rows, c))
    ensures foundMatches == MatchedRowCount(store, Queries(rows, c))
  {
    ghost var qs := Queries(rows, c);
    var allResultsMap: OrderedMap<DeedEntry> := Empty();
    totalSearchTerms, foundMatches := 0, 0;
    for i := 0 to |rows|
      invariant allResultsMap == SetAll(Empty(), AllHits(store, qs[..i]))
      invariant totalSearchTerms == SearchTermCount(qs[..i])
      invariant foundMatches == MatchedRowCount(store, qs[..i])
    {
      var q := ReadRow(rows[i], c);
      assert q == qs[i];
      NextRow(store, qs, i);
      var counted, matched;
      allResultsMap, counted, matched := SearchRow(store, q, allResultsMap, AllHits(store, qs[..i]));
      if counted {
        totalSearchTerms := totalSearchTerms + 1;
      }
      if matched {
        foundMatches := foundMatches + 1;
      }
    }
    assert qs[..|rows|] == qs;
    results := allResultsMap.Values();
  }

  /** One turn of the row loop: the query of the first rule that applies,
      and its results set into the map under their keys. */
  method SearchRow(store: seq<DeedEntry>, q: RowQuery, m: OrderedMap<DeedEntry>, ghost before: seq<DeedEntry>)
    returns (m': OrderedMap<DeedEntry>, counted: bool, matched: bool)
    requires m == SetAll(Empty(), before)
    ensures m' == SetAll(Empty(), before + RowHits(store, q))
    ensures counted == RuleFor(q).Some?
    ensures matched == (RowHits(store, q) != [])
  {
    m', counted, matched := m, false, false;
    var rule := RuleFor(q);
    assert RowHits(store, q) == if rule.Some? then RuleResults(store, rule.value) else [];
    if rule.Some? {
      counted := true;
      var rowResults := RuleResults(store, rule.value);
      if |rowResults| > 0 {
        matched := true;
        SetAllAppend(Empty(), before, rowResults);
        m' := SetEach(m', rowResults);
      }
    }
    if !matched {
      assert before + RowHits(store, q) == before;
    }
  }

  /** The specification functions advance by one row. */
  lemma NextRow(store: seq<DeedEntry>, qs: seq<RowQuery>, i: int)
    requires 0 <= i < |qs|
    ensures AllHits(store, qs[..i + 1]) == AllHits(store, qs[..i]) + RowHits(store, qs[i])
    ensures SearchTermCount(qs[..i + 1]) == SearchTermCount(qs[..i]) + if RuleFor(qs[i]).Some? then 1 else 0
    ensures MatchedRowCount(store, qs[..i + 1]) ==
              MatchedRowCount(store, qs[..i]) + if RowHits(store, qs[i]) != [] then 1 else 0
  {
    assert qs[..i + 1][..i] == qs[..i];
  }

  /** A rule's results are the store records it matches. */
  lemma RuleResultsMembers(store: seq<DeedEntry>, rule: Rule)
    ensures forall x :: x in RuleResults(store, rule) <==> x in store && RuleMatches(rule, x)
  {
    FilterMembers(store, e => RuleMatches(rule, e));
  }

  // ------------------------------------------------------------ properties

  /** A non-empty Hajry value decides the rule alone with the building value:
      the Mazaya cell is then never consulted. */
  lemma HajryOverridesMazaya(h: string, m: string, m': string, b: string)
    requires h != ""
    ensures RuleFor(RowQuery(h, m, b)) == RuleFor(RowQuery(h, m', b))
    ensures RuleFor(RowQuery(h, m, b)) == if b != "" then Some(ByHajryAndBuilding(h, b)) else Some(ByHajry(h))
  {
  }

  /** A rule with no hit does not fall back to a weaker one: a record found by
      its Hajry value alone is not found once a different building is given. */
  lemma NoFallback(e: DeedEntry)
    requires e.mazaya == Some("108") && e.buildingNo == Some("1143")
    ensures RuleFor(RowQuery("108", "", "1144")) == Some(ByHajryAndBuilding("108", "1144"))
    ensures RuleResults([e], ByHajryAndBuilding("108", "1144")) == []
    ensures RuleResults([e], ByHajry("108")) == [e]
  {
    assert [e][..0] == [];
  }

  /** The alias works in one direction only. */
  lemma AliasIsOneWay(e: DeedEntry)
    ensures e.buildingNo == Some(AliasBuilding) ==> BuildingMatches(e, AliasQuery)
    ensures e.buildingNo == Some(AliasQuery) ==> !BuildingMatches(e, AliasBuilding)
    ensures forall b :: b != AliasQuery ==> (BuildingMatches(e, b) <==> e.buildingNo == Some(b))
  {
  }

  /** Every hit is a store record that satisfies the rule of a row that was not skipped. */
  lemma {:induction false} AllHitsSound(store: seq<DeedEntry>, qs: seq<RowQuery>)
    ensures forall x :: x in AllHits(store, qs) ==>
              x in store && exists k :: 0 <= k < |qs| && RuleFor(qs[k]).Some? && RuleMatches(RuleFor(qs[k]).value, x)
    decreases |qs|
  {
    if qs != [] {
      var n := |qs| - 1;
      var init := qs[..n];
      AllHitsSound(store, init);
      var hits := RowHits(store, qs[n]);
      assert AllHits(store, qs) == AllHits(store, init) + hits;
      forall x | x in AllHits(store, qs)
        ensures x in store && exists k :: 0 <= k < |qs| && RuleFor(qs[k]).Some? && RuleMatches(RuleFor(qs[k]).value, x)
      {
        if x in AllHits(store, init) {
          var k :| 0 <= k < |init| && RuleFor(init[k]).Some? && RuleMatches(RuleFor(init[k]).value, x);
          assert init[k] == qs[k];
        } else {
          RuleResultsMembers(store, RuleFor(qs[n]).value);
        }
      }
    }
  }

  /** Every store record that satisfies the rule of some row is a hit. */
  lemma {:induction false} AllHitsComplete(store: seq<DeedEntry>, qs: seq<RowQuery>, k: int, x: DeedEntry)
    requires 0 <= k < |qs| && x in store
    requires RuleFor(qs[k]).Some? && RuleMatches(RuleFor(qs[k]).value, x)
    ensures x in AllHits(store, qs)
    decreases |qs|
  {
    var n := |qs| - 1;
    var hits := RowHits(store, qs[n]);
    assert AllHits(store, qs) == AllHits(store, qs[..n]) + hits;
    if k < n {
      assert qs[..n][k] == qs[k];
      AllHitsComplete(store, qs[..n], k, x);
    } else {
      RuleResultsMembers(store, RuleFor(qs[n]).value);
    }
  }

  /** The bulk results: one record per key, each a store record found by the
      rule of some row, and every record found by some row is represented by
      its key. */
  lemma BulkResults(store: seq<DeedEntry>, qs: seq<RowQuery>)
    ensures DistinctKeys(UnionByKey(AllHits(store, qs)))
    ensures forall x :: x in UnionByKey(AllHits(store, qs)) ==>
              x in store && exists k :: 0 <= k < |qs| && RuleFor(qs[k]).Some? && RuleMatches(RuleFor(qs[k]).value, x)
    ensures forall k, x ::
              (0 <= k < |qs| && x in store && RuleFor(qs[k]).Some? && RuleMatches(RuleFor(qs[k]).value, x)) ==>
              Key(x) in Keys(UnionByKey(AllHits(store, qs)))
  {
    var hits := AllHits(store, qs);
    UnionKeysDistinct(hits);
    UnionMembers(hits);
    AllHitsSound(store, qs);
    UnionKeysFirstSeen(hits);
    DedupKeepsKeysOf(hits);
    forall k, x | 0 <= k < |qs| && x in store && RuleFor(qs[k]).Some? && RuleMatches(RuleFor(qs[k]).value, x)
      ensures Key(x) in Keys(UnionByKey(hits))
    {
      AllHitsComplete(store, qs, k, x);
    }
  }

  /** When every row is skipped nothing is found. */
  lemma {:induction false} AllSkippedFindsNothing(store: seq<DeedEntry>, qs: seq<RowQuery>)
    requires SearchTermCount(qs) == 0
    ensures AllHits(store, qs) == [] && UnionByKey(AllHits(store, qs)) == []
    ensures MatchedRowCount(store, qs) == 0
    decreases |qs|
  {
    if qs != [] {
      AllSkippedFindsNothing(store, qs[..|qs| - 1]);
    }
  }
}
