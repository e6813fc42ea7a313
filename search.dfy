/** `performSingleSearch` of the current application: a filter over the store
    driven by the search mode, a query term and, for the combined mode, a
    building term. */
module Search {
  import opened Types
  import opened Strings
  import opened Seqs
  import DeedData

  /** `value && (lower(value) === lower(term) || lower(value).includes(lower(term)))`. */
  predicate FieldMatches(v: Option<string>, term: string)
  {
    Truthy(v) && (Lower(v.value) == Lower(term) || Contains(Lower(v.value), Lower(term)))
  }

  /** `generalSearchFields.some(...)`: some searchable field matches the term. */
  predicate GeneralMatch(e: DeedEntry, term: string)
  {
    exists f | f in DeedData.GeneralSearchFields :: FieldMatches(FieldValue(e, f), term)
  }

  /** The filter predicate for one mode. A missing building term is "". */
  predicate Matches(mode: SearchType, e: DeedEntry, term: string, buildingTerm: string)
  {
    match mode
    case HajryOnly => GeneralMatch(e, term)
    case HajrySearch => FieldMatches(e.mazaya, term)
    case ExcelFile => Truthy(e.mazaya) && e.mazaya.value == term
    case HajryAndBuilding =>
      && (term != "" ==> GeneralMatch(e, term))
      && (buildingTerm != "" ==> FieldMatches(e.buildingNo, buildingTerm))
    case MazayaSearch => FieldMatches(e.title, term)
  }

  function Matcher(mode: SearchType, term: string, buildingTerm: string): DeedEntry -> bool
  {
    e => Matches(mode, e, term, buildingTerm)
  }

  /** `performSingleSearch(searchTerm, buildingNoTerm)` over `store`. */
  function PerformSingleSearch(store: seq<DeedEntry>, mode: SearchType, term: string, buildingTerm: string): (r: seq<DeedEntry>)
    ensures term == "" && buildingTerm == "" ==> r == []
    ensures |r| <= |store|
  {
    if term == "" && buildingTerm == "" then [] else Filter(store, Matcher(mode, term, buildingTerm))
  }

  /** The store positions the search reports, in increasing order. */
  function SearchIndices(store: seq<DeedEntry>, mode: SearchType, term: string, buildingTerm: string): seq<int>
  {
    if term == "" && buildingTerm == "" then [] else FilterIndices(store, Matcher(mode, term, buildingTerm))
  }

  /** The search returns, in store order, exactly the records at the positions
      whose record satisfies the mode's predicate, provided some term is given. */
  lemma SearchSelectsInStoreOrder(store: seq<DeedEntry>, mode: SearchType, term: string, buildingTerm: string)
    ensures Picks(PerformSingleSearch(store, mode, term, buildingTerm), store, SearchIndices(store, mode, term, buildingTerm))
    ensures forall i :: 0 <= i < |store| ==>
              (i in SearchIndices(store, mode, term, buildingTerm) <==>
                 (term != "" || buildingTerm != "") && Matches(mode, store[i], term, buildingTerm))
  {
    if term != "" || buildingTerm != "" {
      FilterSelectsExactly(store, Matcher(mode, term, buildingTerm));
    }
  }

  /** A record is in the result exactly when it is in the store, some term is
      given and the record satisfies the mode's predicate. */
  lemma SearchMembers(store: seq<DeedEntry>, mode: SearchType, term: string, buildingTerm: string)
    ensures forall x :: x in PerformSingleSearch(store, mode, term, buildingTerm) <==>
              x in store && (term != "" || buildingTerm != "") && Matches(mode, x, term, buildingTerm)
  {
    if term != "" || buildingTerm != "" {
      FilterMembers(store, Matcher(mode, term, buildingTerm));
    }
  }

  /** "Lower-cased equal, or lower-cased contains" is plain lower-cased
      containment; a missing or empty field never matches. */
  lemma EqualOrIncludesIsIncludes(v: Option<string>, term: string)
    ensures FieldMatches(v, term) <==> Truthy(v) && Contains(Lower(v.value), Lower(term))
    ensures !Truthy(v) ==> !FieldMatches(v, term)
  {
    if Truthy(v) && Lower(v.value) == Lower(term) {
      ContainsItself(Lower(term));
    }
  }

  /** `hajrySearch` and `excelFile` look at `mazaya` only, `mazayaSearch` at `title` only. */
  lemma ModesInspectOneField(mode: SearchType, a: DeedEntry, b: DeedEntry, term: string, buildingTerm: string)
    requires mode == HajrySearch || mode == ExcelFile || mode == MazayaSearch
    requires mode == MazayaSearch ==> a.title == b.title
    requires mode != MazayaSearch ==> a.mazaya == b.mazaya
    ensures Matches(mode, a, term, buildingTerm) == Matches(mode, b, term, buildingTerm)
    ensures buildingTerm != "" ==> (Matches(mode, a, term, buildingTerm) == Matches(mode, a, term, ""))
  {
  }

  /** In the combined mode an empty side does not constrain, and with both
      terms given a record must pass both tests. */
  lemma CombinedMode(e: DeedEntry, term: string, buildingTerm: string)
    ensures Matches(HajryAndBuilding, e, term, "") <==> (term != "" ==> Matches(HajryOnly, e, term, ""))
    ensures Matches(HajryAndBuilding, e, "", buildingTerm) <==>
              (buildingTerm != "" ==> Truthy(e.buildingNo) && Contains(Lower(e.buildingNo.value), Lower(buildingTerm)))
    ensures term != "" && buildingTerm != "" ==>
              (Matches(HajryAndBuilding, e, term, buildingTerm) <==>
                 Matches(HajryOnly, e, term, "") && Truthy(e.buildingNo)
                 && Contains(Lower(e.buildingNo.value), Lower(buildingTerm)))
  {
    EqualOrIncludesIsIncludes(e.buildingNo, buildingTerm);
  }

  /** The general mode is containment in one of the six fields. */
  lemma GeneralIsSomeFieldContains(e: DeedEntry, term: string)
    ensures GeneralMatch(e, term) <==>
              exists f | f in DeedData.GeneralSearchFields ::
                Truthy(FieldValue(e, f)) && Contains(Lower(FieldValue(e, f).value), Lower(term))
  {
    forall f | f in DeedData.GeneralSearchFields {
      EqualOrIncludesIsIncludes(FieldValue(e, f), term);
    }
  }

  /** `excelFile` is exact, case-sensitive equality on `mazaya`: a value that
      `hajrySearch` finds by containment or by case folding is not found. */
  lemma ExcelFileIsExact(e: DeedEntry)
    requires e.mazaya == Some("108")
    ensures Matches(HajrySearch, e, "10", "") && !Matches(ExcelFile, e, "10", "")
    ensures Matches(ExcelFile, e, "108", "")
  {
    assert OccursAt("10", "108", 0);
    assert Lower("108") == "108" && Lower("10") == "10";
  }

  lemma ExcelFileIsCaseSensitive(e: DeedEntry)
    requires e.mazaya == Some("A3")
    ensures Matches(HajrySearch, e, "a3", "") && !Matches(ExcelFile, e, "a3", "")
  {
    assert Lower("A3") == "a3" == Lower("a3");
  }
}
