/** The identity key of a record and the two ways the application collapses
    records that share a key: `deduplicateDeedEntries`, which keeps the first
    record seen for a key, and the key-indexed union of the bulk search, which
    calls `set` unconditionally and so keeps the last one. */
module DeedKeys {
  import opened Types
  import opened Strings
  import opened Seqs
  import opened OrderedMaps
  import DeedData

  const Separator: char := '|'

  /** What `part ?? 'null'` produces for a missing field. */
  const NullPart: string := "null"

  function Part(v: Option<string>): string
  {
    match v
    case None => NullPart
    case Some(s) => s
  }

  /** The six key parts; they follow the order of `generalSearchFields`. */
  function KeyParts(e: DeedEntry): (r: seq<string>)
    ensures |r| == |DeedData.GeneralSearchFields|
    ensures forall i :: 0 <= i < |r| ==> r[i] == Part(FieldValue(e, DeedData.GeneralSearchFields[i]))
  {
    [Part(e.municipalityTitleDeed), Part(e.hajryPlotNumber), Part(e.mazaya),
     Part(e.title), Part(e.referenceDeed), Part(e.buildingNo)]
  }

  /** `getDeedEntryKey`. */
  function Key(e: DeedEntry): string
  {
    Join(KeyParts(e), Separator)
  }

  /** The keys of a list of records, position by position. */
  function Keys(s: seq<DeedEntry>): (r: seq<string>)
    ensures |r| == |s|
    ensures forall i :: 0 <= i < |s| ==> r[i] == Key(s[i])
  {
    seq(|s|, i requires 0 <= i < |s| => Key(s[i]))
  }

  /** A field value the key renders unambiguously: missing, or neither the
      sentinel `null` nor holding the separator. */
  predicate PlainValue(v: Option<string>)
  {
    v.None? || (v.value != NullPart && Separator !in v.value)
  }

  predicate PlainEntry(e: DeedEntry)
  {
    && PlainValue(e.municipalityTitleDeed) && PlainValue(e.hajryPlotNumber)
    && PlainValue(e.mazaya) && PlainValue(e.title)
    && PlainValue(e.referenceDeed) && PlainValue(e.buildingNo)
  }

  /** On plain records the key is injective: equal keys mean equal records. */
  lemma KeyInjective(a: DeedEntry, b: DeedEntry)
    requires PlainEntry(a) && PlainEntry(b)
    requires Key(a) == Key(b)
    ensures a == b
  {
    PlainParts(a);
    PlainParts(b);
    JoinInjective(KeyParts(a), KeyParts(b), Separator);
    PartsDetermineEntry(a, b);
  }

  /** No key part of a plain record holds the separator. */
  lemma PlainParts(e: DeedEntry)
    requires PlainEntry(e)
    ensures forall i :: 0 <= i < |KeyParts(e)| ==> Separator !in KeyParts(e)[i]
  {
    PlainPart(e.municipalityTitleDeed);
    PlainPart(e.hajryPlotNumber);
    PlainPart(e.mazaya);
    PlainPart(e.title);
    PlainPart(e.referenceDeed);
    PlainPart(e.buildingNo);
  }

  /** Plain records with the same key parts are the same record. */
  lemma PartsDetermineEntry(a: DeedEntry, b: DeedEntry)
    requires PlainEntry(a) && PlainEntry(b)
    requires KeyParts(a) == KeyParts(b)
    ensures a == b
  {
    var pa, pb := KeyParts(a), KeyParts(b);
    assert pa[0] == pb[0] && pa[1] == pb[1] && pa[2] == pb[2];
    assert pa[3] == pb[3] && pa[4] == pb[4] && pa[5] == pb[5];
    PlainPart(a.municipalityTitleDeed); PlainPart(b.municipalityTitleDeed);
    PlainPart(a.hajryPlotNumber); PlainPart(b.hajryPlotNumber);
    PlainPart(a.mazaya); PlainPart(b.mazaya);
    PlainPart(a.title); PlainPart(b.title);
    PlainPart(a.referenceDeed); PlainPart(b.referenceDeed);
    PlainPart(a.buildingNo); PlainPart(b.buildingNo);
  }

  /** The part of a plain value holds no separator and tells `None` from `Some`. */
  lemma PlainPart(v: Option<string>)
    requires PlainValue(v)
    ensures Separator !in Part(v)
    ensures v.None? <==> Part(v) == NullPart
  {
    assert NullPart == ['n', 'u', 'l', 'l'];
  }

  /** Without that condition the key is not injective: a missing field and the
      text `null` give the same key. */
  lemma NullSentinelCollides(e: DeedEntry)
    requires e.mazaya.None?
    ensures Key(e.(mazaya := Some(NullPart))) == Key(e)
    ensures e.(mazaya := Some(NullPart)) != e
  {
  }

  /** ... and so does a separator moved from one field into its neighbour. */
  lemma SeparatorCollides(e: DeedEntry, x: string, y: string, z: string)
    requires e.municipalityTitleDeed == Some(x + [Separator] + y) && e.hajryPlotNumber == Some(z)
    ensures Key(e.(municipalityTitleDeed := Some(x), hajryPlotNumber := Some(y + [Separator] + z))) == Key(e)
  {
    var e' := e.(municipalityTitleDeed := Some(x), hajryPlotNumber := Some(y + [Separator] + z));
    var p, p' := KeyParts(e), KeyParts(e');
    var rest := Join(p[2..], Separator);
    assert p'[2..] == p[2..];
    assert p[1..][1..] == p[2..] && p'[1..][1..] == p'[2..];
    assert Join(p'[1..], Separator) == p'[1] + [Separator] + rest;
    assert Join(p[1..], Separator) == p[1] + [Separator] + rest;
    calc {
      Key(e');
      x + [Separator] + ((y + [Separator] + z) + [Separator] + rest);
      (x + [Separator] + y) + [Separator] + (z + [Separator] + rest);
      Key(e);
    }
  }

  // ---------------------------------------------------------------- dedup

  /** The record at position `i` is the first of `s` with its key. */
  ghost predicate FirstOfKey(s: seq<DeedEntry>, i: int)
    requires 0 <= i < |s|
  {
    forall j :: 0 <= j < i ==> Key(s[j]) != Key(s[i])
  }

  /** What `deduplicateDeedEntries` returns: the records whose key was not seen
      before them, in input order. */
  function Dedup(s: seq<DeedEntry>): seq<DeedEntry>
    decreases |s|
  {
    if s == [] then []
    else
      var init, e := s[..|s| - 1], s[|s| - 1];
      Dedup(init) + (if Key(e) in Keys(init) then [] else [e])
  }

  /** The positions `Dedup` keeps. */
  function DedupIndices(s: seq<DeedEntry>): seq<int>
    decreases |s|
  {
    if s == [] then []
    else
      var init, e := s[..|s| - 1], s[|s| - 1];
      DedupIndices(init) + (if Key(e) in Keys(init) then [] else [|s| - 1])
  }

  lemma SeenBefore(s: seq<DeedEntry>, i: int)
    requires 0 <= i < |s|
    ensures Key(s[i]) in Keys(s[..i]) <==> !FirstOfKey(s, i)
  {
    var ks := Keys(s[..i]);
    if !FirstOfKey(s, i) {
      var j :| 0 <= j < i && Key(s[j]) == Key(s[i]);
      assert ks[j] == Key(s[i]);
    }
  }

  /** Dedup is the order-preserving subsequence of the first occurrence of every key. */
  lemma {:induction false} DedupKeepsFirstOccurrences(s: seq<DeedEntry>)
    ensures Picks(Dedup(s), s, DedupIndices(s))
    ensures forall i :: 0 <= i < |s| ==> (i in DedupIndices(s) <==> FirstOfKey(s, i))
    decreases |s|
  {
    if s != [] {
      var n := |s| - 1;
      var init := s[..n];
      DedupKeepsFirstOccurrences(init);
      var r0, idx0 := Dedup(init), DedupIndices(init);
      var r, idx := Dedup(s), DedupIndices(s);
      var isNew := Key(s[n]) !in Keys(init);
      assert r == r0 + if isNew then [s[n]] else [];
      assert idx == idx0 + if isNew then [n] else [];
      PicksExtend(r0, s, idx0, isNew);
      forall i | 0 <= i < |s|
        ensures i in idx <==> FirstOfKey(s, i)
      {
        if i < n {
          assert i in idx <==> i in idx0;
          FirstOfKeyInPrefix(s, i);
        } else {
          assert n !in idx0;
          SeenBefore(s, n);
        }
      }
    }
  }

  /** Dropping the last record does not change which earlier positions are
      the first of their key. */
  lemma FirstOfKeyInPrefix(s: seq<DeedEntry>, i: int)
    requires 0 <= i < |s| - 1
    ensures FirstOfKey(s[..|s| - 1], i) <==> FirstOfKey(s, i)
  {
    assert forall j :: 0 <= j <= i ==> s[..|s| - 1][j] == s[j];
  }

  /** Every record of the result comes from the input. */
  lemma DedupMembers(s: seq<DeedEntry>)
    ensures forall x :: x in Dedup(s) ==> x in s
  {
    DedupKeepsFirstOccurrences(s);
    var r, idx := Dedup(s), DedupIndices(s);
    forall x | x in r ensures x in s {
      var k :| 0 <= k < |r| && r[k] == x;
      assert s[idx[k]] == x;
    }
  }

  /** No two records of the result share a key. */
  lemma DedupKeysDistinct(s: seq<DeedEntry>)
    ensures forall i, j :: 0 <= i < j < |Dedup(s)| ==> Key(Dedup(s)[i]) != Key(Dedup(s)[j])
  {
    DedupKeepsFirstOccurrences(s);
    var r, idx := Dedup(s), DedupIndices(s);
    forall i, j | 0 <= i < j < |r|
      ensures Key(r[i]) != Key(r[j])
    {
      assert idx[j] in idx;
      assert FirstOfKey(s, idx[j]);
    }
  }

  /** Every key of the input is the key of some record of the result. */
  lemma {:induction false} DedupCoversKeys(s: seq<DeedEntry>)
    ensures forall j :: 0 <= j < |s| ==> Key(s[j]) in Keys(Dedup(s))
    decreases |s|
  {
    if s != [] {
      var n := |s| - 1;
      var init := s[..n];
      DedupCoversKeys(init);
      var d0, d := Dedup(init), Dedup(s);
      assert forall k :: k in Keys(d0) ==> k in Keys(d) by {
        assert Keys(d)[..|d0|] == Keys(d0);
      }
      forall j | 0 <= j < |s|
        ensures Key(s[j]) in Keys(d)
      {
        if j < n {
          assert init[j] == s[j];
        } else if Key(s[n]) in Keys(init) {
          var j' :| 0 <= j' < n && Keys(init)[j'] == Key(s[n]);
          assert Key(init[j']) in Keys(d0);
        } else {
          assert Keys(d)[|d0|] == Key(s[n]);
        }
      }
    }
  }

  /** The result has exactly the keys of the input. */
  lemma DedupSameKeys(s: seq<DeedEntry>)
    ensures forall k :: k in Keys(Dedup(s)) <==> k in Keys(s)
  {
    DedupCoversKeys(s);
    DedupMembers(s);
    var d := Dedup(s);
    forall k | k in Keys(d) ensures k in Keys(s) {
      var i :| 0 <= i < |d| && Keys(d)[i] == k;
      assert d[i] in s;
      var j :| 0 <= j < |s| && s[j] == d[i];
      assert Keys(s)[j] == k;
    }
  }

  /** Every record of the input has its key among those Dedup keeps. */
  lemma DedupKeepsKeysOf(s: seq<DeedEntry>)
    ensures forall x :: x in s ==> Key(x) in Keys(Dedup(s))
  {
    DedupSameKeys(s);
    forall x | x in s
      ensures Key(x) in Keys(Dedup(s))
    {
      var i :| 0 <= i < |s| && s[i] == x;
      assert Keys(s)[i] == Key(x);
    }
  }

  /** Dedup finds nothing only in an empty input. */
  lemma DedupEmptyIff(s: seq<DeedEntry>)
    ensures Dedup(s) == [] <==> s == []
  {
    if s != [] {
      DedupCoversKeys(s);
      assert Key(s[0]) in Keys(Dedup(s));
    }
  }

  ghost predicate DistinctKeys(s: seq<DeedEntry>)
  {
    forall i, j :: 0 <= i < j < |s| ==> Key(s[i]) != Key(s[j])
  }

  /** Dropping the last record keeps the keys distinct, and the last key is
      not among the others. */
  lemma DistinctSplit(t: seq<DeedEntry>)
    requires t != [] && DistinctKeys(t)
    ensures DistinctKeys(t[..|t| - 1])
    ensures Key(t[|t| - 1]) !in Keys(t[..|t| - 1])
  {
    var n := |t| - 1;
    var init := t[..n];
    assert forall i :: 0 <= i < n ==> init[i] == t[i];
    forall i | 0 <= i < n
      ensures Keys(init)[i] != Key(t[n])
    {
      assert init[i] == t[i];
    }
  }

  /** A list without repeated keys passes through Dedup unchanged. */
  lemma {:induction false} DedupOfDistinct(t: seq<DeedEntry>)
    requires DistinctKeys(t)
    ensures Dedup(t) == t
    decreases |t|
  {
    if t != [] {
      var init := t[..|t| - 1];
      DistinctSplit(t);
      DedupOfDistinct(init);
      DedupStep(init, t[|t| - 1]);
      SplitLast([], t);
    }
  }

  /** `deduplicateDeedEntries` is idempotent. */
  lemma DedupIdempotent(s: seq<DeedEntry>)
    ensures Dedup(Dedup(s)) == Dedup(s)
  {
    DedupKeysDistinct(s);
    DedupOfDistinct(Dedup(s));
  }

  /** `deduplicateDeedEntries`: one pass over the records with a `Map` from key
      to the first record seen for it. */
  method DeduplicateDeedEntries(entries: seq<DeedEntry>) returns (r: seq<DeedEntry>)
    ensures r == Dedup(entries)
  {
    var uniqueEntriesMap: OrderedMap<DeedEntry> := Empty();
    for i := 0 to |entries|
      invariant uniqueEntriesMap.Valid()
      invariant uniqueEntriesMap.Values() == Dedup(entries[..i])
      invariant forall k :: uniqueEntriesMap.Has(k) <==> k in Keys(entries[..i])
    {
      var entry := entries[i];
      var key := Key(entry);
      assert entries[..i + 1] == entries[..i] + [entry];
      DedupStep(entries[..i], entry);
      KeysAppendOne(entries[..i], entry);
      if !uniqueEntriesMap.Has(key) {
        InsertAppends(uniqueEntriesMap, key, entry);
        uniqueEntriesMap := uniqueEntriesMap.Set(key, entry);
      }
    }
    assert entries[..|entries|] == entries;
    r := uniqueEntriesMap.Values();
  }

  // ----------------------------------------------------- union through set

  /** The map after `m.set(getDeedEntryKey(x), x)` for every `x` of `s` in turn. */
  function SetAll(m: OrderedMap<DeedEntry>, s: seq<DeedEntry>): (r: OrderedMap<DeedEntry>)
    requires m.Valid()
    ensures r.Valid()
    decreases |s|
  {
    if s == [] then m
    else SetAll(m, s[..|s| - 1]).Set(Key(s[|s| - 1]), s[|s| - 1])
  }

  /** The values of a fresh `Map` after setting every record of `s` under its key. */
  function UnionByKey(s: seq<DeedEntry>): seq<DeedEntry>
  {
    SetAll(Empty(), s).Values()
  }

  /** `results.forEach(result => allResultsMap.set(getDeedEntryKey(result), result))`,
      the loop both bulk searches run. */
  method SetEach(m: OrderedMap<DeedEntry>, results: seq<DeedEntry>) returns (m': OrderedMap<DeedEntry>)
    requires m.Valid()
    ensures m' == SetAll(m, results)
  {
    m' := m;
    for j := 0 to |results|
      invariant m' == SetAll(m, results[..j])
    {
      assert results[..j + 1][..j] == results[..j];
      m' := m'.Set(Key(results[j]), results[j]);
    }
    assert results[..|results|] == results;
  }

  /** Setting `a` and then `b` is setting `a + b`. */
  lemma {:induction false} SetAllAppend(m: OrderedMap<DeedEntry>, a: seq<DeedEntry>, b: seq<DeedEntry>)
    requires m.Valid()
    ensures SetAll(m, a + b) == SetAll(SetAll(m, a), b)
    decreases |b|
  {
    if b == [] {
      assert a + b == a;
    } else {
      var init, x := b[..|b| - 1], b[|b| - 1];
      SetAllAppend(m, a, init);
      SplitLast(a, b);
      SetAllSnoc(m, a + init, x);
      SetAllSnoc(SetAll(m, a), init, x);
    }
  }

  /** Setting one more record after the others. */
  lemma SetAllSnoc(m: OrderedMap<DeedEntry>, s: seq<DeedEntry>, x: DeedEntry)
    requires m.Valid()
    ensures SetAll(m, s + [x]) == SetAll(m, s).Set(Key(x), x)
  {
    assert (s + [x])[..|s|] == s;
  }

  /** The last position of `s` whose record has key `k`, or -1. */
  function LastIndexOfKey(s: seq<DeedEntry>, k: string): (r: int)
    ensures -1 <= r < |s|
    ensures r >= 0 ==> Key(s[r]) == k && forall l :: r < l < |s| ==> Key(s[l]) != k
    ensures r == -1 ==> forall l :: 0 <= l < |s| ==> Key(s[l]) != k
    decreases |s|
  {
    if s == [] then -1
    else if Key(s[|s| - 1]) == k then |s| - 1
    else LastIndexOfKey(s[..|s| - 1], k)
  }

  /** The keys of the union map come in first-seen order. */
  lemma {:induction false} UnionOrder(s: seq<DeedEntry>)
    ensures SetAll(Empty(), s).order == Keys(Dedup(s))
    decreases |s|
  {
    if s != [] {
      var n := |s| - 1;
      var init, e := s[..n], s[n];
      UnionOrder(init);
      DedupSameKeys(init);
      var m := SetAll(Empty(), init);
      assert SetAll(Empty(), s) == m.Set(Key(e), e);
      assert m.Has(Key(e)) <==> Key(e) in m.order;
      if m.Has(Key(e)) {
        assert Dedup(s) == Dedup(init);
      } else {
        assert Dedup(s) == Dedup(init) + [e];
        KeysAppendOne(Dedup(init), e);
      }
    }
  }

  /** One more record: it is kept exactly when its key is new. */
  lemma DedupStep(s: seq<DeedEntry>, e: DeedEntry)
    ensures Dedup(s + [e]) == Dedup(s) + (if Key(e) in Keys(s) then [] else [e])
  {
    assert (s + [e])[..|s|] == s;
  }

  lemma KeysAppendOne(s: seq<DeedEntry>, e: DeedEntry)
    ensures Keys(s + [e]) == Keys(s) + [Key(e)]
  {
    var l, r := Keys(s + [e]), Keys(s) + [Key(e)];
    assert |l| == |r|;
    forall i | 0 <= i < |l|
      ensures l[i] == r[i]
    {
      if i < |s| {
        assert (s + [e])[i] == s[i];
      }
    }
  }

  /** Each key of the union map holds the last record set under it. */
  lemma {:induction false} UnionEntries(s: seq<DeedEntry>)
    ensures forall k :: k in SetAll(Empty(), s).entries ==>
              LastIndexOfKey(s, k) >= 0 && SetAll(Empty(), s).entries[k] == s[LastIndexOfKey(s, k)]
    decreases |s|
  {
    if s != [] {
      var n := |s| - 1;
      var init := s[..n];
      UnionEntries(init);
      var m, m' := SetAll(Empty(), init), SetAll(Empty(), s);
      forall k | k in m'.entries
        ensures LastIndexOfKey(s, k) >= 0 && m'.entries[k] == s[LastIndexOfKey(s, k)]
      {
        if k != Key(s[n]) {
          assert LastIndexOfKey(s, k) == LastIndexOfKey(init, k);
          assert k in m.entries && m'.entries[k] == m.entries[k];
        }
      }
    }
  }

  /** The union lists the keys of the input once each, in first-seen order. */
  lemma UnionKeysFirstSeen(s: seq<DeedEntry>)
    ensures Keys(UnionByKey(s)) == Keys(Dedup(s))
  {
    UnionOrder(s);
    UnionEntries(s);
    var m := SetAll(Empty(), s);
    forall i | 0 <= i < |m.order|
      ensures Key(m.Values()[i]) == m.order[i]
    {
      assert m.order[i] in m.entries;
    }
  }

  /** Each record of the union is the last input record with its key. */
  lemma UnionTakesLastValue(s: seq<DeedEntry>)
    ensures forall i :: 0 <= i < |UnionByKey(s)| ==>
              var k := Key(UnionByKey(s)[i]);
              LastIndexOfKey(s, k) >= 0 && UnionByKey(s)[i] == s[LastIndexOfKey(s, k)]
  {
    UnionEntries(s);
    var m := SetAll(Empty(), s);
    forall i | 0 <= i < |m.order|
      ensures var k := Key(m.Values()[i]);
              LastIndexOfKey(s, k) >= 0 && m.Values()[i] == s[LastIndexOfKey(s, k)]
    {
      assert m.order[i] in m.entries;
    }
  }

  /** The union, like Dedup, never repeats a key. */
  lemma UnionKeysDistinct(s: seq<DeedEntry>)
    ensures DistinctKeys(UnionByKey(s))
  {
    UnionKeysFirstSeen(s);
    DedupKeysDistinct(s);
    var u, d := UnionByKey(s), Dedup(s);
    assert forall i :: 0 <= i < |u| ==> Key(u[i]) == Keys(d)[i] == Key(d[i]);
  }

  /** Every record of the union comes from the input. */
  lemma UnionMembers(s: seq<DeedEntry>)
    ensures forall x :: x in UnionByKey(s) ==> x in s
  {
    UnionTakesLastValue(s);
  }

  /** Records of `s` that share a key are equal. */
  ghost predicate KeyDeterminesRecord(s: seq<DeedEntry>)
  {
    forall i, j :: 0 <= i < |s| && 0 <= j < |s| && Key(s[i]) == Key(s[j]) ==> s[i] == s[j]
  }

  /** Keeping the last record and keeping the first one agree when all
      records that share a key are equal. */
  lemma {:induction false} UnionIsDedupWhenKeyInjective(s: seq<DeedEntry>)
    requires KeyDeterminesRecord(s)
    ensures UnionByKey(s) == Dedup(s)
    decreases |s|
  {
    if s != [] {
      var n := |s| - 1;
      var init, e := s[..n], s[n];
      assert forall i :: 0 <= i < n ==> init[i] == s[i];
      UnionIsDedupWhenKeyInjective(init);
      var m := SetAll(Empty(), init);
      assert m.Has(Key(e)) <==> Key(e) in Keys(init) by {
        UnionOrder(init);
        DedupSameKeys(init);
      }
      if m.Has(Key(e)) {
        var j := LastIndexOfKey(init, Key(e));
        assert m.entries[Key(e)] == e by {
          UnionEntries(init);
          assert init[j] == s[j] && Key(s[j]) == Key(s[n]);
        }
        SetSameValue(m, Key(e), e);
        assert Key(e) in Keys(init);
      } else {
        InsertAppends(m, Key(e), e);
        assert Dedup(s) == Dedup(init) + [e];
      }
    }
  }

  lemma SetSameValue(m: OrderedMap<DeedEntry>, k: string, v: DeedEntry)
    requires m.Valid() && k in m.entries && m.entries[k] == v
    ensures m.Set(k, v) == m
  {
    assert m.entries[k := v] == m.entries;
  }

  /** Two records with one key: Dedup keeps the first, the union the second. */
  lemma UnionDiffersFromDedup(a: DeedEntry, b: DeedEntry)
    requires Key(a) == Key(b) && a != b
    ensures Dedup([a, b]) == [a]
    ensures UnionByKey([a, b]) == [b]
  {
    DedupOfCollision(a, b);
    UnionOfCollision(a, b);
  }

  lemma DedupOfCollision(a: DeedEntry, b: DeedEntry)
    requires Key(a) == Key(b)
    ensures Dedup([a, b]) == [a]
  {
    var init := [a, b][..1];
    assert init == [a];
    assert init[..0] == [];
    assert Dedup(init) == [a];
    assert Keys(init)[0] == Key(b);
  }

  lemma UnionOfCollision(a: DeedEntry, b: DeedEntry)
    requires Key(a) == Key(b)
    ensures UnionByKey([a, b]) == [b]
  {
    DedupOfCollision(a, b);
    UnionKeysFirstSeen([a, b]);
    UnionTakesLastValue([a, b]);
    var u := UnionByKey([a, b]);
    assert |u| == |Keys([a])| == 1;
    assert LastIndexOfKey([a, b], Key(u[0])) == 1;
  }
}
