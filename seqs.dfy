/** `Array.prototype.filter` and the vocabulary for saying that one sequence
    is an order-preserving selection from another. */
module Seqs {

  /** `r` is made of the elements of `s` at the strictly increasing positions `idx`. */
  ghost predicate Picks<T>(r: seq<T>, s: seq<T>, idx: seq<int>)
  {
    && |idx| == |r|
    && (forall k :: 0 <= k < |idx| ==> 0 <= idx[k] < |s| && r[k] == s[idx[k]])
    && (forall k, l :: 0 <= k < l < |idx| ==> idx[k] < idx[l])
  }

  /** `s.filter(p)`, one element at a time from the front. */
  function Filter<T(!new)>(s: seq<T>, p: T -> bool): (r: seq<T>)
    ensures |r| <= |s|
    decreases |s|
  {
    if s == [] then []
    else Filter(s[..|s| - 1], p) + (if p(s[|s| - 1]) then [s[|s| - 1]] else [])
  }

  /** The positions of `s` whose element satisfies `p`, in increasing order. */
  function FilterIndices<T(!new)>(s: seq<T>, p: T -> bool): seq<int>
    decreases |s|
  {
    if s == [] then []
    else FilterIndices(s[..|s| - 1], p) + (if p(s[|s| - 1]) then [|s| - 1] else [])
  }

  /** `filter` keeps exactly the elements that satisfy `p`, in their order. */
  lemma {:induction false} FilterSelectsExactly<T(!new)>(s: seq<T>, p: T -> bool)
    ensures Picks(Filter(s, p), s, FilterIndices(s, p))
    ensures forall i :: 0 <= i < |s| ==> (i in FilterIndices(s, p) <==> p(s[i]))
    decreases |s|
  {
    if s != [] {
      var n := |s| - 1;
      var init := s[..n];
      FilterSelectsExactly(init, p);
      var r0, idx0 := Filter(init, p), FilterIndices(init, p);
      var r, idx := Filter(s, p), FilterIndices(s, p);
      assert r == r0 + if p(s[n]) then [s[n]] else [];
      assert idx == idx0 + if p(s[n]) then [n] else [];
      PicksExtend(r0, s, idx0, p(s[n]));
      forall i | 0 <= i < |s|
        ensures i in idx <==> p(s[i])
      {
        if i < n {
          assert init[i] == s[i];
          assert i in idx <==> i in idx0;
        } else {
          assert n !in idx0;
        }
      }
    }
  }

  /** A non-empty sequence, and its concatenation after another, end in its last element. */
  lemma SplitLast<T>(a: seq<T>, b: seq<T>)
    requires b != []
    ensures b == b[..|b| - 1] + [b[|b| - 1]]
    ensures a + b == (a + b[..|b| - 1]) + [b[|b| - 1]]
  {
  }

  /** A selection from all but the last element, with the last one kept or not. */
  lemma PicksExtend<T>(r: seq<T>, s: seq<T>, idx: seq<int>, keep: bool)
    requires s != [] && Picks(r, s[..|s| - 1], idx)
    ensures Picks(r + (if keep then [s[|s| - 1]] else []), s, idx + (if keep then [|s| - 1] else []))
  {
    var n := |s| - 1;
    var r', idx' := r + (if keep then [s[n]] else []), idx + (if keep then [n] else []);
    forall k | 0 <= k < |idx'|
      ensures 0 <= idx'[k] < |s| && r'[k] == s[idx'[k]]
    {
      if k < |idx| {
        assert r'[k] == r[k] && idx'[k] == idx[k] && s[..n][idx[k]] == s[idx[k]];
      }
    }
    forall k, l | 0 <= k < l < |idx'|
      ensures idx'[k] < idx'[l]
    {
      if l < |idx| {
        assert idx'[k] == idx[k] && idx'[l] == idx[l];
      } else {
        assert idx'[k] == idx[k] < n;
      }
    }
  }

  /** `filter` returns the elements of `s` that satisfy `p`, and all of them. */
  lemma {:induction false} FilterMembers<T(!new)>(s: seq<T>, p: T -> bool)
    ensures forall x :: x in Filter(s, p) <==> x in s && p(x)
    decreases |s|
  {
    if s != [] {
      FilterMembers(s[..|s| - 1], p);
      assert s == s[..|s| - 1] + [s[|s| - 1]];
    }
  }

  /** Filtering with two predicates that agree on `s` gives the same result. */
  lemma {:induction false} FilterCongruent<T(!new)>(s: seq<T>, p: T -> bool, q: T -> bool)
    requires forall x :: x in s ==> p(x) == q(x)
    ensures Filter(s, p) == Filter(s, q)
    decreases |s|
  {
    if s != [] {
      FilterCongruent(s[..|s| - 1], p, q);
      assert s[|s| - 1] in s;
    }
  }

  /** A filter that rejects every element of `s` returns nothing. */
  lemma {:induction false} FilterNone<T(!new)>(s: seq<T>, p: T -> bool)
    requires forall i :: 0 <= i < |s| ==> !p(s[i])
    ensures Filter(s, p) == []
    decreases |s|
  {
    if s != [] {
      FilterNone(s[..|s| - 1], p);
    }
  }

  /** Concatenation of a list of lists, the order of `forEach` over each in turn. */
  function Flatten<T(!new)>(ss: seq<seq<T>>): (r: seq<T>)
    ensures forall x :: x in r <==> exists i :: 0 <= i < |ss| && x in ss[i]
    decreases |ss|
  {
    if ss == [] then []
    else
      var r := Flatten(ss[..|ss| - 1]);
      assert forall i :: 0 <= i < |ss| - 1 ==> ss[..|ss| - 1][i] == ss[i];
      r + ss[|ss| - 1]
  }
}
