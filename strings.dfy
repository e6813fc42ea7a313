/** The few JavaScript string built-ins the engine relies on, restricted to
    what the model needs: ASCII `toLowerCase`, `includes`, `trim`, `join`
    and the decimal rendering of an integer. */
module Strings {

  /** `toLowerCase` on one character; only the ASCII letters are folded. */
  function LowerChar(c: char): char
  {
    if 'A' <= c <= 'Z' then (c as int + 32) as char else c
  }

  function Lower(s: string): (r: string)
    ensures |r| == |s|
    ensures forall i :: 0 <= i < |s| ==> r[i] == LowerChar(s[i])
  {
    seq(|s|, i requires 0 <= i < |s| => LowerChar(s[i]))
  }

  /** Lower-casing leaves no ASCII capital behind, maps each capital to its
      small letter, leaves every other character alone, is idempotent and
      distributes over concatenation. */
  lemma LowerFolds(s: string, t: string)
    ensures forall i :: 0 <= i < |s| ==> !('A' <= Lower(s)[i] <= 'Z')
    ensures forall i :: 0 <= i < |s| && 'A' <= s[i] <= 'Z' ==> Lower(s)[i] as int == s[i] as int + 32
    ensures forall i :: 0 <= i < |s| && !('A' <= s[i] <= 'Z') ==> Lower(s)[i] == s[i]
    ensures Lower(Lower(s)) == Lower(s)
    ensures Lower(s + t) == Lower(s) + Lower(t)
  {
  }

  /** `hay.includes(needle)`: some window of `hay` is exactly `needle`.
      The empty needle is contained in every string. */
  predicate Contains(hay: string, needle: string)
  {
    exists i | 0 <= i <= |hay| - |needle| :: OccursAt(needle, hay, i)
  }

  /** `needle` is the window of `hay` that starts at position `i`. */
  predicate OccursAt(needle: string, hay: string, i: int)
  {
    0 <= i && i + |needle| <= |hay| && hay[i..i + |needle|] == needle
  }

  lemma ContainsItself(s: string)
    ensures Contains(s, s)
  {
    assert OccursAt(s, s, 0);
  }

  /** The white-space and line-terminator characters `trim` removes
      (the Unicode space-separator category beyond U+00A0 is not modelled). */
  predicate IsWhitespace(c: char)
  {
    c == ' ' || c == '\t' || c == '\n' || c == '\r' || c == '\U{0B}' || c == '\U{0C}'
    || c == '\U{A0}' || c == '\U{FEFF}' || c == '\U{2028}' || c == '\U{2029}'
  }

  function TrimStart(s: string): (r: string)
    ensures |r| <= |s| && r == s[|s| - |r|..]
    ensures forall j :: 0 <= j < |s| - |r| ==> IsWhitespace(s[j])
    ensures r == [] || !IsWhitespace(r[0])
    decreases |s|
  {
    if s != [] && IsWhitespace(s[0]) then TrimStart(s[1..]) else s
  }

  function TrimEnd(s: string): (r: string)
    ensures |r| <= |s| && r == s[..|r|]
    ensures forall j :: |r| <= j < |s| ==> IsWhitespace(s[j])
    ensures r == [] || !IsWhitespace(r[|r| - 1])
    decreases |s|
  {
    if s != [] && IsWhitespace(s[|s| - 1]) then TrimEnd(s[..|s| - 1]) else s
  }

  /** `s.trim()`: the longest slice of `s` that neither starts nor ends with white space. */
  function Trim(s: string): (r: string)
    ensures r == "" || (!IsWhitespace(r[0]) && !IsWhitespace(r[|r| - 1]))
  {
    var t := TrimStart(s);
    assert TrimEnd(t) != [] ==> TrimEnd(t)[0] == t[0];
    TrimEnd(t)
  }

  /** A string trims to "" exactly when it consists of white space only. */
  lemma TrimEmptyIff(s: string)
    ensures Trim(s) == "" <==> forall j :: 0 <= j < |s| ==> IsWhitespace(s[j])
  {
    if forall j :: 0 <= j < |s| ==> IsWhitespace(s[j]) {
      BlankTrimsEmpty(s);
    } else {
      var j :| 0 <= j < |s| && !IsWhitespace(s[j]);
      NonBlankTrimsNonEmpty(s, j);
    }
  }

  lemma BlankTrimsEmpty(s: string)
    requires forall j :: 0 <= j < |s| ==> IsWhitespace(s[j])
    ensures Trim(s) == ""
  {
    TrimStartKeepsTail(s);
  }

  lemma NonBlankTrimsNonEmpty(s: string, j: int)
    requires 0 <= j < |s| && !IsWhitespace(s[j])
    ensures Trim(s) != ""
  {
    var t := TrimStart(s);
    var k := j - (|s| - |t|);
    assert 0 <= k < |t| && t[k] == s[j];
    assert IsWhitespace(t[k]) || TrimEnd(t) != "";
  }

  /** `TrimStart` keeps a suffix of its input, position by position. */
  lemma TrimStartKeepsTail(s: string)
    ensures forall k :: 0 <= k < |TrimStart(s)| ==> TrimStart(s)[k] == s[|s| - |TrimStart(s)| + k]
  {
  }

  /** `parts.join([sep])`. */
  function Join(parts: seq<string>, sep: char): string
    decreases |parts|
  {
    if |parts| == 0 then ""
    else if |parts| == 1 then parts[0]
    else parts[0] + [sep] + Join(parts[1..], sep)
  }

  /** Splitting at the first separator is unambiguous when the head holds none. */
  lemma SplitAtSeparator(x: string, y: string, x': string, y': string, sep: char)
    requires sep !in x && sep !in x'
    requires x + [sep] + y == x' + [sep] + y'
    ensures x == x' && y == y'
  {
    var w, w' := x + [sep] + y, x' + [sep] + y';
    assert w[|x|] == sep && w'[|x'|] == sep;
    assert |x| == |x'|;
    assert x == w[..|x|] && x' == w'[..|x'|];
    assert y == w[|x| + 1..] && y' == w'[|x'| + 1..];
  }

  /** `join` is injective on equally long lists whose parts avoid the separator. */
  lemma {:induction false} JoinInjective(a: seq<string>, b: seq<string>, sep: char)
    requires |a| == |b|
    requires forall i :: 0 <= i < |a| ==> sep !in a[i] && sep !in b[i]
    requires Join(a, sep) == Join(b, sep)
    ensures a == b
    decreases |a|
  {
    if |a| > 1 {
      SplitAtSeparator(a[0], Join(a[1..], sep), b[0], Join(b[1..], sep), sep);
      JoinInjective(a[1..], b[1..], sep);
      assert a == [a[0]] + a[1..] && b == [b[0]] + b[1..];
    }
  }

  function DigitChar(d: nat): char
    requires d < 10
  {
    ('0' as int + d) as char
  }

  function NatToString(n: nat): (r: string)
    ensures |r| > 0
    ensures forall j :: 0 <= j < |r| ==> '0' <= r[j] <= '9'
  {
    if n < 10 then [DigitChar(n)] else NatToString(n / 10) + [DigitChar(n % 10)]
  }

  /** `String(n)` for an integer `n`. */
  function IntToString(n: int): (r: string)
    ensures |r| > 0
    ensures forall j :: 0 <= j < |r| ==> !IsWhitespace(r[j])
  {
    if n < 0 then "-" + NatToString(-n) else NatToString(n)
  }
}
