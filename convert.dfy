/** The offline converter `scripts/convert-excel-to-data.js`: the map from a
    spreadsheet row (as `sheet_to_json` returns it, one property per header)
    to a `DeedEntry`, and `formatValue`, which writes one field as a
    TypeScript literal of the generated data file. The literal is read back
    by `ParseLiteral`, a model of how the TypeScript lexer reads the token
    `null` or a single-quoted string. */
module ConvertExcel {
  import opened Types
  import opened Strings
  import opened Grid
  import Search
  import Bulk

  /** One row of `sheet_to_json(worksheet)`: a blank cell has no property. */
  type SheetRow = map<string, Cell>

  const BuildingNoColumn: string := "Building No."
  const HajryColumn: string := "Hajry"
  const MazayaColumn: string := "Mazaya"
  const TitleDeedColumn: string := "Municipality / Title Deed (Plot)"
  const ReferenceDeedColumn: string := "Reference Deed"

  /** The placeholder that marks a row without a Mazaya value. */
  const NoMazaya: Cell := Str("-")

  /** `row[name]`. */
  function Column(row: SheetRow, name: string): Cell
  {
    if name in row then row[name] else Missing
  }

  /** `row[name] ? String(row[name]).trim() : null`: a falsy cell is `null`;
      any other cell is its trimmed text, which may be empty. */
  function ReadColumn(row: SheetRow, name: string): (r: Option<string>)
    ensures r.None? <==> !CellTruthy(Column(row, name))
    ensures r.Some? ==> r.value == "" || (!IsWhitespace(r.value[0]) && !IsWhitespace(r.value[|r.value| - 1]))
  {
    var c := Column(row, name);
    if CellTruthy(c) then Some(Trim(CellString(c))) else None
  }

  /** The Mazaya column: as `ReadColumn`, and also `null` when the raw cell,
      before trimming, is exactly the text "-". */
  function ReadMazaya(row: SheetRow): (r: Option<string>)
    ensures r.None? <==> !CellTruthy(Column(row, MazayaColumn)) || Column(row, MazayaColumn) == NoMazaya
    ensures r.Some? ==> r == ReadColumn(row, MazayaColumn)
  {
    var c := Column(row, MazayaColumn);
    if CellTruthy(c) && c != NoMazaya then Some(Trim(CellString(c))) else None
  }

  /** The callback of `jsonData.map`. The Hajry column goes to `mazaya`, the
      Mazaya column to `title`, and the title-deed column to both
      `hajryPlotNumber` and `municipalityTitleDeed`. */
  function ToDeedEntry(row: SheetRow): (e: DeedEntry)
    ensures e.hajryPlotNumber == e.municipalityTitleDeed == ReadColumn(row, TitleDeedColumn)
    ensures e.mazaya == ReadColumn(row, HajryColumn) && e.title == ReadMazaya(row)
    ensures e.buildingNo == ReadColumn(row, BuildingNoColumn) && e.referenceDeed == ReadColumn(row, ReferenceDeedColumn)
  {
    var municipalityTitleDeed := ReadColumn(row, TitleDeedColumn);
    DeedEntry(
      municipalityTitleDeed := municipalityTitleDeed,
      hajryPlotNumber := municipalityTitleDeed,
      mazaya := ReadColumn(row, HajryColumn),
      title := ReadMazaya(row),
      referenceDeed := ReadColumn(row, ReferenceDeedColumn),
      buildingNo := ReadColumn(row, BuildingNoColumn))
  }

  /** `jsonData.map(...)`: one record per row, in row order. */
  function ConvertRows(rows: seq<SheetRow>): (es: seq<DeedEntry>)
    ensures |es| == |rows|
    ensures forall i :: 0 <= i < |rows| ==> es[i] == ToDeedEntry(rows[i])
  {
    seq(|rows|, i requires 0 <= i < |rows| => ToDeedEntry(rows[i]))
  }

  /** A field value with no white space at either end. */
  predicate EdgeTrimmed(v: Option<string>)
  {
    v.Some? ==> v.value == "" || (!IsWhitespace(v.value[0]) && !IsWhitespace(v.value[|v.value| - 1]))
  }

  /** A converted record's field is `null` exactly when its cell is falsy;
      `title` is `null` also for the "-" placeholder. */
  lemma ConvertedNulls(row: SheetRow)
    ensures var e := ToDeedEntry(row);
      && (e.municipalityTitleDeed.None? <==> !CellTruthy(Column(row, TitleDeedColumn)))
      && (e.hajryPlotNumber.None? <==> !CellTruthy(Column(row, TitleDeedColumn)))
      && (e.mazaya.None? <==> !CellTruthy(Column(row, HajryColumn)))
      && (e.title.None? <==> !CellTruthy(Column(row, MazayaColumn)) || Column(row, MazayaColumn) == NoMazaya)
      && (e.referenceDeed.None? <==> !CellTruthy(Column(row, ReferenceDeedColumn)))
      && (e.buildingNo.None? <==> !CellTruthy(Column(row, BuildingNoColumn)))
  {
  }

  /** Every present field of a converted record is trimmed text. */
  lemma ConvertedFieldsTrimmed(row: SheetRow)
    ensures forall f :: EdgeTrimmed(FieldValue(ToDeedEntry(row), f))
  {
    var e := ToDeedEntry(row);
    forall f
      ensures EdgeTrimmed(FieldValue(e, f))
    {
      match f
      case MunicipalityTitleDeed => ReadColumnTrimmed(row, TitleDeedColumn);
      case HajryPlotNumber => ReadColumnTrimmed(row, TitleDeedColumn);
      case Mazaya => ReadColumnTrimmed(row, HajryColumn);
      case Title => ReadColumnTrimmed(row, MazayaColumn);
      case ReferenceDeed => ReadColumnTrimmed(row, ReferenceDeedColumn);
      case BuildingNo => ReadColumnTrimmed(row, BuildingNoColumn);
    }
  }

  lemma ReadColumnTrimmed(row: SheetRow, name: string)
    ensures EdgeTrimmed(ReadColumn(row, name))
  {
  }

  /** Only the five named columns matter: rows that agree on them convert to
      the same record, whatever else they hold. */
  lemma ConvertReadsFiveColumns(row: SheetRow, row': SheetRow)
    requires Column(row, TitleDeedColumn) == Column(row', TitleDeedColumn)
    requires Column(row, HajryColumn) == Column(row', HajryColumn)
    requires Column(row, MazayaColumn) == Column(row', MazayaColumn)
    requires Column(row, ReferenceDeedColumn) == Column(row', ReferenceDeedColumn)
    requires Column(row, BuildingNoColumn) == Column(row', BuildingNoColumn)
    ensures ToDeedEntry(row) == ToDeedEntry(row')
  {
  }

  /** `map` works row by row: converting two sheets one after the other gives
      the two record lists one after the other. */
  lemma ConvertRowsAppend(a: seq<SheetRow>, b: seq<SheetRow>)
    ensures ConvertRows(a + b) == ConvertRows(a) + ConvertRows(b)
    ensures ConvertRows([]) == []
  {
    var ab := a + b;
    forall i | 0 <= i < |ab|
      ensures ConvertRows(ab)[i] == (ConvertRows(a) + ConvertRows(b))[i]
    {
      if i < |a| { assert ab[i] == a[i]; } else { assert ab[i] == b[i - |a|]; }
    }
  }

  /** The plot number and the title deed of every generated record agree. */
  lemma PlotMirrorsTitleDeed(rows: seq<SheetRow>)
    ensures forall e :: e in ConvertRows(rows) ==> e.hajryPlotNumber == e.municipalityTitleDeed
  {
  }

  /** A text cell of white space only becomes "", not `null`. */
  lemma BlankCellBecomesEmpty(row: SheetRow, name: string)
    requires Column(row, name).Str? && Column(row, name).s != ""
    requires forall j :: 0 <= j < |Column(row, name).s| ==> IsWhitespace(Column(row, name).s[j])
    ensures ReadColumn(row, name) == Some("")
  {
    TrimEmptyIff(Column(row, name).s);
  }

  /** The placeholder test is made before trimming: " - " is kept as "-". */
  lemma PaddedDashIsKept(row: SheetRow)
    requires Column(row, MazayaColumn) == Str(" - ")
    ensures ReadMazaya(row) == Some("-")
  {
    var c := Column(row, MazayaColumn);
    assert CellTruthy(c) && c != NoMazaya;
    assert !IsWhitespace('-');
    assert " - "[0] == ' ' && " - "[1..] == "- ";
    assert TrimStart("- ") == "- ";
    assert TrimStart(" - ") == "- ";
    assert "- "[1] == ' ' && "- "[..1] == "-";
    assert TrimEnd("-") == "-";
    assert TrimEnd("- ") == "-";
  }

  /** A record converted from a row whose Hajry cell reads as `v` is found
      by the current application's `hajrySearch`, by the bulk Hajry-only
      rule with `v`, and by the (unreachable) `excelFile` branch: all read
      `mazaya`, where the converter put the Hajry column. */
  lemma HajryCellIsFound(row: SheetRow, v: string)
    requires ReadColumn(row, HajryColumn) == Some(v) && v != ""
    ensures Search.Matches(HajrySearch, ToDeedEntry(row), v, "")
    ensures Bulk.RuleMatches(Bulk.ByHajry(v), ToDeedEntry(row))
    ensures Search.Matches(ExcelFile, ToDeedEntry(row), v, "")
  {
  }

  // ------------------------------------------------------------ literals

  /** `value.replace(/'/g, "\\'")`: a backslash before every single quote. */
  function EscapeQuotes(s: string): (r: string)
    ensures |r| >= |s|
    decreases |s|
  {
    if s == [] then []
    else (if s[0] == '\'' then "\\'" else [s[0]]) + EscapeQuotes(s[1..])
  }

  /** `formatValue`: `null`, or the value between single quotes with its
      quotes escaped and nothing else. */
  function FormatValue(v: Option<string>): (r: string)
    ensures v.None? <==> r == "null"
    ensures v.Some? ==> |r| >= 2 && r[0] == '\'' && r[|r| - 1] == '\''
  {
    match v
    case None => "null"
    case Some(s) =>
      var r := "'" + EscapeQuotes(s) + "'";
      assert r[0] == '\'' != "null"[0];
      r
  }

  /** The character a backslash escape stands for in a string literal. The
      digit, `x` and `u` escapes and line continuations are not modelled;
      every other character stands for itself after a backslash. */
  function Unescape(c: char): (r: Option<char>)
    ensures r.Some? && c != 'n' && c != 't' && c != 'r' && c != 'b' && c != 'f' && c != 'v' ==> r.value == c
  {
    if c == 'n' then Some('\n')
    else if c == 't' then Some('\t')
    else if c == 'r' then Some('\r')
    else if c == 'b' then Some('\U{08}')
    else if c == 'f' then Some('\U{0C}')
    else if c == 'v' then Some('\U{0B}')
    else if '0' <= c <= '9' || c == 'x' || c == 'u' || c == '\n' || c == '\r' || c == '\U{2028}' || c == '\U{2029}' then None
    else Some(c)
  }

  /** The body of a single-quoted literal after its opening quote: the text
      up to an unescaped quote that must end the token. `None` is a syntax
      error: no closing quote, text after it, a raw line break, or an escape
      outside the modelled ones. */
  function ParseQuoted(t: string): (r: Option<string>)
    ensures r.Some? ==> |r.value| < |t|
    decreases |t|
  {
    if t == [] then None
    else if t[0] == '\'' then (if |t| == 1 then Some("") else None)
    else if t[0] == '\n' || t[0] == '\r' then None
    else if t[0] == '\\' then
      if |t| < 2 then None
      else match (Unescape(t[1]), ParseQuoted(t[2..]))
        case (Some(c), Some(rest)) => Some([c] + rest)
        case _ => None
    else match ParseQuoted(t[1..])
      case Some(rest) => Some([t[0]] + rest)
      case None => None
  }

  /** A field of the generated file as TypeScript reads it: `null`, or the
      value of a single-quoted string; `None` when it does not parse. */
  function ParseLiteral(t: string): Option<Option<string>>
  {
    if t == "null" then Some(None)
    else if t != [] && t[0] == '\'' then
      match ParseQuoted(t[1..])
      case Some(s) => Some(Some(s))
      case None => None
    else None
  }

  /** A value without backslashes and line breaks is read back as written. */
  lemma {:induction false} EscapeQuotesReadBack(s: string)
    requires forall j :: 0 <= j < |s| ==> s[j] != '\\' && s[j] != '\n' && s[j] != '\r'
    ensures ParseQuoted(EscapeQuotes(s) + "'") == Some(s)
    decreases |s|
  {
    if s != [] {
      EscapeQuotesReadBack(s[1..]);
      var rest := EscapeQuotes(s[1..]) + "'";
      if s[0] == '\'' {
        assert EscapeQuotes(s) + "'" == ['\\', '\''] + rest;
        assert (['\\', '\''] + rest)[2..] == rest;
      } else {
        assert EscapeQuotes(s) + "'" == [s[0]] + rest;
        assert ([s[0]] + rest)[1..] == rest;
      }
      assert s == [s[0]] + s[1..];
    }
  }

  /** As written, `formatValue` round-trips `null` and every value without a
      backslash or a line break. */
  lemma FormatValueReadBack(v: Option<string>)
    requires v.Some? ==> forall j :: 0 <= j < |v.value| ==> v.value[j] != '\\' && v.value[j] != '\n' && v.value[j] != '\r'
    ensures ParseLiteral(FormatValue(v)) == Some(v)
  {
    if v.Some? {
      EscapeQuotesReadBack(v.value);
      assert FormatValue(v)[1..] == EscapeQuotes(v.value) + "'";
    }
  }

  /** As written, a backslash in a cell starts an escape sequence in the
      generated file: the two characters backslash and `n` come back as a
      line break. */
  lemma FormatValueMisreadsEscape()
    ensures ParseLiteral(FormatValue(Some("a\\nb"))) == Some(Some("a\nb"))
  {
    assert EscapeQuotes("a\\nb") == "a\\nb" by {
      assert EscapeQuotes("b") == "b";
      assert EscapeQuotes("nb") == "nb";
      assert EscapeQuotes("\\nb") == "\\nb";
    }
    EscapeNReadsAsLineBreak();
    assert FormatValue(Some("a\\nb"))[1..] == "a\\nb'";
  }

  /** The body of the literal `formatValue` writes for that cell. */
  lemma EscapeNReadsAsLineBreak()
    ensures ParseQuoted("a\\nb'") == Some("a\nb")
  {
    assert ParseQuoted("'") == Some("");
    assert ['b'] + "" == "b";
    assert ParseQuoted("b'") == Some("b");
    assert "\\nb'"[0] == '\\' && "\\nb'"[1] == 'n' && Unescape('n') == Some('\n');
    assert "\\nb'"[2..] == "b'";
    assert ['\n'] + "b" == "\nb";
    assert ParseQuoted("\\nb'") == Some("\nb");
    assert ['a'] + "\nb" == "a\nb";
    assert "a\\nb'"[1..] == "\\nb'";
  }

  /** A value ending in a backslash turns the closing quote into an escaped
      one, so the generated file does not parse. */
  lemma FormatValueBreaksOnTrailingBackslash()
    ensures ParseLiteral(FormatValue(Some("x\\"))) == None
  {
    assert EscapeQuotes("x\\") == "x\\" by {
      assert EscapeQuotes("\\") == "\\";
    }
    assert ParseQuoted("x\\'") == None by {
      assert ParseQuoted("") == None;
      assert "\\'"[2..] == "";
      assert ParseQuoted("\\'") == None;
      assert "x\\'"[1..] == "\\'";
    }
    assert FormatValue(Some("x\\"))[1..] == "x\\'";
  }

  /** A line break inside a value is written raw into the single-quoted
      literal, which does not parse either. */
  lemma FormatValueBreaksOnLineBreak()
    ensures ParseLiteral(FormatValue(Some("a\nb"))) == None
  {
    assert EscapeQuotes("a\nb") == "a\nb" by {
      assert EscapeQuotes("b") == "b";
      assert EscapeQuotes("\nb") == "\nb";
    }
    assert ParseQuoted("a\nb'") == None by {
      assert ParseQuoted("\nb'") == None;
      assert "a\nb'"[1..] == "\nb'";
    }
    assert FormatValue(Some("a\nb"))[1..] == "a\nb'";
  }

  /** The escaping `formatValue` needs: backslashes and line breaks as well
      as quotes. */
  function EscapeLiteral(s: string): (r: string)
    ensures |r| >= |s|
    ensures forall j :: 0 <= j < |r| ==> r[j] != '\n' && r[j] != '\r'
    decreases |s|
  {
    if s == [] then []
    else
      (if s[0] == '\\' then "\\\\"
       else if s[0] == '\'' then "\\'"
       else if s[0] == '\n' then "\\n"
       else if s[0] == '\r' then "\\r"
       else [s[0]]) + EscapeLiteral(s[1..])
  }

  /** `formatValue` with that escaping. */
  function FormatValueEscaped(v: Option<string>): (r: string)
    ensures v.None? <==> r == "null"
  {
    match v
    case None => "null"
    case Some(s) =>
      var r := "'" + EscapeLiteral(s) + "'";
      assert r[0] == '\'' != "null"[0];
      r
  }

  /** Every value is read back as written. */
  lemma {:induction false} EscapeLiteralReadBack(s: string)
    ensures ParseQuoted(EscapeLiteral(s) + "'") == Some(s)
    decreases |s|
  {
    if s != [] {
      EscapeLiteralReadBack(s[1..]);
      var rest := EscapeLiteral(s[1..]) + "'";
      var c := s[0];
      if c == '\\' || c == '\'' || c == '\n' || c == '\r' {
        var code := if c == '\\' then '\\' else if c == '\'' then '\'' else if c == '\n' then 'n' else 'r';
        assert EscapeLiteral(s) + "'" == ['\\', code] + rest;
        assert (['\\', code] + rest)[2..] == rest;
      } else {
        assert EscapeLiteral(s) + "'" == [c] + rest;
        assert ([c] + rest)[1..] == rest;
      }
      assert s == [c] + s[1..];
    }
  }

  /** With that escaping the generated file holds every record exactly. */
  lemma FormatValueEscapedReadBack(v: Option<string>)
    ensures ParseLiteral(FormatValueEscaped(v)) == Some(v)
  {
    if v.Some? {
      EscapeLiteralReadBack(v.value);
      assert FormatValueEscaped(v)[1..] == EscapeLiteral(v.value) + "'";
    }
  }

  /** On the values it handles, the escaping `formatValue` writes the same
      text as the original one. */
  lemma EscapedAgreesWithoutBackslashes(s: string)
    requires forall j :: 0 <= j < |s| ==> s[j] != '\\' && s[j] != '\n' && s[j] != '\r'
    ensures FormatValueEscaped(Some(s)) == FormatValue(Some(s))
  {
    assert EscapeLiteral(s) == EscapeQuotes(s) by {
      EscapeSameWithoutBackslashes(s);
    }
  }

  lemma {:induction false} EscapeSameWithoutBackslashes(s: string)
    requires forall j :: 0 <= j < |s| ==> s[j] != '\\' && s[j] != '\n' && s[j] != '\r'
    ensures EscapeLiteral(s) == EscapeQuotes(s)
    decreases |s|
  {
    if s != [] {
      EscapeSameWithoutBackslashes(s[1..]);
    }
  }
}
