/** The spreadsheet grid the upload path hands to the engine: a header row and
    data rows of loosely typed cells, as `sheet_to_json(..., { header: 1 })`
    returns them. Decoding the file itself is not part of this model. */
module Grid {
  import opened Strings

  /** One cell: text, a whole number, or nothing (a hole, `undefined` or `null`). */
  datatype Cell = Str(s: string) | Int(n: int) | Missing

  type Row = seq<Cell>

  /** JavaScript truthiness of a cell: a non-empty string or a non-zero number. */
  predicate CellTruthy(c: Cell)
  {
    match c
    case Str(s) => s != ""
    case Int(n) => n != 0
    case Missing => false
  }

  /** `cell.toString()` of a present cell. */
  function CellString(c: Cell): string
    requires !c.Missing?
  {
    match c
    case Str(s) => s
    case Int(n) => IntToString(n)
  }

  /** `row[i]`: a position outside the row reads as nothing. */
  function CellAt(row: Row, i: int): Cell
  {
    if 0 <= i < |row| then row[i] else Missing
  }

  /** `headers.indexOf(name)`: the first header that is exactly the text
      `name`, or -1. A numeric header never equals a name. */
  function IndexOf(headers: seq<Cell>, name: string): (r: int)
    ensures -1 <= r < |headers|
    ensures r >= 0 ==> headers[r] == Str(name) && forall j :: 0 <= j < r ==> headers[j] != Str(name)
    ensures r == -1 <==> forall j :: 0 <= j < |headers| ==> headers[j] != Str(name)
    decreases |headers|
  {
    if headers == [] then -1
    else if headers[0] == Str(name) then 0
    else
      var r := IndexOf(headers[1..], name);
      if r == -1 then -1 else r + 1
  }

  /** `i !== -1 && row[i] ? row[i].toString().trim() : ''`: the trimmed text of
      a truthy cell in column `i`, and "" for a missing column or a falsy cell.
      The result never starts or ends with white space. */
  function CellText(row: Row, i: int): (r: string)
    ensures r != "" ==> i != -1 && CellTruthy(CellAt(row, i))
    ensures r == "" || (!IsWhitespace(r[0]) && !IsWhitespace(r[|r| - 1]))
  {
    if i != -1 && CellTruthy(CellAt(row, i)) then Trim(CellString(CellAt(row, i)))
    else ""
  }

  /** A truthy numeric cell always reads as a non-empty value. */
  lemma NumberCellIsSearchValue(row: Row, i: int)
    requires i != -1 && CellAt(row, i).Int? && CellAt(row, i).n != 0
    ensures CellText(row, i) == IntToString(CellAt(row, i).n)
  {
    var s := IntToString(CellAt(row, i).n);
    assert TrimStart(s) == s;
    assert TrimEnd(s) == s;
  }

  /** A text cell of white space only reads as "", like an empty cell. */
  lemma BlankCellIsEmpty(row: Row, i: int)
    requires CellAt(row, i).Str?
    requires forall j :: 0 <= j < |CellAt(row, i).s| ==> IsWhitespace(CellAt(row, i).s[j])
    ensures CellText(row, i) == ""
  {
    TrimEmptyIff(CellAt(row, i).s);
  }

  /** What the upload reader produced: a decoded grid, a load event without
      data, an exception while decoding, or a reader error. */
  datatype ReadOutcome = Loaded(grid: seq<Row>) | NoPayload | DecodeFailed | ReaderFailed
}
