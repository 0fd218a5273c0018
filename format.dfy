/**
 * `format_dataframe`: a copy of a table in which every cell is replaced by
 * its string form cut to at most `maxCellLength` characters.
 */
module TableFormat {
  import ZipCode

  /**
   * A cell of the tables this is applied to: text, a float that holds a
   * whole number (the rounded price sums), or NaN.
   */
  datatype Cell = Text(s: string) | Whole(n: int) | Missing

  datatype Column = Column(name: string, cells: seq<Cell>)

  /** A table, column by column. */
  datatype Frame = Frame(columns: seq<Column>)

  function DigitChar(d: nat): (c: char)
    requires d < 10
    ensures '0' <= c <= '9' && c as int - '0' as int == d
  {
    (d + '0' as int) as char
  }

  /** The number a string of decimal digits denotes, most significant digit first. */
  function DecimalValue(s: string): nat
    requires ZipCode.AllDigits(s)
  {
    if s == [] then 0
    else 10 * DecimalValue(s[..|s| - 1]) + (s[|s| - 1] as int - '0' as int)
  }

  /** The decimal form of `n`: digits that denote `n`, with no leading zero. */
  function NatToString(n: nat): (s: string)
    ensures |s| >= 1 && ZipCode.AllDigits(s)
    ensures DecimalValue(s) == n
    ensures |s| == 1 || s[0] != '0'
  {
    if n < 10 then
      var s := [DigitChar(n)];
      assert s[..0] == [];
      s
    else
      var p := NatToString(n / 10);
      var s := p + [DigitChar(n % 10)];
      assert s[..|s| - 1] == p;
      s
  }

  /** `astype(str)` of one cell: Python prints a whole float as `<digits>.0` and NaN as `nan`. */
  function CellText(c: Cell): (t: string)
    ensures c.Text? ==> t == c.s
    ensures c.Missing? ==> t == "nan"
    ensures c.Whole? ==> |t| >= 3 && t[|t| - 2..] == ".0"
    ensures c.Whole? && c.n >= 0 ==> ZipCode.AllDigits(t[..|t| - 2]) && DecimalValue(t[..|t| - 2]) == c.n
    ensures c.Whole? && c.n < 0 ==> t[0] == '-' && ZipCode.AllDigits(t[1..|t| - 2]) && DecimalValue(t[1..|t| - 2]) == -c.n
    ensures c.Whole? && c.n >= 0 ==> |t| == 3 || t[0] != '0'
    ensures c.Whole? && c.n < 0 ==> |t| == 4 || t[1] != '0'
  {
    match c
    case Text(s) => s
    case Whole(n) => (if n < 0 then "-" + NatToString(-n) else NatToString(n)) + ".0"
    case Missing => "nan"
  }

  /** `str.slice(0, n)`: the first `n` characters, or all of them when there are fewer. */
  function Truncate(s: string, n: nat): (r: string)
    ensures |r| <= n && |r| <= |s|
    ensures r == s[..|r|]
    ensures |s| <= n ==> r == s
    ensures |s| > n ==> |r| == n
  {
    if |s| <= n then s else s[..n]
  }

  function FormatCell(c: Cell, n: nat): Cell {
    Text(Truncate(CellText(c), n))
  }

  function FormatColumn(col: Column, n: nat): Column {
    Column(col.name, seq(|col.cells|, i requires 0 <= i < |col.cells| => FormatCell(col.cells[i], n)))
  }

  /** Formatting an already formatted cell changes nothing. */
  lemma FormatCellIdempotent(c: Cell, n: nat)
    ensures FormatCell(FormatCell(c, n), n) == FormatCell(c, n)
  {
  }

  /** Copies the table, then overwrites one column at a time with its truncated string form. */
  method FormatFrame(frame: Frame, maxCellLength: nat) returns (formatted: Frame)
    ensures |formatted.columns| == |frame.columns|
    ensures forall j :: 0 <= j < |frame.columns| ==>
      && formatted.columns[j].name == frame.columns[j].name
      && |formatted.columns[j].cells| == |frame.columns[j].cells|
    ensures forall j, i :: 0 <= j < |frame.columns| && 0 <= i < |frame.columns[j].cells| ==>
      && formatted.columns[j].cells[i].Text?
      && |formatted.columns[j].cells[i].s| <= maxCellLength
      && |formatted.columns[j].cells[i].s| <= |CellText(frame.columns[j].cells[i])|
      && formatted.columns[j].cells[i].s == CellText(frame.columns[j].cells[i])[..|formatted.columns[j].cells[i].s|]
      && (|CellText(frame.columns[j].cells[i])| <= maxCellLength ==>
            formatted.columns[j].cells[i].s == CellText(frame.columns[j].cells[i]))
      && (|CellText(frame.columns[j].cells[i])| > maxCellLength ==>
            |formatted.columns[j].cells[i].s| == maxCellLength)
  {
    formatted := frame;
    var j := 0;
    while j < |formatted.columns|
      invariant 0 <= j <= |frame.columns| == |formatted.columns|
      invariant forall k :: 0 <= k < j ==> formatted.columns[k] == FormatColumn(frame.columns[k], maxCellLength)
      invariant forall k :: j <= k < |frame.columns| ==> formatted.columns[k] == frame.columns[k]
    {
      formatted := Frame(formatted.columns[j := FormatColumn(formatted.columns[j], maxCellLength)]);
      j := j + 1;
    }
  }
}
