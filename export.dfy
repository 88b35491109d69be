/** The rows the three exporters build from a list of todos: a PDF table
    body, spreadsheet records of named fields, and the rows of a word
    processor table, headed by the column names. */
module Export {
  import opened Todos

  /** The column headings shared by the three formats. */
  const Header: seq<string> := ["Row", "ID", "Title", "Status"]

  /** The status column: "Completed" or "Pending". */
  function Status(t: Todo): (r: string)
    ensures r == "Completed" <==> t.isCompleted
    ensures r == "Pending" <==> !t.isCompleted
  {
    if t.isCompleted then "Completed" else "Pending"
  }

  /** One exported row: its 1-based position in the list, then the item's
      id, title and status. */
  datatype ExportRow = ExportRow(number: nat, id: string, title: string, status: string)

  /** The rows of `s`, numbered from `offset + 1`. */
  function RowsFrom(s: seq<Todo>, offset: nat): (r: seq<ExportRow>)
    ensures |r| == |s|
    ensures forall k :: 0 <= k < |s| ==>
              r[k] == ExportRow(offset + k + 1, s[k].id, s[k].title, Status(s[k]))
  {
    if s == [] then []
    else [ExportRow(offset + 1, s[0].id, s[0].title, Status(s[0]))] + RowsFrom(s[1..], offset + 1)
  }

  /** A table cell: the PDF and spreadsheet rows carry the row number as a
      number, everything else as text. */
  datatype Cell = Num(n: nat) | Str(s: string)

  /** The PDF table body: one four-cell row per item, in list order. */
  function PdfBody(s: seq<Todo>): (r: seq<seq<Cell>>)
    ensures |r| == |s|
    ensures forall k :: 0 <= k < |s| ==>
              r[k] == [Num(k + 1), Str(s[k].id), Str(s[k].title), Str(Status(s[k]))]
  {
    var rows := RowsFrom(s, 0);
    seq(|rows|, k requires 0 <= k < |rows| =>
      [Num(rows[k].number), Str(rows[k].id), Str(rows[k].title), Str(rows[k].status)])
  }

  /** The spreadsheet records: one record per item, its fields in the order
      of the column headings, which is the order the sheet's columns take. */
  function ExcelSheet(s: seq<Todo>): (r: seq<seq<(string, Cell)>>)
    ensures |r| == |s|
    ensures forall k :: 0 <= k < |s| ==>
              r[k] == [("Row", Num(k + 1)), ("ID", Str(s[k].id)),
                       ("Title", Str(s[k].title)), ("Status", Str(Status(s[k])))]
    ensures forall k, j :: 0 <= k < |s| && 0 <= j < |Header| ==> |r[k]| == |Header| && r[k][j].0 == Header[j]
  {
    var rows := RowsFrom(s, 0);
    seq(|rows|, k requires 0 <= k < |rows| =>
      [("Row", Num(rows[k].number)), ("ID", Str(rows[k].id)),
       ("Title", Str(rows[k].title)), ("Status", Str(rows[k].status))])
  }

  /** The word processor table: the heading row, then one all-text row per
      item whose first cell is the row number in decimal. */
  function WordTable(s: seq<Todo>): (r: seq<seq<string>>)
    ensures |r| == |s| + 1 && r[0] == Header
    ensures forall k :: 0 <= k < |s| ==>
              r[k + 1] == [Decimal(k + 1), s[k].id, s[k].title, Status(s[k])]
  {
    var rows := RowsFrom(s, 0);
    [Header] + seq(|rows|, k requires 0 <= k < |rows| =>
      [Decimal(rows[k].number), rows[k].id, rows[k].title, rows[k].status])
  }

  // ---------------------------------------------------------------------
  // Decimal rendering of the row number.

  predicate IsDigit(c: char)
  {
    '0' <= c <= '9'
  }

  /** The decimal numeral of `n`: digits only, with no leading zero. */
  function Decimal(n: nat): (r: string)
    ensures |r| >= 1
    ensures forall i :: 0 <= i < |r| ==> IsDigit(r[i])
    ensures r[0] == '0' ==> n == 0 && r == "0"
  {
    var d := (48 + n % 10) as char;
    if n < 10 then [d] else Decimal(n / 10) + [d]
  }

  /** The number a string of digits denotes. */
  function DecimalValue(s: string): nat
    requires forall i :: 0 <= i < |s| ==> IsDigit(s[i])
  {
    if s == [] then 0
    else
      var c := s[|s| - 1];
      assert IsDigit(c);
      10 * DecimalValue(s[..|s| - 1]) + (c as int - '0' as int)
  }

  /** Reading the numeral back gives the number: the row cell says which row it is. */
  lemma {:induction false} DecimalRoundTrip(n: nat)
    ensures DecimalValue(Decimal(n)) == n
  {
    var r := Decimal(n);
    if n >= 10 {
      DecimalRoundTrip(n / 10);
      assert r[..|r| - 1] == Decimal(n / 10);
    }
  }

  /** Distinct row numbers render as distinct numerals. */
  lemma DecimalInjective(m: nat, n: nat)
    requires Decimal(m) == Decimal(n)
    ensures m == n
  {
    DecimalRoundTrip(m);
    DecimalRoundTrip(n);
  }
}
