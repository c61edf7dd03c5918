/** Row parser (`parseRows`, dashboard.js): loosely typed spreadsheet rows become
    transaction records, with an optional header row dropped. */
module Rows {
  import opened Wrappers
  import opened Text

  /** One spreadsheet cell as it arrives in the JSON payload. `Absent` is `undefined`
      (what reading past the end of a short row yields); `Null` is a JSON null. */
  datatype Cell = Str(s: string) | Num(n: real) | Bool(b: bool) | Null | Absent

  /** A row is positional: [Timestamp, Tipo, Categoria, Monto, Descripcion, Fecha]. */
  type Row = seq<Cell>

  /** `row[i]`, which is `undefined` past the end of the row. */
  function CellAt(row: Row, i: nat): Cell
  {
    if i < |row| then row[i] else Absent
  }

  /** JavaScript truthiness of a cell (NaN cannot arise: numbers are reals). */
  predicate Truthy(c: Cell)
  {
    match c
    case Str(s) => s != ""
    case Num(n) => n != 0.0
    case Bool(b) => b
    case Null => false
    case Absent => false
  }

  /** `parseFloat` applied to a string; `None` stands for NaN. It is a parameter of
      the model, not something the model computes. */
  type FloatParser = string -> Option<real>

  /** `parseFloat(c)`: a number reads back as itself, a string goes to the parser, and
      `true`, `null` and `undefined`, whose text is not numeric, give NaN. */
  function ParseFloat(c: Cell, parse: FloatParser): Option<real>
  {
    match c
    case Num(n) => Some(n)
    case Str(s) => parse(s)
    case _ => None
  }

  /** `parseFloat(c) || 0`: the amount is always a number; NaN degrades to 0. */
  function Amount(c: Cell, parse: FloatParser): (r: real)
    ensures c.Num? ==> r == c.n
    ensures c.Str? && parse(c.s).Some? ==> r == parse(c.s).value
    ensures c.Str? && parse(c.s).None? ==> r == 0.0
    ensures c.Bool? || c.Null? || c.Absent? ==> r == 0.0
  {
    match ParseFloat(c, parse)
    case Some(v) => v
    case None => 0.0
  }

  datatype Transaction = Transaction(
    timestamp: Cell,
    tipo: Cell,
    categoria: Cell,
    monto: real,
    descripcion: Cell,
    fecha: Cell)

  const HeaderMarker: string := "timestamp"

  /** The first cell is text whose lower-case form contains "timestamp". */
  predicate IsHeaderRow(row: Row)
    ensures IsHeaderRow(row) ==> CellAt(row, 0).Str? && |CellAt(row, 0).s| >= |HeaderMarker|
  {
    var first := CellAt(row, 0);
    first.Str? && (IncludesLength(Lower(first.s), HeaderMarker); Includes(Lower(first.s), HeaderMarker))
  }

  lemma HeaderRowMeaning(row: Row)
    ensures IsHeaderRow(row) <==>
      CellAt(row, 0).Str? && exists i :: OccursAt(Lower(CellAt(row, 0).s), HeaderMarker, i)
  {
    if CellAt(row, 0).Str? {
      IncludesMeaning(Lower(CellAt(row, 0).s), HeaderMarker);
    }
  }

  /** Case does not matter: any capitalisation of "Timestamp" marks a header. */
  lemma HeaderIgnoresCase(row: Row, s: string, t: string)
    requires CellAt(row, 0) == Str(s) && Lower(s) == Lower(t) && |row| > 0
    ensures IsHeaderRow(row) <==> IsHeaderRow([Str(t)] + row[1..])
  {
    assert CellAt([Str(t)] + row[1..], 0) == Str(t);
  }

  /** The record built from one row, field by field from its fixed column. */
  function ToTransaction(row: Row, parse: FloatParser): Transaction
  {
    Transaction(CellAt(row, 0), CellAt(row, 1), CellAt(row, 2),
                Amount(CellAt(row, 3), parse), CellAt(row, 4), CellAt(row, 5))
  }

  /** Number of leading rows dropped as a header (0 or 1). */
  function HeaderCount(rows: seq<Row>): nat
  {
    if rows != [] && IsHeaderRow(rows[0]) then 1 else 0
  }

  /** `parseRows(rows)`; `None` is a null or undefined argument. */
  function ParseRows(rows: Option<seq<Row>>, parse: FloatParser): (r: seq<Transaction>)
    ensures rows.None? || rows == Some([]) ==> r == []
    ensures rows.Some? ==>
      var d := HeaderCount(rows.value);
      && |r| == |rows.value| - d
      && forall i :: 0 <= i < |r| ==>
        && r[i].timestamp == CellAt(rows.value[i + d], 0)
        && r[i].tipo == CellAt(rows.value[i + d], 1)
        && r[i].categoria == CellAt(rows.value[i + d], 2)
        && r[i].monto == Amount(CellAt(rows.value[i + d], 3), parse)
        && r[i].descripcion == CellAt(rows.value[i + d], 4)
        && r[i].fecha == CellAt(rows.value[i + d], 5)
  {
    match rows
    case None => []
    case Some(rs) =>
      if rs == [] then []
      else
        var dataRows := if IsHeaderRow(rs[0]) then rs[1..] else rs;
        seq(|dataRows|, i requires 0 <= i < |dataRows| => ToTransaction(dataRows[i], parse))
  }

  /** Exactly one row disappears when the first row is a header, none otherwise. */
  lemma HeaderDroppedExactly(rows: seq<Row>, parse: FloatParser)
    requires rows != []
    ensures |ParseRows(Some(rows), parse)| == |rows| - 1 <==> IsHeaderRow(rows[0])
    ensures |ParseRows(Some(rows), parse)| == |rows| <==> !IsHeaderRow(rows[0])
  {
  }

  /** Putting a header in front of data rows does not change what is parsed. */
  lemma {:induction false} HeaderIsTransparent(header: Row, rows: seq<Row>, parse: FloatParser)
    requires IsHeaderRow(header)
    requires rows == [] || !IsHeaderRow(rows[0])
    ensures ParseRows(Some([header] + rows), parse) == ParseRows(Some(rows), parse)
  {
    var a := ParseRows(Some([header] + rows), parse);
    var b := ParseRows(Some(rows), parse);
    assert |a| == |b|;
    forall i | 0 <= i < |a| ensures a[i] == b[i] {
      assert ([header] + rows)[i + 1] == rows[i];
    }
  }

  /** An example rather than a general fact: the requires pin `s` to "Timestamp", the
      spreadsheet's own column title, which lower-cases to the marker. The general
      statements are `HeaderIgnoresCase` and `MarkerCellIsHeader`. */
  lemma CapitalisedMarker(s: string)
    requires |s| == |HeaderMarker| && s[0] == 'T' && s[1..] == HeaderMarker[1..]
    ensures Lower(s) == HeaderMarker
  {
    var tail := s[1..];
    assert s == [s[0]] + tail;
    LowerCons(s[0], tail);
    LowerUnchanged(tail);
    assert HeaderMarker == [LowerChar('T')] + tail;
  }

  /** A first cell that lower-cases to exactly the marker marks a header. */
  lemma MarkerCellIsHeader(row: Row, s: string)
    requires CellAt(row, 0) == Str(s) && Lower(s) == HeaderMarker
    ensures IsHeaderRow(row)
  {
    assert HeaderMarker <= Lower(s);
  }

  /** The example from the dashboard's header row: "Timestamp" is recognised. */
  lemma SpreadsheetHeaderRecognised()
    ensures IsHeaderRow([Str("Timestamp"), Str("Tipo"), Str("Categoria"), Str("Monto"), Str("Descripcion"), Str("Fecha")])
  {
    CapitalisedMarker("Timestamp");
    MarkerCellIsHeader([Str("Timestamp"), Str("Tipo"), Str("Categoria"), Str("Monto"), Str("Descripcion"), Str("Fecha")], "Timestamp");
  }
}
