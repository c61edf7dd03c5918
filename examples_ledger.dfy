/** A small ledger worked through the parser and the aggregator. */
module LedgerExample {
  import opened Wrappers
  import opened Rows
  import opened Monthly

  function SampleRows(): seq<Row>
  {
    [ [Str("Timestamp"), Str("Tipo"), Str("Categoria"), Str("Monto"), Str("Desc"), Str("Fecha")],
      [Str("t1"), Str("Ingreso"), Str("Salary"), Str("1000"), Str(""), Str("2024-01-15")],
      [Str("t2"), Str("Gasto"), Str("Food"), Str("250"), Str(""), Str("2024-01-20")],
      [Str("t3"), Str("Ingreso"), Str("Bonus"), Str("abc"), Str(""), Str("2024-02-01")] ]
  }

  function SalaryRecord(): Transaction
  {
    Transaction(Str("t1"), Str("Ingreso"), Str("Salary"), 1000.0, Str(""), Str("2024-01-15"))
  }

  function FoodRecord(): Transaction
  {
    Transaction(Str("t2"), Str("Gasto"), Str("Food"), 250.0, Str(""), Str("2024-01-20"))
  }

  function BonusRecord(): Transaction
  {
    Transaction(Str("t3"), Str("Ingreso"), Str("Bonus"), 0.0, Str(""), Str("2024-02-01"))
  }

  function SampleData(): seq<Transaction>
  {
    [SalaryRecord(), FoodRecord(), BonusRecord()]
  }

  /** The header is dropped and "abc" degrades to an amount of 0. */
  lemma SampleParsed(rows: seq<Row>, parse: FloatParser)
    requires rows == SampleRows()
    requires parse("1000") == Some(1000.0) && parse("250") == Some(250.0) && parse("abc") == None
    ensures ParseRows(Some(rows), parse) == SampleData()
  {
    CapitalisedMarker("Timestamp");
    MarkerCellIsHeader(rows[0], "Timestamp");
    var data := ParseRows(Some(rows), parse);
    assert |data| == 3;
    RowParsed(rows[1], parse, data[0], SalaryRecord());
    RowParsed(rows[2], parse, data[1], FoodRecord());
    RowParsed(rows[3], parse, data[2], BonusRecord());
    assert data == [SalaryRecord(), FoodRecord(), BonusRecord()];
  }

  /** A parsed record is the expected one when each column holds the expected field. */
  lemma RowParsed(row: Row, parse: FloatParser, t: Transaction, expected: Transaction)
    requires t == ToTransaction(row, parse)
    requires |row| == 6 && row[0] == expected.timestamp && row[1] == expected.tipo
    requires row[2] == expected.categoria && Amount(row[3], parse) == expected.monto
    requires row[4] == expected.descripcion && row[5] == expected.fecha
    ensures t == expected
  {
  }

  /** What a single row contributes to the two totals. */
  lemma OneRowTotals(t: Transaction)
    ensures Ingresos([t]) == (if IsKind(t, Ingreso) then t.monto else 0.0)
    ensures Gastos([t]) == (if IsKind(t, Gasto) then t.monto else 0.0)
  {
    TotalsOfOneRow([], t, []);
    assert [] + [t] + [] == [t];
  }

  /** Income 1000 and expenses 250: the unparsable bonus adds 0 to income. */
  lemma SampleTotals(data: seq<Transaction>)
    requires data == SampleData()
    ensures Ingresos(data) == 1000.0 && Gastos(data) == 250.0
  {
    var s, f, b := SalaryRecord(), FoodRecord(), BonusRecord();
    assert data == [s, f] + [b];
    assert [s, f] == [s] + [f];
    TotalsAppend([s, f], [b]);
    TotalsAppend([s], [f]);
    OneRowTotals(s);
    OneRowTotals(f);
    OneRowTotals(b);
  }

  /** Months 2024-01 and 2024-02; January nets 750 and February 0. */
  lemma SampleMonths(data: seq<Transaction>, dateOf: DateOracle)
    requires data == SampleData()
    ensures KeysOf(data, dateOf) == {"2024-01", "2024-02"}
    ensures Net(data, "2024-01", dateOf) == 750.0
    ensures Net(data, "2024-02", dateOf) == 0.0
  {
    assert ResolveMonth(data[0], dateOf) == Keyed("2024-01");
    assert ResolveMonth(data[1], dateOf) == Keyed("2024-01");
    assert ResolveMonth(data[2], dateOf) == Keyed("2024-02");
    assert data[..2] == data[..|data| - 1];
    assert data[..1] == data[..2][..|data[..2]| - 1];
    assert data[..1][..0] == [];
    assert data[..1][0] == data[0] && data[..2][1] == data[1];
    assert KeysOf(data[..1], dateOf) == {"2024-01"};
    assert KeysOf(data[..2], dateOf) == {"2024-01"};
    assert Net(data[..1], "2024-01", dateOf) == 1000.0;
    assert Net(data[..2], "2024-01", dateOf) == 750.0;
    NetOfMissingKey(data[..2], "2024-02", dateOf);
  }
}
