/** The CSV batch step. An uploaded table must have the columns Lab, Value
    and Unit; then the converter is applied to every row, in order, and the
    results are stored in the table itself as two more columns,
    Converted_Value and Converted_Unit. A failed row gets a blank value and
    the error message in the unit column. */
module Batch {
  import opened Converter

  /** One parsed CSV cell. Blank is a missing value. */
  datatype Cell = Text(text: string) | Number(number: real) | Blank

  /** One table row: column name to cell. */
  type Row = map<string, Cell>

  const LabColumn: string := "Lab"
  const ValueColumn: string := "Value"
  const UnitColumn: string := "Unit"
  const ConvertedValueColumn: string := "Converted_Value"
  const ConvertedUnitColumn: string := "Converted_Unit"
  const MissingColumnsMessage: string := "CSV must have columns: Lab, Value, Unit"

  /** The three input columns are all present. */
  predicate HasRequiredColumns(columns: seq<string>) {
    LabColumn in columns && ValueColumn in columns && UnitColumn in columns
  }

  /** Every Value cell that a row has is a number. */
  predicate NumericValues(rows: seq<Row>) {
    forall k :: 0 <= k < |rows| && ValueColumn in rows[k] ==> rows[k][ValueColumn].Number?
  }

  /** The row has the three input cells and its value is a number. */
  predicate Convertible(row: Row) {
    LabColumn in row && ValueColumn in row && UnitColumn in row && row[ValueColumn].Number?
  }

  function ColumnSet(columns: seq<string>): set<string> {
    set c | c in columns
  }

  /** The converter applied to one row. A Lab cell that is not text is no key
      of the table; a Unit cell that is not text equals neither unit. */
  function ConvertRow(t: Table, row: Row): Converted
    requires WellFormed(t) && Convertible(row)
  {
    match row[LabColumn]
    case Text(lab) =>
      (match row[UnitColumn]
       case Text(unit) => Convert(t, lab, row[ValueColumn].number, unit)
       case _ => if lab in t then Converted(None, UnitMismatchMessage) else Converted(None, UnknownLabMessage))
    case _ => Converted(None, UnknownLabMessage)
  }

  /** A row converts exactly when its Lab and Unit cells are text naming a lab
      of the table and one of that lab's units; then the result is the
      converter's on those cells. A failed row carries the matching message. */
  lemma ConvertRowSucceedsIff(t: Table, row: Row)
    requires WellFormed(t) && Convertible(row)
    ensures var r := ConvertRow(t, row);
            (r.amount.Some? <==>
               (row[LabColumn].Text? && row[UnitColumn].Text? &&
                Accepts(t, row[LabColumn].text, row[UnitColumn].text))) &&
            (r.amount.Some? ==> r == Convert(t, row[LabColumn].text, row[ValueColumn].number, row[UnitColumn].text)) &&
            (r.amount.None? ==> r.unit == if row[LabColumn].Text? && row[LabColumn].text in t
                                         then UnitMismatchMessage else UnknownLabMessage)
  {
  }

  /** The cell stored in Converted_Value: the number, or blank on failure. */
  function ValueCell(r: Converted): Cell {
    match r.amount
    case Some(v) => Number(v)
    case None => Blank
  }

  /** Reads a result back from its two output cells. */
  function ReadResult(value: Cell, unit: Cell): Option<Converted> {
    match (value, unit)
    case (Number(v), Text(u)) => Some(Converted(Some(v), u))
    case (Blank, Text(m)) => Some(Converted(None, m))
    case _ => None
  }

  /** Storing a result in the two cells loses nothing: success and failure
      stay apart although the unit column also carries messages. */
  lemma ResultCellsRoundTrip(r: Converted)
    ensures ReadResult(ValueCell(r), Text(r.unit)) == Some(r)
  {
  }

  /** A row with its two result cells set; a cell already in those columns is
      overwritten. */
  function Augment(row: Row, r: Converted): Row {
    row[ConvertedValueColumn := ValueCell(r)][ConvertedUnitColumn := Text(r.unit)]
  }

  /** The columns after the step: the result columns are appended unless the
      table already has them, in which case they keep their place. */
  function OutputColumns(columns: seq<string>): (out: seq<string>) {
    var withValue := if ConvertedValueColumn in columns then columns else columns + [ConvertedValueColumn];
    if ConvertedUnitColumn in withValue then withValue else withValue + [ConvertedUnitColumn]
  }

  /** The output columns start with the input columns, in order, hold both
      result columns, and add nothing else. */
  lemma OutputColumnsExtend(columns: seq<string>)
    ensures var out := OutputColumns(columns);
            out[..|columns|] == columns &&
            ColumnSet(out) == ColumnSet(columns) + {ConvertedValueColumn, ConvertedUnitColumn}
  {
    var out := OutputColumns(columns);
    assert ColumnSet(out) == ColumnSet(columns) + {ConvertedValueColumn, ConvertedUnitColumn} by {
      forall c ensures c in ColumnSet(out) <==> c in ColumnSet(columns) + {ConvertedValueColumn, ConvertedUnitColumn} {
        if c == ConvertedValueColumn || c == ConvertedUnitColumn {
          assert c in out;
        }
      }
    }
  }

  /** The whole batch on rows: every row, in order, with its results added. */
  function ConvertAll(t: Table, rows: seq<Row>): (out: seq<Row>)
    requires WellFormed(t) && forall k :: 0 <= k < |rows| ==> Convertible(rows[k])
    ensures |out| == |rows|
    ensures forall k :: 0 <= k < |rows| ==> out[k] == Augment(rows[k], ConvertRow(t, rows[k]))
  {
    if rows == [] then [] else [Augment(rows[0], ConvertRow(t, rows[0]))] + ConvertAll(t, rows[1..])
  }

  /** Each output row keeps every original cell outside the two result
      columns, gains exactly those two, and its result cells read back as the
      converter's verdict on that row's Lab, Value and Unit. */
  lemma ConvertAllRow(t: Table, rows: seq<Row>, k: int)
    requires WellFormed(t) && forall j :: 0 <= j < |rows| ==> Convertible(rows[j])
    requires 0 <= k < |rows|
    ensures var out := ConvertAll(t, rows);
            out[k].Keys == rows[k].Keys + {ConvertedValueColumn, ConvertedUnitColumn} &&
            (forall c :: c in rows[k] && c != ConvertedValueColumn && c != ConvertedUnitColumn
                         ==> out[k][c] == rows[k][c]) &&
            ReadResult(out[k][ConvertedValueColumn], out[k][ConvertedUnitColumn]) == Some(ConvertRow(t, rows[k]))
  {
    ResultCellsRoundTrip(ConvertRow(t, rows[k]));
  }

  /** A table of rows, updated in place by the batch step. */
  class DataFrame {
    var columns: seq<string>
    var rows: seq<Row>

    /** Column names are distinct and every row has exactly those columns. */
    ghost predicate Valid()
      reads this
    {
      (forall i, j :: 0 <= i < j < |columns| ==> columns[i] != columns[j]) &&
      (forall k :: 0 <= k < |rows| ==> rows[k].Keys == ColumnSet(columns))
    }

    /** A table as the CSV parser hands it over. */
    constructor (columns: seq<string>, rows: seq<Row>)
      requires forall i, j :: 0 <= i < j < |columns| ==> columns[i] != columns[j]
      requires forall k :: 0 <= k < |rows| ==> rows[k].Keys == ColumnSet(columns)
      ensures Valid() && this.columns == columns && this.rows == rows
    {
      this.columns := columns;
      this.rows := rows;
    }

    /** Applies the converter to every row, in order, without changing the
        table. */
    method Apply(t: Table) returns (converted: seq<Converted>)
      requires Valid() && WellFormed(t) && HasRequiredColumns(columns) && NumericValues(rows)
      ensures |converted| == |rows|
      ensures forall k :: 0 <= k < |rows| ==> Convertible(rows[k]) && converted[k] == ConvertRow(t, rows[k])
    {
      converted := [];
      var i := 0;
      while i < |rows|
        invariant 0 <= i <= |rows|
        invariant |converted| == i
        invariant forall k :: 0 <= k < i ==> Convertible(rows[k]) && converted[k] == ConvertRow(t, rows[k])
      {
        assert rows[i].Keys == ColumnSet(columns);
        converted := converted + [ConvertRow(t, rows[i])];
        i := i + 1;
      }
    }

    /** Stores the results as the two output columns. */
    method Assign(converted: seq<Converted>)
      requires Valid() && |converted| == |rows|
      modifies this
      ensures Valid()
      ensures columns == OutputColumns(old(columns))
      ensures |rows| == |old(rows)|
      ensures forall k :: 0 <= k < |rows| ==> rows[k] == Augment(old(rows)[k], converted[k])
    {
      OutputColumnsExtend(columns);
      var out := OutputColumns(columns);
      assert forall i, j :: 0 <= i < j < |out| ==> out[i] != out[j] by {
        forall i, j | 0 <= i < j < |out| ensures out[i] != out[j] {
          if j >= |columns| {
            assert out[j] !in columns;
          }
        }
      }
      var next: seq<Row> := [];
      var i := 0;
      while i < |rows|
        invariant 0 <= i <= |rows|
        invariant |next| == i
        invariant forall k :: 0 <= k < i ==> next[k] == Augment(rows[k], converted[k])
        invariant forall k :: 0 <= k < i ==> next[k].Keys == ColumnSet(out)
      {
        next := next + [Augment(rows[i], converted[i])];
        i := i + 1;
      }
      columns, rows := out, next;
    }

    /** The batch step: with the three input columns present, every row is
        converted and the table gains the result columns; otherwise the
        table is left as it was and the missing-columns message is returned. */
    method ConvertUpload(t: Table) returns (error: Option<string>)
      requires Valid() && WellFormed(t) && (HasRequiredColumns(columns) ==> NumericValues(rows))
      modifies this
      ensures Valid()
      ensures error == if HasRequiredColumns(old(columns)) then None else Some(MissingColumnsMessage)
      ensures error.Some? ==> columns == old(columns) && rows == old(rows)
      ensures error.None? ==> columns == OutputColumns(old(columns)) && rows == ConvertAll(t, old(rows))
    {
      if HasRequiredColumns(columns) {
        var converted := Apply(t);
        ghost var before := rows;
        Assign(converted);
        assert rows == ConvertAll(t, before);
        error := None;
      } else {
        error := Some(MissingColumnsMessage);
      }
    }
  }

  /** A table without a Unit column is refused with the missing-columns
      message whatever its Value cells hold, and is left as it was. */
  method MissingUnitColumnExample() returns (error: Option<string>)
    ensures error == Some(MissingColumnsMessage)
  {
    var row := map[LabColumn := Text("Glucose"), ValueColumn := Text("abc")];
    assert row.Keys == ColumnSet([LabColumn, ValueColumn]);
    var df := new DataFrame([LabColumn, ValueColumn], [row]);
    error := df.ConvertUpload(SeedTable);
    assert df.rows == [row];
  }

  /** The two-row scenario: a glucose row converts, an unknown lab keeps its
      cells and gets a blank value with the message. */
  lemma TwoRowExample()
    ensures var glucose := map[LabColumn := Text("Glucose"), ValueColumn := Number(5.0), UnitColumn := Text("mmol/L")];
            var foo := map[LabColumn := Text("Foo"), ValueColumn := Number(1.0), UnitColumn := Text("mg/dL")];
            ConvertAll(SeedTable, [glucose, foo])
            == [glucose[ConvertedValueColumn := Number(90.09)][ConvertedUnitColumn := Text("mg/dL")],
                foo[ConvertedValueColumn := Blank][ConvertedUnitColumn := Text(UnknownLabMessage)]]
  {
    SeedTableWellFormed();
    GlucoseExample();
  }
}
