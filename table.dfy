/** The in-memory ticket table: cells, rows, the pandas DataFrame whose
    columns the analysis adds in place, date parsing with errors coerced to
    NaT, and `value_counts`. */
module Table {
  import opened Seqs

  datatype Option<T> = None | Some(value: T)

  /** A parsed date-time: an ordered calendar-day number and the seconds
      into that day. `.dt.date` keeps only the day. */
  datatype Timestamp = Timestamp(day: int, second: nat)

  /** One cell as pandas holds it: NaN/NaT, a text value (spreadsheet
      values other than dates are represented by their text), a date-time,
      or a number of hours (the derived `age_hours` column). */
  datatype Cell = Missing | Text(text: string) | Stamp(time: Timestamp) | Hours(hours: real)

  /** One row: header to cell. */
  type Row = map<string, Cell>

  /** A table as a value: headers in column order and the rows. */
  datatype Sheet = Sheet(columns: seq<string>, rows: seq<Row>)

  /** Headers are unique and every row has a cell under each header. */
  ghost predicate WellFormed(t: Sheet)
  {
    && Distinct(t.columns)
    && forall r :: r in t.rows ==> r.Keys == set c | c in t.columns
  }

  /** `row[col]`; a header the row lacks reads as missing. */
  function Get(r: Row, col: string): Cell
  {
    if col in r then r[col] else Missing
  }

  /** The cells of one column over the given rows, in row order. */
  function ColumnOf(rows: seq<Row>, col: string): (r: seq<Cell>)
    ensures |r| == |rows|
    ensures forall i :: 0 <= i < |rows| ==> r[i] == Get(rows[i], col)
  {
    if rows == [] then [] else [Get(rows[0], col)] + ColumnOf(rows[1..], col)
  }

  /** `df[name] = values`: an existing column is replaced where it stands,
      a new one is appended after the last column. */
  function WithColumn(t: Sheet, name: string, values: seq<Cell>): (r: Sheet)
    requires |values| == |t.rows|
  {
    Sheet(if name in t.columns then t.columns else t.columns + [name],
          seq(|t.rows|, i requires 0 <= i < |t.rows| => t.rows[i][name := values[i]]))
  }

  /** Setting a column keeps the table well formed. */
  lemma WithColumnWellFormed(t: Sheet, name: string, values: seq<Cell>)
    requires WellFormed(t) && |values| == |t.rows|
    ensures WellFormed(WithColumn(t, name, values))
  {
    var r := WithColumn(t, name, values);
    if name !in t.columns {
      forall i, j | 0 <= i < j < |r.columns| ensures r.columns[i] != r.columns[j] {
        if j == |t.columns| {
          assert r.columns[i] == t.columns[i];
        }
      }
    }
    forall row | row in r.rows ensures row.Keys == set c | c in r.columns {
      var i :| 0 <= i < |r.rows| && r.rows[i] == row;
      assert t.rows[i] in t.rows;
    }
  }

  /** Setting a column keeps the table well formed, writes exactly the given
      cells under `name` and leaves every other column as it was. */
  lemma WithColumnSpec(t: Sheet, name: string, values: seq<Cell>)
    requires WellFormed(t) && |values| == |t.rows|
    ensures WellFormed(WithColumn(t, name, values))
    ensures name in WithColumn(t, name, values).columns
    ensures forall c :: c in t.columns ==> c in WithColumn(t, name, values).columns
    ensures |WithColumn(t, name, values).rows| == |t.rows|
    ensures ColumnOf(WithColumn(t, name, values).rows, name) == values
    ensures forall c :: c != name ==> ColumnOf(WithColumn(t, name, values).rows, c) == ColumnOf(t.rows, c)
  {
    WithColumnWellFormed(t, name, values);
  }

  /** `pd.to_datetime(cell, errors='coerce')`. How text is read as a date
      is the caller-supplied `parse`; text it rejects becomes NaT, a missing
      cell stays missing and a date-time passes through. An hours value
      never reaches it: no date column is resolved to `age_hours`. */
  function ToDatetime(parse: string -> Option<Timestamp>, c: Cell): (r: Cell)
    ensures r.Missing? || r.Stamp?
    ensures c.Missing? ==> r.Missing?
    ensures c.Stamp? ==> r == c
  {
    match c
    case Missing => Missing
    case Text(s) => (match parse(s) case Some(ts) => Stamp(ts) case None => Missing)
    case Stamp(_) => c
    case Hours(_) => Missing
  }

  /** `pd.to_datetime(df[col], errors='coerce')` over the whole table. */
  function DatetimeColumn(t: Sheet, col: string, parse: string -> Option<Timestamp>): (r: seq<Cell>)
    ensures |r| == |t.rows|
    ensures forall i :: 0 <= i < |t.rows| ==> r[i] == ToDatetime(parse, Get(t.rows[i], col))
  {
    seq(|t.rows|, i requires 0 <= i < |t.rows| => ToDatetime(parse, Get(t.rows[i], col)))
  }

  /** The non-missing cells, in order (what `value_counts` sees). */
  function Present(cells: seq<Cell>): seq<Cell>
  {
    Where(cells, (c: Cell) => !c.Missing?)
  }

  /** The missing cells (what `isna()` selects). */
  function Absent(cells: seq<Cell>): seq<Cell>
  {
    Where(cells, (c: Cell) => c.Missing?)
  }

  /** Every cell is either missing or present. */
  lemma PresentAbsentSplit(cells: seq<Cell>)
    ensures |Present(cells)| + |Absent(cells)| == |cells|
  {
    WhereComplement(cells, (c: Cell) => !c.Missing?, (c: Cell) => c.Missing?);
  }

  /** On a column that already holds only date-times and missing cells,
      `pd.to_datetime` changes nothing: converting it and copying it agree. */
  lemma DatetimeColumnIdentity(t: Sheet, col: string, parse: string -> Option<Timestamp>)
    requires forall i :: 0 <= i < |t.rows| ==> Get(t.rows[i], col).Missing? || Get(t.rows[i], col).Stamp?
    ensures DatetimeColumn(t, col, parse) == ColumnOf(t.rows, col)
  {
  }

  /** Orders a tally by descending count. */
  function ByCountDescending(p: (Cell, nat)): int
  {
    -(p.1 as int)
  }

  /** `series.value_counts()`: each distinct non-missing value with its
      number of occurrences, the most frequent first; values with equal
      counts are listed in order of first appearance. */
  function ValueCounts(cells: seq<Cell>): seq<(Cell, nat)>
  {
    Tally(Present(cells), ByCountDescending)
  }

  /** Every entry of `value_counts` is a non-missing cell of the column
      with its exact number of occurrences. */
  lemma ValueCountsEntries(cells: seq<Cell>)
    ensures var r := ValueCounts(cells);
      forall i :: 0 <= i < |r| ==>
        r[i].0 in cells && !r[i].0.Missing? && r[i].1 == CountOf(Present(cells), r[i].0)
  {
    var vs := Present(cells);
    TallyEntries(vs, ByCountDescending);
    var r := ValueCounts(cells);
    forall i | 0 <= i < |r| ensures r[i].0 in cells && !r[i].0.Missing? {
      var k :| 0 <= k < |vs| && vs[k] == r[i].0;
    }
  }

  /** `value_counts` lists the most frequent value first. */
  lemma ValueCountsDescending(cells: seq<Cell>)
    ensures var r := ValueCounts(cells);
      forall i, j :: 0 <= i < j < |r| ==> r[i].1 >= r[j].1
  {
    var r := ValueCounts(cells);
    forall i, j | 0 <= i < j < |r| ensures r[i].1 >= r[j].1 {
      assert ByCountDescending(r[i]) <= ByCountDescending(r[j]);
    }
  }

  /** The table object the analysis works on. Derived columns are added to
      it in place, as `df[name] = ...` does. */
  class DataFrame {
    var columns: seq<string>
    var rows: seq<Row>

    /** The current contents as a value. */
    function Snapshot(): Sheet
      reads this
    {
      Sheet(columns, rows)
    }

    ghost predicate Valid()
      reads this
    {
      WellFormed(Snapshot())
    }

    /** The table as `pd.read_excel` delivers it. */
    constructor (t: Sheet)
      requires WellFormed(t)
      ensures Valid() && Snapshot() == t
    {
      columns := t.columns;
      rows := t.rows;
    }

    /** `df[name] = values`. */
    method SetColumn(name: string, values: seq<Cell>)
      requires Valid() && |values| == |rows|
      modifies this
      ensures Valid()
      ensures Snapshot() == WithColumn(old(Snapshot()), name, values)
    {
      WithColumnSpec(Snapshot(), name, values);
      var t := WithColumn(Snapshot(), name, values);
      columns := t.columns;
      rows := t.rows;
    }
  }
}
