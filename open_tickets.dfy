/** `analyze_open_tickets_by_priority` and `analyze_open_tickets_by_age`:
    the open tickets are the rows whose raw closed cell is empty; they are
    broken down by priority and, through the parsed `age_hours` column,
    into four age ranges; tickets created and closed today are counted
    over the whole table. */
module OpenTickets {
  import opened Seqs
  import opened Table

  /** The open tickets and their priority distribution, or the `KeyError`
      raised when the closed column is not a column of the table. */
  datatype Opened =
    | KeyError(column: string)
    | Opened(rows: seq<Row>, byPriority: Option<seq<(Cell, nat)>>)

  /** `df[df[col].isna()]`: the rows whose raw cell under `col` is empty. */
  function OpenRows(rows: seq<Row>, col: string): seq<Row>
  {
    Where(rows, (r: Row) => Get(r, col).Missing?)
  }

  function OpenByPriority(t: Sheet, closedColumn: string): Opened
  {
    if closedColumn !in t.columns then KeyError(closedColumn)
    else
      var open := OpenRows(t.rows, closedColumn);
      Opened(open, if "Priority" in t.columns then Some(ValueCounts(ColumnOf(open, "Priority"))) else None)
  }

  /** The priority analysis on the table object; it adds nothing to it. */
  method AnalyzeOpenTicketsByPriority(df: DataFrame, closedColumn: string) returns (o: Opened)
    requires df.Valid()
    ensures o == OpenByPriority(df.Snapshot(), closedColumn)
  {
    if closedColumn !in df.columns {
      return KeyError(closedColumn);
    }
    var open := OpenRows(df.rows, closedColumn);
    var byPriority: Option<seq<(Cell, nat)>> := None;
    if "Priority" in df.columns {
      byPriority := Some(ValueCounts(ColumnOf(open, "Priority")));
    }
    o := Opened(open, byPriority);
  }

  /** The lookup fails exactly when the closed column is not a header. */
  lemma KeyErrorSpec(t: Sheet, closedColumn: string)
    ensures OpenByPriority(t, closedColumn).KeyError? <==> closedColumn !in t.columns
  {
  }

  /** A row is open exactly when it is a row of the table whose raw closed
      cell is empty, and there are as many open rows as empty cells. */
  lemma {:induction false} OpenRowsSpec(rows: seq<Row>, col: string)
    ensures forall r :: r in OpenRows(rows, col) <==> r in rows && Get(r, col).Missing?
    ensures |OpenRows(rows, col)| == |Absent(ColumnOf(rows, col))|
  {
    if rows != [] {
      OpenRowsSpec(rows[1..], col);
      assert ColumnOf(rows, col)[1..] == ColumnOf(rows[1..], col);
      forall r | r in rows && Get(r, col).Missing? ensures r in OpenRows(rows, col) {
        var i :| 0 <= i < |rows| && rows[i] == r;
      }
    }
  }

  /** The priority counts of the open tickets add up to the open tickets
      that have a priority. */
  lemma OpenPriorityTotal(t: Sheet, closedColumn: string)
    requires OpenByPriority(t, closedColumn).Opened? && OpenByPriority(t, closedColumn).byPriority.Some?
    ensures var o := OpenByPriority(t, closedColumn);
      Total(o.byPriority.value) + |Absent(ColumnOf(o.rows, "Priority"))| == |o.rows|
  {
    var o := OpenByPriority(t, closedColumn);
    var cells := ColumnOf(o.rows, "Priority");
    TallyTotal(Present(cells), ByCountDescending);
    PresentAbsentSplit(cells);
  }

  /** The four age ranges. A cell that is not a number of hours falls in
      none, as NaN fails every comparison. */
  predicate UpTo24(c: Cell) { c.Hours? && c.hours <= 24.0 }
  predicate UpTo48(c: Cell) { c.Hours? && 24.0 < c.hours <= 48.0 }
  predicate UpTo72(c: Cell) { c.Hours? && 48.0 < c.hours <= 72.0 }
  predicate Over72(c: Cell) { c.Hours? && c.hours > 72.0 }
  predicate IsHours(c: Cell) { c.Hours? }

  datatype Buckets = Buckets(upTo24: nat, upTo48: nat, upTo72: nat, over72: nat)

  function BucketsOf(cells: seq<Cell>): Buckets
  {
    Buckets(|Where(cells, UpTo24)|, |Where(cells, UpTo48)|, |Where(cells, UpTo72)|, |Where(cells, Over72)|)
  }

  function BucketTotal(b: Buckets): nat
  {
    b.upTo24 + b.upTo48 + b.upTo72 + b.over72
  }

  /** No cell falls in two ranges, and a number of hours falls in one. */
  lemma BucketsDisjoint(c: Cell)
    ensures (if UpTo24(c) then 1 else 0) + (if UpTo48(c) then 1 else 0)
          + (if UpTo72(c) then 1 else 0) + (if Over72(c) then 1 else 0) == (if IsHours(c) then 1 else 0)
  {
  }

  /** The ranges do not overlap and leave no gap: every number of hours is
      counted in exactly one of them. */
  lemma {:induction false} BucketsPartition(cells: seq<Cell>)
    ensures BucketTotal(BucketsOf(cells)) == |Where(cells, IsHours)|
  {
    if cells != [] {
      BucketsPartition(cells[1..]);
    }
  }

  /** `open_tickets[open_tickets['Age'].notna()]` */
  function OpenWithAge(open: seq<Row>): seq<Row>
  {
    Where(open, (r: Row) => !Get(r, "Age").Missing?)
  }

  /** A date-time cell on the given day; NaT is on no day. */
  predicate OnDay(c: Cell, day: int)
  {
    c.Stamp? && c.time.day == day
  }

  /** `len(df[col.dt.date == today])` */
  function CountOnDay(cells: seq<Cell>, day: int): nat
  {
    |Where(cells, (c: Cell) => OnDay(c, day))|
  }

  /** The age report: the four ranges, and the tickets created and closed
      today when the date columns exist. */
  datatype AgeReport = AgeReport(buckets: Buckets, newToday: Option<nat>, closedToday: Option<nat>)

  datatype AgeOutcome = NoAgeData | Ages(report: AgeReport)

  /** Runs only when both the raw `Age` and the parsed `age_hours` exist. */
  predicate HasAgeData(t: Sheet)
  {
    "Age" in t.columns && "age_hours" in t.columns
  }

  /** `df['closed_date_temp']`: the `Closed` column as date-times. */
  function AgeTable(t: Sheet, parse: string -> Option<Timestamp>): Sheet
  {
    if HasAgeData(t) && "Closed" in t.columns then WithColumn(t, "closed_date_temp", DatetimeColumn(t, "Closed", parse))
    else t
  }

  function AgeOutcomeOf(t: Sheet, open: seq<Row>, parse: string -> Option<Timestamp>, today: int): AgeOutcome
  {
    if !HasAgeData(t) then NoAgeData
    else
      Ages(AgeReport(
        BucketsOf(ColumnOf(OpenWithAge(open), "age_hours")),
        if "created_date" in t.columns then Some(CountOnDay(ColumnOf(t.rows, "created_date"), today)) else None,
        if "Closed" in t.columns then Some(CountOnDay(DatetimeColumn(t, "Closed", parse), today)) else None))
  }

  /** The age analysis on the table object, adding `closed_date_temp` in
      place. `today` stands for `datetime.now().date()`. */
  method AnalyzeOpenTicketsByAge(df: DataFrame, open: seq<Row>, parse: string -> Option<Timestamp>, today: int)
    returns (out: AgeOutcome)
    requires df.Valid()
    modifies df
    ensures df.Valid()
    ensures df.Snapshot() == AgeTable(old(df.Snapshot()), parse)
    ensures out == AgeOutcomeOf(old(df.Snapshot()), open, parse, today)
  {
    if !("Age" in df.columns && "age_hours" in df.columns) {
      return NoAgeData;
    }
    var buckets := BucketsOf(ColumnOf(OpenWithAge(open), "age_hours"));
    var newToday: Option<nat> := None;
    if "created_date" in df.columns {
      newToday := Some(CountOnDay(ColumnOf(df.rows, "created_date"), today));
    }
    var closedToday: Option<nat> := None;
    if "Closed" in df.columns {
      var t := df.Snapshot();
      var converted := DatetimeColumn(t, "Closed", parse);
      WithColumnSpec(t, "closed_date_temp", converted);
      df.SetColumn("closed_date_temp", converted);
      closedToday := Some(CountOnDay(ColumnOf(df.rows, "closed_date_temp"), today));
    }
    out := Ages(AgeReport(buckets, newToday, closedToday));
  }

  /** When every open ticket with an age has a parsed number of hours, each
      of them is counted in exactly one range. */
  lemma OpenAgesBucketed(open: seq<Row>)
    requires forall i :: 0 <= i < |open| ==> Get(open[i], "age_hours").Hours?
    ensures BucketTotal(BucketsOf(ColumnOf(OpenWithAge(open), "age_hours"))) == |OpenWithAge(open)|
  {
    var aged := OpenWithAge(open);
    var cells := ColumnOf(aged, "age_hours");
    BucketsPartition(cells);
    forall i | 0 <= i < |cells| ensures IsHours(cells[i]) {
      assert aged[i] in open;
    }
    WhereAll(cells, IsHours);
  }

  /** A mask that holds everywhere keeps everything. */
  lemma {:induction false} WhereAll<T>(s: seq<T>, keep: T -> bool)
    requires forall i :: 0 <= i < |s| ==> keep(s[i])
    ensures Where(s, keep) == s
  {
    if s != [] {
      WhereAll(s[1..], keep);
    }
  }

  /** Raw emptiness undercounts parsed emptiness: every raw-empty cell is
      still empty once converted, so the rows the priority analysis treats
      as open are at most those the statistics count as open. The two
      differ by the non-empty cells that do not parse as a date. */
  lemma RawOpenAtMostParsedOpen(t: Sheet, col: string, parse: string -> Option<Timestamp>)
    ensures |OpenRows(t.rows, col)| <= |Absent(DatetimeColumn(t, col, parse))|
  {
    OpenRowsSpec(t.rows, col);
    var raw := ColumnOf(t.rows, col);
    var parsed := DatetimeColumn(t, col, parse);
    AbsentConverted(raw, parsed, parse);
  }

  /** A text cell that does not parse is not missing before conversion
      and missing after it, so it widens the gap. */
  lemma {:induction false} AbsentConvertedStrict(raw: seq<Cell>, parsed: seq<Cell>, parse: string -> Option<Timestamp>, i: int)
    requires |raw| == |parsed|
    requires forall j :: 0 <= j < |raw| ==> parsed[j] == ToDatetime(parse, raw[j])
    requires 0 <= i < |raw| && raw[i].Text? && parse(raw[i].text).None?
    ensures |Absent(raw)| < |Absent(parsed)|
  {
    if i == 0 {
      AbsentConverted(raw[1..], parsed[1..], parse);
    } else {
      AbsentConvertedStrict(raw[1..], parsed[1..], parse, i - 1);
    }
  }

  /** Converting a column cell by cell keeps every missing cell missing. */
  lemma {:induction false} AbsentConverted(raw: seq<Cell>, parsed: seq<Cell>, parse: string -> Option<Timestamp>)
    requires |raw| == |parsed|
    requires forall i :: 0 <= i < |raw| ==> parsed[i] == ToDatetime(parse, raw[i])
    ensures |Absent(raw)| <= |Absent(parsed)|
  {
    if raw != [] {
      AbsentConverted(raw[1..], parsed[1..], parse);
    }
  }
}
