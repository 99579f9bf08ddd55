/** `prepare_data`, `generate_output` and the main flow: the table is read,
    the closed column chosen, `age_hours` and `created_date` derived, the
    statistics computed, and then the summary, the first-response analysis,
    the open tickets by priority and the open tickets by age reported. */
module Report {
  import opened Seqs
  import opened Table
  import opened Columns
  import opened Age
  import opened Statistics
  import opened FirstResponse
  import opened OpenTickets

  /** `df['Age'].apply(parse_age_to_hours)` */
  function AgeHoursColumn(t: Sheet): (r: seq<Cell>)
    ensures |r| == |t.rows|
  {
    seq(|t.rows|, i requires 0 <= i < |t.rows| => Hours(ParseAgeToHours(Get(t.rows[i], "Age"))))
  }

  function WithAgeHours(t: Sheet): Sheet
  {
    if "Age" in t.columns then WithColumn(t, "age_hours", AgeHoursColumn(t)) else t
  }

  function WithCreated(t: Sheet, parse: string -> Option<Timestamp>): Sheet
  {
    if "Created" in t.columns then WithColumn(t, "created_date", DatetimeColumn(t, "Created", parse)) else t
  }

  /** The table `prepare_data` hands on: `age_hours` when there is an
      `Age` column, then `created_date` when there is a `Created` column. */
  function PreparedTable(t: Sheet, parse: string -> Option<Timestamp>): Sheet
  {
    WithCreated(WithAgeHours(t), parse)
  }

  /** The prepared table is well formed, keeps the rows and every other
      column, and gains no column besides `age_hours` and `created_date`. */
  lemma PreparedTableShape(t: Sheet, parse: string -> Option<Timestamp>)
    requires WellFormed(t)
    ensures var p := PreparedTable(t, parse);
      && WellFormed(p)
      && |p.rows| == |t.rows|
      && (forall c :: c in t.columns ==> c in p.columns)
      && (forall c :: c in p.columns ==> c in t.columns || c == "age_hours" || c == "created_date")
      && (forall c :: c != "age_hours" && c != "created_date" ==> ColumnOf(p.rows, c) == ColumnOf(t.rows, c))
  {
    var ta := WithAgeHours(t);
    if "Age" in t.columns {
      WithColumnSpec(t, "age_hours", AgeHoursColumn(t));
    }
    if "Created" in ta.columns {
      WithColumnSpec(ta, "created_date", DatetimeColumn(ta, "Created", parse));
    }
  }

  /** Under `age_hours` each row holds the parsed hours of its `Age`. */
  lemma PreparedAgeHours(t: Sheet, parse: string -> Option<Timestamp>)
    requires WellFormed(t) && "Age" in t.columns
    ensures var p := PreparedTable(t, parse);
      |p.rows| == |t.rows| &&
      forall i :: 0 <= i < |t.rows| ==> Get(p.rows[i], "age_hours") == Hours(ParseAgeToHours(Get(t.rows[i], "Age")))
  {
    var ta := WithAgeHours(t);
    WithColumnSpec(t, "age_hours", AgeHoursColumn(t));
    if "Created" in ta.columns {
      WithColumnSpec(ta, "created_date", DatetimeColumn(ta, "Created", parse));
    }
    assert ColumnOf(PreparedTable(t, parse).rows, "age_hours") == AgeHoursColumn(t);
  }

  /** Under `created_date` each row holds its `Created` cell as a date-time. */
  lemma PreparedCreatedDate(t: Sheet, parse: string -> Option<Timestamp>)
    requires WellFormed(t) && "Created" in t.columns
    ensures var p := PreparedTable(t, parse);
      |p.rows| == |t.rows| &&
      forall i :: 0 <= i < |t.rows| ==> Get(p.rows[i], "created_date") == ToDatetime(parse, Get(t.rows[i], "Created"))
  {
    var ta := WithAgeHours(t);
    if "Age" in t.columns {
      WithColumnSpec(t, "age_hours", AgeHoursColumn(t));
    }
    WithColumnSpec(ta, "created_date", DatetimeColumn(ta, "Created", parse));
    assert ColumnOf(ta.rows, "Created") == ColumnOf(t.rows, "Created");
  }

  /** `prepare_data` on a table that was read: the closed column, the
      derived columns added in place, and the statistics of
      `analyze_otrs_tickets`, which works on a copy of its own. */
  method PrepareData(t: Sheet, parse: string -> Option<Timestamp>)
    returns (df: DataFrame, closedColumn: string, result: Analysis)
    requires WellFormed(t)
    ensures fresh(df) && df.Valid()
    ensures df.Snapshot() == PreparedTable(t, parse)
    ensures closedColumn == ClosedColumn(t.columns)
    ensures result == AnalysisOf(t, parse)
  {
    df := new DataFrame(t);
    closedColumn := FindClosedColumn(df.columns);
    if "Age" in df.columns {
      df.SetColumn("age_hours", AgeHoursColumn(df.Snapshot()));
    }
    if "Created" in df.columns {
      df.SetColumn("created_date", DatetimeColumn(df.Snapshot(), "Created", parse));
    }
    result := AnalyzeOtrsTickets(t, parse);
  }

  /** The summary printed when the statistics were computed. */
  datatype Summary = Summary(newToday: Option<nat>, totalClosed: Option<nat>, currentOpen: Option<nat>)

  function SummaryOf(p: Sheet, result: Analysis, today: int): Option<Summary>
  {
    match result
    case Unmapped(_) => None
    case Analyzed(s) =>
      Some(Summary(
        if "created_date" in p.columns then Some(CountOnDay(ColumnOf(p.rows, "created_date"), today)) else None,
        if s.dailyClosed.Some? then Some(Total(s.dailyClosed.value)) else None,
        s.currentOpen))
  }

  /** Everything `generate_output` reports. The age section is absent when
      the priority section stopped on a `KeyError`. */
  datatype Output = Output(
    summary: Option<Summary>,
    firstResponse: FirstResponseReport,
    open: Opened,
    ages: Option<AgeOutcome>)

  function OutputOf(p: Sheet, closedColumn: string, result: Analysis, parse: string -> Option<Timestamp>, today: int): Output
  {
    var o := OpenByPriority(p, closedColumn);
    Output(SummaryOf(p, result, today), FirstResponseOf(p), o,
           if o.KeyError? then None else Some(AgeOutcomeOf(p, o.rows, parse, today)))
  }

  /** The table after `generate_output`: only the age section adds a column. */
  function OutputTable(p: Sheet, closedColumn: string, parse: string -> Option<Timestamp>): Sheet
  {
    if OpenByPriority(p, closedColumn).KeyError? then p else AgeTable(p, parse)
  }

  method GenerateOutput(df: DataFrame, closedColumn: string, result: Analysis, parse: string -> Option<Timestamp>, today: int)
    returns (out: Output)
    requires df.Valid()
    modifies df
    ensures df.Valid()
    ensures df.Snapshot() == OutputTable(old(df.Snapshot()), closedColumn, parse)
    ensures out == OutputOf(old(df.Snapshot()), closedColumn, result, parse, today)
  {
    var summary := SummaryOf(df.Snapshot(), result, today);
    var firstResponse := AnalyzeFirstResponseEmpty(df);
    var open := AnalyzeOpenTicketsByPriority(df, closedColumn);
    if open.KeyError? {
      return Output(summary, firstResponse, open, None);
    }
    var ages := AnalyzeOpenTicketsByAge(df, open.rows, parse, today);
    out := Output(summary, firstResponse, open, Some(ages));
  }

  /** The whole run; `None` for a table that could not be read. */
  function RunOf(source: Option<Sheet>, parse: string -> Option<Timestamp>, today: int): Option<Output>
  {
    match source
    case None => None
    case Some(t) => Some(OutputOf(PreparedTable(t, parse), ClosedColumn(t.columns), AnalysisOf(t, parse), parse, today))
  }

  method RunAnalysis(source: Option<Sheet>, parse: string -> Option<Timestamp>, today: int) returns (out: Option<Output>)
    requires source.Some? ==> WellFormed(source.value)
    ensures out == RunOf(source, parse, today)
  {
    if source.None? {
      return None;
    }
    var df, closedColumn, result := PrepareData(source.value, parse);
    var o := GenerateOutput(df, closedColumn, result, parse, today);
    return Some(o);
  }

  /** In the summary, the open tickets and the closed tickets add up to all
      tickets. */
  lemma SummaryBalance(t: Sheet, parse: string -> Option<Timestamp>, today: int)
    requires WellFormed(t)
    ensures var s := SummaryOf(PreparedTable(t, parse), AnalysisOf(t, parse), today);
      s.Some? && s.value.currentOpen.Some? ==>
        s.value.currentOpen.value + (if s.value.totalClosed.Some? then s.value.totalClosed.value else 0) == |t.rows|
  {
    var columns := ColumnMap(t.columns);
    if columns != map[] && "closed" in columns {
      OpenPlusClosed(t, columns, parse);
    }
  }

  /** The summary and the age section count the same tickets as created
      today. */
  lemma NewTodayAgrees(t: Sheet, parse: string -> Option<Timestamp>, today: int)
    ensures var out := RunOf(Some(t), parse, today).value;
      out.summary.Some? && out.ages.Some? && out.ages.value.Ages? ==>
        out.summary.value.newToday == out.ages.value.report.newToday
  {
  }

  /** Every open ticket with an age is counted in exactly one age range,
      because `age_hours` is a number for every row. */
  lemma AgesAllBucketed(t: Sheet, parse: string -> Option<Timestamp>, today: int)
    requires WellFormed(t)
    ensures var out := RunOf(Some(t), parse, today).value;
      out.ages.Some? && out.ages.value.Ages? ==>
        BucketTotal(out.ages.value.report.buckets) == |OpenWithAge(out.open.rows)|
  {
    var p := PreparedTable(t, parse);
    var out := RunOf(Some(t), parse, today).value;
    if out.ages.Some? && out.ages.value.Ages? {
      PreparedTableShape(t, parse);
      assert "Age" in t.columns;
      PreparedAgeHours(t, parse);
      OpenAgesBucketedIn(p.rows, ClosedColumn(t.columns));
    }
  }

  /** Open rows drawn from rows that all carry hours carry hours. */
  lemma OpenAgesBucketedIn(rows: seq<Row>, col: string)
    requires forall i :: 0 <= i < |rows| ==> Get(rows[i], "age_hours").Hours?
    ensures BucketTotal(BucketsOf(ColumnOf(OpenWithAge(OpenRows(rows, col)), "age_hours"))) == |OpenWithAge(OpenRows(rows, col))|
  {
    var open := OpenRows(rows, col);
    OpenRowsSpec(rows, col);
    forall i | 0 <= i < |open| ensures Get(open[i], "age_hours").Hours? {
      assert open[i] in rows;
    }
    OpenAgesBucketed(open);
  }

  /** With no closed header the priority section looks up "State"; when
      that column does not exist either, the lookup fails and the age
      section never runs. */
  lemma FallbackKeyError(t: Sheet, parse: string -> Option<Timestamp>, today: int)
    requires WellFormed(t)
    requires forall i :: 0 <= i < |t.columns| ==> !Matches(t.columns[i], ClosedAliases)
    requires "State" !in t.columns
    ensures var out := RunOf(Some(t), parse, today).value;
      out.open == KeyError("State") && out.ages.None?
  {
    FirstMatchSpec(t.columns, ClosedAliases);
    PreparedTableShape(t, parse);
  }

  /** The column map's closed column is the one `prepare_data` picks, is a
      header, and is neither derived column. */
  lemma ClosedColumnResolved(t: Sheet)
    requires "closed" in ColumnMap(t.columns)
    ensures var col := ColumnMap(t.columns)["closed"];
      && col == ClosedColumn(t.columns) && col in t.columns
      && col != "created_date" && col != "age_hours"
  {
    var col := ColumnMap(t.columns)["closed"];
    ClosedColumnAgrees(t.columns);
    ColumnMapSpec(t.columns, 1);
    assert PossibleColumns[1] == ("closed", ClosedAliases);
    FirstMatchSpec(t.columns, ClosedAliases);
    var k :| IsFirstMatch(t.columns, ClosedAliases, k) && t.columns[k] == col;
    if col == "created_date" || col == "age_hours" {
      DerivedNotClosed(col);
    }
    MapFieldsInHeaders(t.columns, PossibleColumns);
  }

  /** The statistics count as open the rows whose closed cell is missing
      once converted to a date. */
  lemma StatsOpenIsParsedMissing(t: Sheet, parse: string -> Option<Timestamp>)
    requires WellFormed(t) && "closed" in ColumnMap(t.columns)
    ensures var columns := ColumnMap(t.columns);
      var parsed := DatetimeColumn(WithCreatedDate(t, columns, parse), columns["closed"], parse);
      && AnalysisOf(t, parse) == Analyzed(StatisticsOf(t, columns, parse))
      && StatisticsOf(t, columns, parse).currentOpen == Some(|Absent(parsed)|)
      && |parsed| == |t.rows|
      && forall j :: 0 <= j < |t.rows| ==> parsed[j] == ToDatetime(parse, Get(t.rows[j], columns["closed"]))
  {
    var columns := ColumnMap(t.columns);
    ClosedColumnResolved(t);
    ClosedDateCells(t, columns, parse);
    if "created" in columns {
      WithColumnSpec(t, "created_date", DatetimeColumn(t, columns["created"], parse));
      assert ColumnOf(WithCreatedDate(t, columns, parse).rows, columns["closed"]) == ColumnOf(t.rows, columns["closed"]);
    }
  }

  /** The priority section counts as open the rows whose raw closed cell is
      missing. */
  lemma PriorityOpenIsRawMissing(t: Sheet, parse: string -> Option<Timestamp>, col: string)
    requires WellFormed(t) && col in t.columns && col != "created_date" && col != "age_hours"
    ensures var o := OpenByPriority(PreparedTable(t, parse), col);
      o.Opened? && |o.rows| == |Absent(ColumnOf(t.rows, col))|
  {
    PreparedTableShape(t, parse);
    OpenRowsSpec(PreparedTable(t, parse).rows, col);
  }

  /** The statistics and the priority section disagree on which tickets are
      open: a closed cell holding text that does not parse as a date counts
      as open in the statistics, which look at the parsed date, and as
      closed in the priority section, which looks at the raw cell. */
  lemma OpenCountsDisagree(t: Sheet, parse: string -> Option<Timestamp>, today: int, i: int)
    requires WellFormed(t) && "closed" in ColumnMap(t.columns)
    requires 0 <= i < |t.rows|
    requires Get(t.rows[i], ColumnMap(t.columns)["closed"]).Text?
    requires parse(Get(t.rows[i], ColumnMap(t.columns)["closed"]).text).None?
    ensures var out := RunOf(Some(t), parse, today).value;
      && out.open.Opened? && out.summary.Some? && out.summary.value.currentOpen.Some?
      && |out.open.rows| < out.summary.value.currentOpen.value
  {
    var columns := ColumnMap(t.columns);
    var col := columns["closed"];
    ClosedColumnResolved(t);
    StatsOpenIsParsedMissing(t, parse);
    PriorityOpenIsRawMissing(t, parse, col);
    var parsed := DatetimeColumn(WithCreatedDate(t, columns, parse), col, parse);
    AbsentConvertedStrict(ColumnOf(t.rows, col), parsed, parse, i);
  }
}
