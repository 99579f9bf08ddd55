/** `analyze_ticket_statistics` and `analyze_otrs_tickets`: the daily new
    and closed counts, the number of open tickets and the state
    distribution, computed over the columns the resolver found. */
module Statistics {
  import opened Seqs
  import opened Table
  import opened Columns

  /** The calendar day of each parsed date, in row order: `.dt.date`, with
      the NaT cells left out as `value_counts` leaves them out. */
  function StampDays(cells: seq<Cell>): (r: seq<int>)
    ensures |r| <= |cells|
  {
    if cells == [] then []
    else (if cells[0].Stamp? then [cells[0].time.day] else []) + StampDays(cells[1..])
  }

  /** In a converted date column every present cell is a date, so there is
      one day per present cell. */
  lemma {:induction false} StampDaysCount(cells: seq<Cell>)
    requires forall i :: 0 <= i < |cells| ==> cells[i].Missing? || cells[i].Stamp?
    ensures |StampDays(cells)| == |Present(cells)|
  {
    if cells != [] {
      StampDaysCount(cells[1..]);
    }
  }

  function ByDay(p: (int, nat)): int
  {
    p.0
  }

  /** `dates.value_counts().sort_index()`: each day that occurs with its
      number of occurrences, in increasing day order. */
  function DayCounts(days: seq<int>): seq<(int, nat)>
  {
    Tally(days, ByDay)
  }

  /** The per-day counts list each day of `days` once, in strictly
      increasing order, each with its exact number of occurrences, and add
      up to the number of days. */
  lemma DayCountsSpec(days: seq<int>)
    ensures var r := DayCounts(days);
      && (forall i, j :: 0 <= i < j < |r| ==> r[i].0 < r[j].0)
      && (forall i :: 0 <= i < |r| ==> r[i].0 in days && r[i].1 == CountOf(days, r[i].0))
      && (forall k :: 0 <= k < |days| ==> days[k] in Labels(r))
      && Total(r) == |days|
  {
    var r := DayCounts(days);
    TallyEntries(days, ByDay);
    TallyComplete(days, ByDay);
    TallyDistinct(days, ByDay);
    TallyTotal(days, ByDay);
    forall i, j | 0 <= i < j < |r| ensures r[i].0 < r[j].0 {
      assert ByDay(r[i]) <= ByDay(r[j]);
      assert Labels(r)[i] != Labels(r)[j];
    }
  }

  /** What `analyze_ticket_statistics` returns, plus the state distribution
      it prints. Each part is absent when its column was not resolved; the
      daily closed counts are absent as well when no ticket is closed. */
  datatype Stats = Stats(
    dailyNew: Option<seq<(int, nat)>>,
    dailyClosed: Option<seq<(int, nat)>>,
    currentOpen: Option<nat>,
    stateCounts: Option<seq<(Cell, nat)>>)

  /** Every header the column map names is a column of the table. */
  predicate MapsInto(columns: map<string, string>, t: Sheet)
  {
    forall k :: k in columns ==> columns[k] in t.columns
  }

  /** `df['created_date'] = pd.to_datetime(df[columns['created']])`, when
      the created column is resolved. */
  function WithCreatedDate(t: Sheet, columns: map<string, string>, parse: string -> Option<Timestamp>): Sheet
  {
    if "created" in columns then WithColumn(t, "created_date", DatetimeColumn(t, columns["created"], parse))
    else t
  }

  /** `df['closed_date'] = pd.to_datetime(df[columns['closed']])`, when the
      closed column is resolved. */
  function WithClosedDate(t: Sheet, columns: map<string, string>, parse: string -> Option<Timestamp>): Sheet
  {
    if "closed" in columns then WithColumn(t, "closed_date", DatetimeColumn(t, columns["closed"], parse))
    else t
  }

  /** The table once both derived date columns are in place. */
  function StatisticsTable(t: Sheet, columns: map<string, string>, parse: string -> Option<Timestamp>): Sheet
  {
    WithClosedDate(WithCreatedDate(t, columns, parse), columns, parse)
  }

  /** The statistics, read off the table as the derived columns are added. */
  function StatisticsOf(t: Sheet, columns: map<string, string>, parse: string -> Option<Timestamp>): Stats
  {
    var t1 := WithCreatedDate(t, columns, parse);
    var t2 := WithClosedDate(t1, columns, parse);
    var closedCells := ColumnOf(t2.rows, "closed_date");
    Stats(
      if "created" in columns then Some(DayCounts(StampDays(ColumnOf(t1.rows, "created_date")))) else None,
      if "closed" in columns && Present(closedCells) != [] then Some(DayCounts(StampDays(closedCells))) else None,
      if "closed" in columns then Some(|Absent(closedCells)|) else None,
      if "closed" in columns && "state" in columns then Some(ValueCounts(ColumnOf(t2.rows, columns["state"]))) else None)
  }

  /** The statistics pass over the table object, adding `created_date` and
      `closed_date` to it in place. */
  method AnalyzeTicketStatistics(df: DataFrame, columns: map<string, string>, parse: string -> Option<Timestamp>)
    returns (stats: Stats)
    requires df.Valid() && MapsInto(columns, df.Snapshot())
    modifies df
    ensures df.Valid()
    ensures df.Snapshot() == StatisticsTable(old(df.Snapshot()), columns, parse)
    ensures stats == StatisticsOf(old(df.Snapshot()), columns, parse)
  {
    var dailyNew: Option<seq<(int, nat)>> := None;
    var dailyClosed: Option<seq<(int, nat)>> := None;
    var currentOpen: Option<nat> := None;
    var stateCounts: Option<seq<(Cell, nat)>> := None;
    if "created" in columns {
      df.SetColumn("created_date", DatetimeColumn(df.Snapshot(), columns["created"], parse));
      dailyNew := Some(DayCounts(StampDays(ColumnOf(df.rows, "created_date"))));
    }
    if "closed" in columns {
      df.SetColumn("closed_date", DatetimeColumn(df.Snapshot(), columns["closed"], parse));
      var closedCells := ColumnOf(df.rows, "closed_date");
      if Present(closedCells) != [] {
        dailyClosed := Some(DayCounts(StampDays(closedCells)));
      }
      currentOpen := Some(|Absent(closedCells)|);
      if "state" in columns {
        stateCounts := Some(ValueCounts(ColumnOf(df.rows, columns["state"])));
      }
    }
    stats := Stats(dailyNew, dailyClosed, currentOpen, stateCounts);
  }

  /** The cells under `closed_date` are the closed column converted. */
  lemma ClosedDateCells(t: Sheet, columns: map<string, string>, parse: string -> Option<Timestamp>)
    requires WellFormed(t) && "closed" in columns
    ensures var t1 := WithCreatedDate(t, columns, parse);
      ColumnOf(StatisticsTable(t, columns, parse).rows, "closed_date") == DatetimeColumn(t1, columns["closed"], parse)
    ensures |WithCreatedDate(t, columns, parse).rows| == |t.rows|
  {
    if "created" in columns {
      WithColumnSpec(t, "created_date", DatetimeColumn(t, columns["created"], parse));
    }
    var t1 := WithCreatedDate(t, columns, parse);
    WithColumnSpec(t1, "closed_date", DatetimeColumn(t1, columns["closed"], parse));
  }

  /** The daily new counts add up to the number of rows whose creation
      date parses. */
  lemma DailyNewTotal(t: Sheet, columns: map<string, string>, parse: string -> Option<Timestamp>)
    requires WellFormed(t) && "created" in columns
    ensures var s := StatisticsOf(t, columns, parse);
      s.dailyNew.Some? && Total(s.dailyNew.value) == |Present(DatetimeColumn(t, columns["created"], parse))|
  {
    var cells := DatetimeColumn(t, columns["created"], parse);
    WithColumnSpec(t, "created_date", cells);
    StampDaysCount(cells);
    TallyTotal(StampDays(cells), ByDay);
  }

  /** Once the closed column is resolved, every row is either counted as
      open or counted on the day it was closed. */
  lemma OpenPlusClosed(t: Sheet, columns: map<string, string>, parse: string -> Option<Timestamp>)
    requires WellFormed(t) && "closed" in columns
    ensures var s := StatisticsOf(t, columns, parse);
      && s.currentOpen.Some?
      && s.currentOpen.value + (if s.dailyClosed.Some? then Total(s.dailyClosed.value) else 0) == |t.rows|
  {
    var t1 := WithCreatedDate(t, columns, parse);
    var cells := DatetimeColumn(t1, columns["closed"], parse);
    ClosedDateCells(t, columns, parse);
    PresentAbsentSplit(cells);
    StampDaysCount(cells);
    TallyTotal(StampDays(cells), ByDay);
  }

  /** The sorted union of two lists of days, each day once. */
  function UnionDays(a: seq<int>, b: seq<int>): seq<int>
  {
    SortByKey(FirstSeen(a + b), ByValue)
  }

  function ByValue(d: int): int
  {
    d
  }

  /** The union lists its days in strictly increasing order. */
  lemma UnionDaysIncreasing(a: seq<int>, b: seq<int>)
    ensures var u := UnionDays(a, b); forall i, j :: 0 <= i < j < |u| ==> u[i] < u[j]
  {
    var fs := FirstSeen(a + b);
    var u := UnionDays(a, b);
    DistinctByMultiset(u, fs);
    forall i, j | 0 <= i < j < |u| ensures u[i] < u[j] {
      assert ByValue(u[i]) <= ByValue(u[j]);
      assert u[i] != u[j];
    }
  }

  /** A day is in the union exactly when it is in one of the two lists. */
  lemma UnionDaysMembers(a: seq<int>, b: seq<int>, d: int)
    ensures d in UnionDays(a, b) <==> d in a || d in b
  {
    var all := a + b;
    var fs := FirstSeen(all);
    var u := UnionDays(a, b);
    if d in u {
      assert d in multiset(fs);
      var k :| 0 <= k < |fs| && fs[k] == d;
      assert d in all;
    }
    if d in a || d in b {
      assert d in all;
      var k :| 0 <= k < |all| && all[k] == d;
      assert d in fs;
      assert d in multiset(u);
    }
  }

  /** The line-per-day table printed when both counts exist: the sorted
      union of the days of both, each with its new and closed count
      (`series.get(day, 0)`). */
  function MergeDaily(dailyNew: seq<(int, nat)>, dailyClosed: seq<(int, nat)>): seq<(int, nat, nat)>
  {
    var days := UnionDays(Labels(dailyNew), Labels(dailyClosed));
    seq(|days|, i requires 0 <= i < |days| => (days[i], Lookup(dailyNew, days[i]), Lookup(dailyClosed, days[i])))
  }

  /** The merged table, when both daily counts exist. */
  function DailyTable(s: Stats): Option<seq<(int, nat, nat)>>
  {
    if s.dailyNew.Some? && s.dailyClosed.Some? then Some(MergeDaily(s.dailyNew.value, s.dailyClosed.value))
    else None
  }

  /** Each line of the merged table is a day on which a ticket was created
      or closed, with the number created and the number closed that day
      (0 for a day missing on one side), in strictly increasing day order. */
  lemma MergeDailyLines(newDays: seq<int>, closedDays: seq<int>)
    ensures var r := MergeDaily(DayCounts(newDays), DayCounts(closedDays));
      && (forall i, j :: 0 <= i < j < |r| ==> r[i].0 < r[j].0)
      && (forall i :: 0 <= i < |r| ==> r[i].0 in newDays || r[i].0 in closedDays)
      && (forall i :: 0 <= i < |r| ==> r[i].1 == CountOf(newDays, r[i].0) && r[i].2 == CountOf(closedDays, r[i].0))
  {
    var nc := DayCounts(newDays);
    var cc := DayCounts(closedDays);
    var days := UnionDays(Labels(nc), Labels(cc));
    var r := MergeDaily(nc, cc);
    UnionDaysIncreasing(Labels(nc), Labels(cc));
    TallyEntries(newDays, ByDay);
    TallyEntries(closedDays, ByDay);
    forall i | 0 <= i < |r|
      ensures r[i].0 in newDays || r[i].0 in closedDays
      ensures r[i].1 == CountOf(newDays, r[i].0) && r[i].2 == CountOf(closedDays, r[i].0)
    {
      var d := days[i];
      UnionDaysMembers(Labels(nc), Labels(cc), d);
      if d in Labels(nc) {
        var m :| 0 <= m < |nc| && Labels(nc)[m] == d;
        assert nc[m].0 in newDays;
      } else {
        var m :| 0 <= m < |cc| && Labels(cc)[m] == d;
        assert cc[m].0 in closedDays;
      }
      TallyLookup(newDays, ByDay, d);
      TallyLookup(closedDays, ByDay, d);
    }
  }

  /** Every day on which a ticket was created or closed has a line. */
  lemma MergeDailyCovers(newDays: seq<int>, closedDays: seq<int>, d: int)
    requires d in newDays || d in closedDays
    ensures var r := MergeDaily(DayCounts(newDays), DayCounts(closedDays));
      exists i :: 0 <= i < |r| && r[i].0 == d
  {
    var nc := DayCounts(newDays);
    var cc := DayCounts(closedDays);
    var days := UnionDays(Labels(nc), Labels(cc));
    var r := MergeDaily(nc, cc);
    TallyComplete(newDays, ByDay);
    TallyComplete(closedDays, ByDay);
    assert d in Labels(nc) || d in Labels(cc);
    UnionDaysMembers(Labels(nc), Labels(cc), d);
    var i :| 0 <= i < |days| && days[i] == d;
    assert r[i].0 == d;
  }

  /** The merged table is printed exactly when the table has a created
      column, a closed column, and at least one closed date that parses. */
  lemma DailyTablePresent(t: Sheet, columns: map<string, string>, parse: string -> Option<Timestamp>)
    ensures var closedCells := ColumnOf(StatisticsTable(t, columns, parse).rows, "closed_date");
      DailyTable(StatisticsOf(t, columns, parse)).Some?
      <==> "created" in columns && "closed" in columns && Present(closedCells) != []
  {
  }

  /** When printed, the merged table has one line per day on which a ticket
      was created or closed, in increasing day order, each with the number
      of tickets created and closed that day. */
  lemma DailyTableLines(t: Sheet, columns: map<string, string>, parse: string -> Option<Timestamp>)
    requires WellFormed(t)
    requires DailyTable(StatisticsOf(t, columns, parse)).Some?
    ensures "created" in columns && "closed" in columns
    ensures var newDays := StampDays(DatetimeColumn(t, columns["created"], parse));
      var closedDays := StampDays(ColumnOf(StatisticsTable(t, columns, parse).rows, "closed_date"));
      var r := DailyTable(StatisticsOf(t, columns, parse)).value;
      && (forall i, j :: 0 <= i < j < |r| ==> r[i].0 < r[j].0)
      && (forall i :: 0 <= i < |r| ==> r[i].0 in newDays || r[i].0 in closedDays)
      && (forall i :: 0 <= i < |r| ==> r[i].1 == CountOf(newDays, r[i].0) && r[i].2 == CountOf(closedDays, r[i].0))
      && (forall d :: d in newDays || d in closedDays ==> exists i :: 0 <= i < |r| && r[i].0 == d)
  {
    WithColumnSpec(t, "created_date", DatetimeColumn(t, columns["created"], parse));
    var newDays := StampDays(DatetimeColumn(t, columns["created"], parse));
    var closedDays := StampDays(ColumnOf(StatisticsTable(t, columns, parse).rows, "closed_date"));
    MergeDailyLines(newDays, closedDays);
    forall d | d in newDays || d in closedDays
      ensures exists i :: 0 <= i < |MergeDaily(DayCounts(newDays), DayCounts(closedDays))| && MergeDaily(DayCounts(newDays), DayCounts(closedDays))[i].0 == d
    {
      MergeDailyCovers(newDays, closedDays, d);
    }
  }

  /** A strictly increasing list holding exactly the days 1 and 2. */
  lemma TwoDays(u: seq<int>)
    requires forall i, j :: 0 <= i < j < |u| ==> u[i] < u[j]
    requires forall d :: d in u <==> d == 1 || d == 2
    ensures u == [1, 2]
  {
    assert 1 in u && 2 in u;
    forall i | 0 <= i < |u| ensures u[i] == 1 || u[i] == 2 {
      assert u[i] in u;
    }
    var i1 :| 0 <= i1 < |u| && u[i1] == 1;
    var i2 :| 0 <= i2 < |u| && u[i2] == 2;
    assert |u| == 2 && u[0] < u[1];
    assert u == [u[0], u[1]];
  }

  /** The union of the days 1, 2 and the day 1 is 1, 2. */
  lemma UnionDaysExample(a: seq<int>, b: seq<int>)
    requires |a| == 2 && a[0] == 1 && a[1] == 2 && |b| == 1 && b[0] == 1
    ensures UnionDays(a, b) == [1, 2]
  {
    var u := UnionDays(a, b);
    UnionDaysIncreasing(a, b);
    forall d ensures d in u <==> d == 1 || d == 2 {
      UnionDaysMembers(a, b, d);
    }
    TwoDays(u);
  }

  /** Day 1 with 2 new tickets and day 2 with 1 new ticket, merged with
      day 1 with 1 closed ticket, give the lines (1, 2, 1) and (2, 1, 0). */
  lemma MergeDailyExample(dailyNew: seq<(int, nat)>, dailyClosed: seq<(int, nat)>)
    requires |dailyNew| == 2 && dailyNew[0] == (1, 2) && dailyNew[1] == (2, 1)
    requires |dailyClosed| == 1 && dailyClosed[0] == (1, 1)
    ensures MergeDaily(dailyNew, dailyClosed) == [(1, 2, 1), (2, 1, 0)]
  {
    UnionDaysExample(Labels(dailyNew), Labels(dailyClosed));
    assert dailyNew[1..][0] == (2, 1) && dailyClosed[1..] == [];
    assert Lookup(dailyNew, 1) == 2 && Lookup(dailyClosed, 1) == 1;
    assert Lookup(dailyNew, 2) == Lookup(dailyNew[1..], 2) == 1;
    assert Lookup(dailyClosed, 2) == Lookup(dailyClosed[1..], 2) == 0;
    var r := MergeDaily(dailyNew, dailyClosed);
    assert |r| == 2 && r[0] == (1, 2, 1) && r[1] == (2, 1, 0);
  }

  /** What `analyze_otrs_tickets` hands back: the raw table when no column
      could be resolved, the statistics otherwise. */
  datatype Analysis = Unmapped(raw: Sheet) | Analyzed(stats: Stats)

  function AnalysisOf(t: Sheet, parse: string -> Option<Timestamp>): Analysis
  {
    var columns := ColumnMap(t.columns);
    if columns == map[] then Unmapped(t) else Analyzed(StatisticsOf(t, columns, parse))
  }

  /** The raw table comes back, and no statistics are computed, exactly
      when no header matches any alias of any field. */
  lemma AnalysisUnmapped(t: Sheet, parse: string -> Option<Timestamp>)
    ensures AnalysisOf(t, parse).Unmapped? <==>
      forall n, i :: 0 <= n < |PossibleColumns| && 0 <= i < |t.columns| ==>
        !Matches(t.columns[i], PossibleColumns[n].1)
    ensures AnalysisOf(t, parse).Unmapped? ==> AnalysisOf(t, parse).raw == t
  {
    ColumnMapEmpty(t.columns);
  }

  /** `analyze_otrs_tickets` on a table already read: resolve the columns
      with the two nested loops, then run the statistics on a table object
      of its own. */
  method AnalyzeOtrsTickets(t: Sheet, parse: string -> Option<Timestamp>) returns (a: Analysis)
    requires WellFormed(t)
    ensures a == AnalysisOf(t, parse)
  {
    var df := new DataFrame(t);
    var columns := ResolveColumns(df.columns);
    if columns == map[] {
      return Unmapped(t);
    }
    MapFieldsInHeaders(t.columns, PossibleColumns);
    var stats := AnalyzeTicketStatistics(df, columns, parse);
    return Analyzed(stats);
  }
}
