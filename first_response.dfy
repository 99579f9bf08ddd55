/** `analyze_firstresponse_empty`: the tickets whose first-response cell is
    blank, less those whose state reads closed or resolved, with their
    breakdown by priority in the fixed 1/2/3 order. */
module FirstResponse {
  import opened Text
  import opened Seqs
  import opened Table
  import opened Columns

  /** A first-response cell that is NaN or the empty string. */
  predicate IsBlank(c: Cell)
  {
    c.Missing? || c == Text("")
  }

  /** `state.str.lower().str.contains('closed|resolved', na=False)`: a text
      state that mentions either word, ignoring case. A cell that is not
      text gives NaN under `.str`, which `na=False` turns into false. */
  predicate ClosedOrResolved(c: Cell)
  {
    c.Text? && (Contains(Lower(c.text), "closed") || Contains(Lower(c.text), "resolved"))
  }

  /** The rows whose cell under `col` is blank (`df[nan_empty | empty_strings]`). */
  function BlankRows(rows: seq<Row>, col: string): seq<Row>
  {
    Where(rows, (r: Row) => IsBlank(Get(r, col)))
  }

  /** The rows whose `State` does not read closed or resolved. */
  function OpenStateRows(rows: seq<Row>): seq<Row>
  {
    Where(rows, (r: Row) => !ClosedOrResolved(Get(r, "State")))
  }

  /** The rows whose `State` does read closed or resolved. */
  function ClosedStateRows(rows: seq<Row>): seq<Row>
  {
    Where(rows, (r: Row) => ClosedOrResolved(Get(r, "State")))
  }

  /** `priority_order.get(priority, 999)`: the three known labels, matched
      exactly, rank 1 to 3; anything else ranks last. */
  function PriorityRank(c: Cell): (r: int)
    ensures r == 1 || r == 2 || r == 3 || r == 999
    ensures r == 1 <==> c == Text("1 very high")
    ensures r == 2 <==> c == Text("2 high")
    ensures r == 3 <==> c == Text("3 normal")
  {
    if c == Text("1 very high") then 1
    else if c == Text("2 high") then 2
    else if c == Text("3 normal") then 3
    else 999
  }

  function ByRank(p: (Cell, nat)): int
  {
    PriorityRank(p.0)
  }

  /** `sorted(value_counts(priority).items(), key=rank)`. */
  function PriorityBreakdown(rows: seq<Row>): seq<(Cell, nat)>
  {
    SortByKey(ValueCounts(ColumnOf(rows, "Priority")), ByRank)
  }

  /** The columns offered for the detailed listing, in display order. */
  function ShowColumns(col: string): seq<string>
  {
    ["Ticket Number", "Age", "Created", "Closed", "FirstLock", col, "State", "Priority"]
  }

  /** `[c for c in columns_to_show if c in df.columns]` */
  function DetailColumns(headers: seq<string>, col: string): seq<string>
  {
    Where(ShowColumns(col), (h: string) => h in headers)
  }

  /** What the first-response analysis reports. */
  datatype FirstResponseReport =
    | NoColumn(available: seq<string>)
    | Blanks(
        column: string,
        blankRows: seq<Row>,
        keptRows: seq<Row>,
        stateFiltered: bool,
        nanCount: nat,
        emptyCount: nat,
        detailColumns: seq<string>,
        byPriority: Option<seq<(Cell, nat)>>)

  /** The report over a table whose first-response column is `col`. */
  function ReportOn(t: Sheet, col: string): FirstResponseReport
  {
    var cells := ColumnOf(t.rows, col);
    var blank := BlankRows(t.rows, col);
    var filtered := "State" in t.columns;
    var kept := if filtered then OpenStateRows(blank) else blank;
    Blanks(col, blank, kept, filtered, |Absent(cells)|, CountOf(cells, Text("")),
           DetailColumns(t.columns, col),
           if "Priority" in t.columns then Some(PriorityBreakdown(kept)) else None)
  }

  /** The whole analysis: the first header containing "firstresponse",
      ignoring case, is the column; without one the headers are listed. */
  function FirstResponseOf(t: Sheet): FirstResponseReport
  {
    match FirstMatch(t.columns, FirstResponseKey)
    case None => NoColumn(t.columns)
    case Some(col) => ReportOn(t, col)
  }

  /** The analysis on the table object; it adds nothing to the table. */
  method AnalyzeFirstResponseEmpty(df: DataFrame) returns (rep: FirstResponseReport)
    requires df.Valid()
    ensures rep == FirstResponseOf(df.Snapshot())
  {
    var found := FindColumn(df.columns, FirstResponseKey);
    if found.None? {
      return NoColumn(df.columns);
    }
    rep := ReportOn(df.Snapshot(), found.value);
  }

  /** The column is missing exactly when no header contains "firstresponse". */
  lemma NoColumnSpec(t: Sheet)
    ensures FirstResponseOf(t).NoColumn? <==>
      forall i :: 0 <= i < |t.columns| ==> !Contains(Lower(t.columns[i]), "firstresponse")
  {
    FirstMatchSpec(t.columns, FirstResponseKey);
    forall i | 0 <= i < |t.columns|
      ensures Matches(t.columns[i], FirstResponseKey) <==> Contains(Lower(t.columns[i]), "firstresponse")
    {
      FirstResponseKeyMatches(t.columns[i]);
    }
  }

  /** The blank rows are the NaN rows plus the empty-string rows: both
      counts are taken over the whole column and no cell is both. */
  lemma {:induction false} BlankCount(rows: seq<Row>, col: string)
    ensures |BlankRows(rows, col)| == |Absent(ColumnOf(rows, col))| + CountOf(ColumnOf(rows, col), Text(""))
  {
    if rows != [] {
      BlankCount(rows[1..], col);
      assert ColumnOf(rows, col)[1..] == ColumnOf(rows[1..], col);
    }
  }

  /** A row is kept exactly when it is a row of the table, its
      first-response cell is blank and, when there is a `State` column, its
      state does not read closed or resolved. */
  lemma KeptRowsSpec(t: Sheet, col: string, r: Row)
    ensures var rep := ReportOn(t, col);
      r in rep.keptRows <==>
        r in t.rows && IsBlank(Get(r, col)) && ("State" in t.columns ==> !ClosedOrResolved(Get(r, "State")))
  {
    var blank := BlankRows(t.rows, col);
    if r in t.rows && IsBlank(Get(r, col)) {
      var i :| 0 <= i < |t.rows| && t.rows[i] == r;
      assert r in blank;
      if "State" in t.columns && !ClosedOrResolved(Get(r, "State")) {
        var j :| 0 <= j < |blank| && blank[j] == r;
      }
    }
    if "State" in t.columns && r in OpenStateRows(blank) {
      var j :| 0 <= j < |OpenStateRows(blank)| && OpenStateRows(blank)[j] == r;
    }
  }

  /** The state filter only removes rows, and the number it removes is the
      number of blank rows whose state reads closed or resolved; without a
      `State` column nothing is removed. */
  lemma ExcludedCount(t: Sheet, col: string)
    ensures var rep := ReportOn(t, col);
      && |rep.keptRows| <= |rep.blankRows|
      && |rep.blankRows| - |rep.keptRows| == (if rep.stateFiltered then |ClosedStateRows(rep.blankRows)| else 0)
      && (!rep.stateFiltered ==> rep.keptRows == rep.blankRows)
  {
    var blank := BlankRows(t.rows, col);
    WhereComplement(blank, (r: Row) => !ClosedOrResolved(Get(r, "State")), (r: Row) => ClosedOrResolved(Get(r, "State")));
  }

  /** The first-response column itself always exists, so the detailed
      listing always has a column to show. */
  lemma DetailColumnsNonEmpty(t: Sheet)
    requires FirstResponseOf(t).Blanks?
    ensures FirstResponseOf(t).column in FirstResponseOf(t).detailColumns
  {
    var col := FirstResponseOf(t).column;
    FirstMatchSpec(t.columns, FirstResponseKey);
    assert ShowColumns(col)[5] == col;
  }

  /** Each line of the priority breakdown is a priority among the rows
      with its exact count, and the lines are those of `value_counts`. */
  lemma PriorityBreakdownEntries(rows: seq<Row>)
    ensures var b := PriorityBreakdown(rows);
      var cells := ColumnOf(rows, "Priority");
      && multiset(b) == multiset(ValueCounts(cells))
      && forall i :: 0 <= i < |b| ==> b[i].0 in cells && !b[i].0.Missing? && b[i].1 == CountOf(Present(cells), b[i].0)
  {
    var cells := ColumnOf(rows, "Priority");
    ValueCountsEntries(cells);
    PermutationKeeps(PriorityBreakdown(rows), ValueCounts(cells),
      (e: (Cell, nat)) => e.0 in cells && !e.0.Missing? && e.1 == CountOf(Present(cells), e.0));
  }

  /** The breakdown is in rank order: 1 very high, 2 high, 3 normal, then
      every other priority. */
  lemma PriorityBreakdownOrdered(rows: seq<Row>)
    ensures var b := PriorityBreakdown(rows);
      forall i, j :: 0 <= i < j < |b| ==> PriorityRank(b[i].0) <= PriorityRank(b[j].0)
  {
    var b := PriorityBreakdown(rows);
    forall i, j | 0 <= i < j < |b| ensures PriorityRank(b[i].0) <= PriorityRank(b[j].0) {
      assert ByRank(b[i]) <= ByRank(b[j]);
    }
  }

  /** The sort is stable: priorities of equal rank (the unknown ones, all
      ranked 999) keep the most-frequent-first order of `value_counts`. */
  lemma PriorityBreakdownStable(rows: seq<Row>, k: int)
    ensures WithKey(PriorityBreakdown(rows), ByRank, k) == WithKey(ValueCounts(ColumnOf(rows, "Priority")), ByRank, k)
  {
    SortByKeyStable(ValueCounts(ColumnOf(rows, "Priority")), ByRank, k);
  }

  /** Every priority present among the kept rows appears in the breakdown. */
  lemma PriorityBreakdownComplete(rows: seq<Row>, i: int)
    requires 0 <= i < |rows| && !Get(rows[i], "Priority").Missing?
    ensures Get(rows[i], "Priority") in Labels(PriorityBreakdown(rows))
  {
    var cells := ColumnOf(rows, "Priority");
    var vs := Present(cells);
    var vc := ValueCounts(cells);
    assert cells[i] in vs;
    var k :| 0 <= k < |vs| && vs[k] == cells[i];
    TallyComplete(vs, ByCountDescending);
    LabelsPermutation(PriorityBreakdown(rows), vc, cells[i]);
  }

  /** States are compared without regard to case. */
  lemma ClosedOrResolvedIgnoresCase(s: string)
    ensures ClosedOrResolved(Text(s)) <==> ClosedOrResolved(Text(Lower(s)))
  {
    LowerIdempotent(s);
  }
}
