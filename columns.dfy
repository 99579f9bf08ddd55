/** The column resolver: which header of the spreadsheet stands for each
    logical field. A header stands for a field when its lower-cased text
    contains the lower-cased text of one of the field's aliases; the first
    such header in column order wins. */
module Columns {
  import opened Text
  import opened Seqs
  import opened Table

  const CreatedAliases: seq<string> :=
    ["Created", "CreateTime", "Create Time", "Date Created", "created", "creation_date"]
  const ClosedAliases: seq<string> :=
    ["Closed", "CloseTime", "Close Time", "Date Closed", "closed", "close_date"]
  const StateAliases: seq<string> :=
    ["State", "Status", "Ticket State", "state", "status"]
  const TicketNumberAliases: seq<string> :=
    ["Ticket Number", "TicketNumber", "Number", "ticket_number", "id"]

  /** The logical fields with their aliases, in the order they are resolved. */
  const PossibleColumns: seq<(string, seq<string>)> :=
    [("created", CreatedAliases), ("closed", ClosedAliases),
     ("state", StateAliases), ("ticket_number", TicketNumberAliases)]

  /** The field whose absence sends the closed-column lookup to its fallback. */
  const StateFallback: string := "State"

  /** `any(name.lower() in col.lower() for name in aliases)` */
  predicate Matches(header: string, aliases: seq<string>)
  {
    exists a :: a in aliases && Contains(Lower(header), Lower(a))
  }

  /** `headers[i]` is the header the scan settles on: it matches and no
      header before it does. */
  ghost predicate IsFirstMatch(headers: seq<string>, aliases: seq<string>, i: int)
  {
    && 0 <= i < |headers|
    && Matches(headers[i], aliases)
    && forall j :: 0 <= j < i ==> !Matches(headers[j], aliases)
  }

  /** The first header, from index `from` on, that matches one of the aliases. */
  function FirstMatchFrom(headers: seq<string>, aliases: seq<string>, from: nat): Option<string>
    decreases |headers| - from
  {
    if from >= |headers| then None
    else if Matches(headers[from], aliases) then Some(headers[from])
    else FirstMatchFrom(headers, aliases, from + 1)
  }

  /** The header a field resolves to, if any. */
  function FirstMatch(headers: seq<string>, aliases: seq<string>): Option<string>
  {
    FirstMatchFrom(headers, aliases, 0)
  }

  lemma {:induction false} FirstMatchFromSpec(headers: seq<string>, aliases: seq<string>, from: nat)
    requires from <= |headers|
    requires forall j :: 0 <= j < from ==> !Matches(headers[j], aliases)
    ensures FirstMatchFrom(headers, aliases, from).None?
        <==> forall j :: 0 <= j < |headers| ==> !Matches(headers[j], aliases)
    ensures FirstMatchFrom(headers, aliases, from).Some? ==>
        exists i :: IsFirstMatch(headers, aliases, i) && headers[i] == FirstMatchFrom(headers, aliases, from).value
    decreases |headers| - from
  {
    if from < |headers| {
      if Matches(headers[from], aliases) {
        assert IsFirstMatch(headers, aliases, from);
      } else {
        FirstMatchFromSpec(headers, aliases, from + 1);
      }
    }
  }

  /** A field resolves to nothing exactly when no header matches any of its
      aliases; otherwise it resolves to the first matching header in column
      order. */
  lemma FirstMatchSpec(headers: seq<string>, aliases: seq<string>)
    ensures FirstMatch(headers, aliases).None?
        <==> forall j :: 0 <= j < |headers| ==> !Matches(headers[j], aliases)
    ensures FirstMatch(headers, aliases).Some? ==>
        exists i :: IsFirstMatch(headers, aliases, i) && headers[i] == FirstMatch(headers, aliases).value
  {
    FirstMatchFromSpec(headers, aliases, 0);
  }

  /** At most one header is the first match. */
  lemma FirstMatchUnique(headers: seq<string>, aliases: seq<string>, i: int, j: int)
    requires IsFirstMatch(headers, aliases, i) && IsFirstMatch(headers, aliases, j)
    ensures i == j
  {
  }

  /** The loop over `df.columns` that stops at the first matching header. */
  method FindColumn(headers: seq<string>, aliases: seq<string>) returns (found: Option<string>)
    ensures found == FirstMatch(headers, aliases)
    ensures found.None? <==> forall j :: 0 <= j < |headers| ==> !Matches(headers[j], aliases)
    ensures found.Some? ==> exists i :: IsFirstMatch(headers, aliases, i) && headers[i] == found.value
  {
    var i := 0;
    while i < |headers|
      invariant 0 <= i <= |headers|
      invariant forall j :: 0 <= j < i ==> !Matches(headers[j], aliases)
      invariant FirstMatchFrom(headers, aliases, i) == FirstMatch(headers, aliases)
    {
      if Matches(headers[i], aliases) {
        assert IsFirstMatch(headers, aliases, i);
        return Some(headers[i]);
      }
      i := i + 1;
    }
    return None;
  }

  /** The column map built from the first `|fields|` entries of the alias table. */
  function MapFields(headers: seq<string>, fields: seq<(string, seq<string>)>): map<string, string>
  {
    if fields == [] then map[]
    else
      var m := MapFields(headers, fields[..|fields| - 1]);
      var field := fields[|fields| - 1];
      match FirstMatch(headers, field.1)
      case None => m
      case Some(h) => m[field.0 := h]
  }

  /** `actual_columns`: every logical field that resolves, with its header. */
  function ColumnMap(headers: seq<string>): map<string, string>
  {
    MapFields(headers, PossibleColumns)
  }

  lemma {:induction false} MapFieldsSpec(headers: seq<string>, fields: seq<(string, seq<string>)>)
    requires Distinct(Keys(fields))
    ensures forall k :: k in MapFields(headers, fields) ==> k in Keys(fields)
    ensures forall n :: 0 <= n < |fields| ==>
      && (fields[n].0 in MapFields(headers, fields) <==> FirstMatch(headers, fields[n].1).Some?)
      && (fields[n].0 in MapFields(headers, fields) ==>
            MapFields(headers, fields)[fields[n].0] == FirstMatch(headers, fields[n].1).value)
  {
    if fields != [] {
      var init := fields[..|fields| - 1];
      var last := fields[|fields| - 1];
      assert Keys(init) == Keys(fields)[..|fields| - 1];
      MapFieldsSpec(headers, init);
      var m := MapFields(headers, init);
      var r := MapFields(headers, fields);
      assert r == if FirstMatch(headers, last.1).Some? then m[last.0 := FirstMatch(headers, last.1).value] else m;
      forall k | k in r ensures k in Keys(fields) {
        if k != last.0 {
          assert k in Keys(init);
        }
      }
      forall n | 0 <= n < |fields|
        ensures fields[n].0 in r <==> FirstMatch(headers, fields[n].1).Some?
        ensures fields[n].0 in r ==> r[fields[n].0] == FirstMatch(headers, fields[n].1).value
      {
        if n < |init| {
          assert Keys(fields)[n] != Keys(fields)[|fields| - 1];
          assert fields[n] == init[n];
        }
      }
    }
  }

  /** Every header the column map names is one of the table's headers. */
  lemma {:induction false} MapFieldsInHeaders(headers: seq<string>, fields: seq<(string, seq<string>)>)
    ensures forall k :: k in MapFields(headers, fields) ==> MapFields(headers, fields)[k] in headers
  {
    if fields != [] {
      MapFieldsInHeaders(headers, fields[..|fields| - 1]);
      FirstMatchSpec(headers, fields[|fields| - 1].1);
    }
  }

  /** The field names of an alias table. */
  function Keys(fields: seq<(string, seq<string>)>): (r: seq<string>)
    ensures |r| == |fields|
    ensures forall n :: 0 <= n < |fields| ==> r[n] == fields[n].0
  {
    seq(|fields|, n requires 0 <= n < |fields| => fields[n].0)
  }

  /** The column map has no key besides the four logical fields. */
  lemma ColumnMapKeys(headers: seq<string>)
    ensures forall k :: k in ColumnMap(headers) ==> k in {"created", "closed", "state", "ticket_number"}
  {
    assert Keys(PossibleColumns) == ["created", "closed", "state", "ticket_number"];
    MapFieldsSpec(headers, PossibleColumns);
  }

  /** The `n`-th logical field is in the column map exactly when some
      header matches one of its aliases, and then it maps to the first such
      header. */
  lemma ColumnMapSpec(headers: seq<string>, n: int)
    requires 0 <= n < |PossibleColumns|
    ensures var field := PossibleColumns[n];
      && (field.0 in ColumnMap(headers) <==> exists i :: 0 <= i < |headers| && Matches(headers[i], field.1))
      && (field.0 in ColumnMap(headers) ==>
            exists i :: IsFirstMatch(headers, field.1, i) && headers[i] == ColumnMap(headers)[field.0])
  {
    assert Keys(PossibleColumns) == ["created", "closed", "state", "ticket_number"];
    MapFieldsSpec(headers, PossibleColumns);
    FirstMatchSpec(headers, PossibleColumns[n].1);
  }

  /** The column map is empty, and the raw table is handed back instead of
      statistics, exactly when no header matches any alias of any field. */
  lemma ColumnMapEmpty(headers: seq<string>)
    ensures ColumnMap(headers) == map[]
        <==> forall n, i :: 0 <= n < |PossibleColumns| && 0 <= i < |headers| ==>
               !Matches(headers[i], PossibleColumns[n].1)
  {
    var m := ColumnMap(headers);
    assert Keys(PossibleColumns) == ["created", "closed", "state", "ticket_number"];
    MapFieldsSpec(headers, PossibleColumns);
    if m == map[] {
      forall n, i | 0 <= n < |PossibleColumns| && 0 <= i < |headers|
        ensures !Matches(headers[i], PossibleColumns[n].1)
      {
        assert PossibleColumns[n].0 !in m;
        FirstMatchSpec(headers, PossibleColumns[n].1);
      }
    } else {
      var k :| k in m;
      assert k in Keys(PossibleColumns);
      var n: int :| 0 <= n < |PossibleColumns| && Keys(PossibleColumns)[n] == k;
      FirstMatchSpec(headers, PossibleColumns[n].1);
      var i :| IsFirstMatch(headers, PossibleColumns[n].1, i) && headers[i] == FirstMatch(headers, PossibleColumns[n].1).value;
    }
  }

  /** The two nested loops that fill `actual_columns`. */
  method ResolveColumns(headers: seq<string>) returns (m: map<string, string>)
    ensures m == ColumnMap(headers)
  {
    m := map[];
    var n := 0;
    while n < |PossibleColumns|
      invariant 0 <= n <= |PossibleColumns|
      invariant m == MapFields(headers, PossibleColumns[..n])
    {
      var field := PossibleColumns[n];
      var found := FindColumn(headers, field.1);
      assert PossibleColumns[..n + 1][..n] == PossibleColumns[..n];
      if found.Some? {
        m := m[field.0 := found.value];
      }
      n := n + 1;
    }
    assert PossibleColumns[..n] == PossibleColumns;
  }

  /** The column `prepare_data` uses to tell open tickets: the first header
      matching a closed alias, or the literal "State" when none does. */
  function ClosedColumn(headers: seq<string>): string
  {
    match FirstMatch(headers, ClosedAliases)
    case Some(h) => h
    case None => StateFallback
  }

  /** The closed-column scan of `prepare_data` with its fallback. */
  method FindClosedColumn(headers: seq<string>) returns (col: string)
    ensures col == ClosedColumn(headers)
    ensures (forall i :: 0 <= i < |headers| ==> !Matches(headers[i], ClosedAliases)) ==> col == "State"
  {
    var found := FindColumn(headers, ClosedAliases);
    if found.None? {
      col := StateFallback;
    } else {
      col := found.value;
    }
  }

  /** Both lookups of the closed column agree when a header matches: the
      column map's "closed" entry is the column `prepare_data` picks.
      When nothing matches, the column map has no "closed" entry while
      `prepare_data` falls back to "State". */
  lemma ClosedColumnAgrees(headers: seq<string>)
    ensures "closed" in ColumnMap(headers) ==> ClosedColumn(headers) == ColumnMap(headers)["closed"]
    ensures "closed" !in ColumnMap(headers) ==> ClosedColumn(headers) == "State"
  {
    ColumnMapSpec(headers, 1);
    assert PossibleColumns[1] == ("closed", ClosedAliases);
    FirstMatchSpec(headers, ClosedAliases);
    if "closed" in ColumnMap(headers) {
      var i :| IsFirstMatch(headers, ClosedAliases, i) && headers[i] == ColumnMap(headers)["closed"];
      var i' :| IsFirstMatch(headers, ClosedAliases, i') && headers[i'] == FirstMatch(headers, ClosedAliases).value;
      FirstMatchUnique(headers, ClosedAliases, i, i');
    }
  }

  /** An occurrence of `n` at `i` puts any "cl" of `n` into `h`. */
  lemma ClOccurs(h: string, n: string, i: nat, k: nat)
    requires OccursAt(h, n, i) && k + 1 < |n| && n[k] == 'c' && n[k + 1] == 'l'
    ensures h[i + k] == 'c' && h[i + k + 1] == 'l'
  {
    assert h[i..i + |n|][k] == n[k];
    assert h[i..i + |n|][k + 1] == n[k + 1];
  }

  /** Text without a "cl" contains no needle that has one. */
  lemma NoClNoOccurrence(h: string, a: string)
    requires forall p :: 0 <= p < |h| - 1 ==> !(h[p] == 'c' && h[p + 1] == 'l')
    requires exists k :: 0 <= k < |a| - 1 && a[k] == 'c' && a[k + 1] == 'l'
    ensures !Contains(h, a)
  {
    var k :| 0 <= k < |a| - 1 && a[k] == 'c' && a[k + 1] == 'l';
    if Contains(h, a) {
      var i: nat :| OccursAt(h, a, i);
      ClOccurs(h, a, i, k);
      assert false;
    }
  }

  /** The derived columns the analysis adds, `created_date` and
      `age_hours`, never pass for the closed column: every closed alias
      contains "cl" and neither name does. */
  lemma DerivedNotClosed(h: string)
    requires h == "created_date" || h == "age_hours"
    ensures !Matches(h, ClosedAliases)
  {
    var hl := Lower(h);
    assert forall p :: 0 <= p < |hl| - 1 ==> !(hl[p] == 'c' && hl[p + 1] == 'l');
    forall a | a in ClosedAliases ensures !Contains(hl, Lower(a)) {
      var al := Lower(a);
      if a == "Date Closed" {
        assert al[5] == 'c' && al[6] == 'l';
      } else {
        assert al[0] == 'c' && al[1] == 'l';
      }
      NoClNoOccurrence(hl, al);
    }
  }

  /** The first-response column: the first header whose lower-cased text
      contains "firstresponse". */
  const FirstResponseKey: seq<string> := ["firstresponse"]

  lemma FirstResponseKeyMatches(header: string)
    ensures Matches(header, FirstResponseKey) <==> Contains(Lower(header), "firstresponse")
  {
    assert Lower("firstresponse") == "firstresponse";
    if Contains(Lower(header), "firstresponse") {
      assert "firstresponse" in FirstResponseKey;
    }
  }
}
