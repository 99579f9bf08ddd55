/** `parse_age_to_hours`: the free-text ticket age ("2 h 10 m", "1 d 12 h")
    as a number of hours. Each unit's amount is the number in the leftmost
    match of `(\d+)\s*<unit>` in the lower-cased text; a unit that does not
    match counts 0. Arithmetic is exact: the result is a `real`. */
module Age {
  import opened Text
  import opened Table

  /** `\d`, restricted to the ASCII digits. */
  predicate IsDigit(c: char)
  {
    '0' <= c <= '9'
  }

  /** `\s` in a `str` pattern: the characters for which `str.isspace()` holds. */
  predicate IsSpace(c: char)
  {
    || c == ' ' || '\t' <= c <= '\r' || '\U{1C}' <= c <= '\U{1F}'
    || c == '\U{85}' || c == '\U{A0}' || c == '\U{1680}' || '\U{2000}' <= c <= '\U{200A}'
    || c == '\U{2028}' || c == '\U{2029}' || c == '\U{202F}' || c == '\U{205F}' || c == '\U{3000}'
  }

  /** The length of the run of digits that starts at `i`. */
  function DigitRun(s: string, i: nat): (n: nat)
    requires i <= |s|
    ensures i + n <= |s|
    ensures forall p :: i <= p < i + n ==> IsDigit(s[p])
    ensures i + n < |s| ==> !IsDigit(s[i + n])
    decreases |s| - i
  {
    if i < |s| && IsDigit(s[i]) then 1 + DigitRun(s, i + 1) else 0
  }

  /** The length of the run of whitespace that starts at `i`. */
  function SpaceRun(s: string, i: nat): (n: nat)
    requires i <= |s|
    ensures i + n <= |s|
    ensures forall p :: i <= p < i + n ==> IsSpace(s[p])
    ensures i + n < |s| ==> !IsSpace(s[i + n])
    decreases |s| - i
  {
    if i < |s| && IsSpace(s[i]) then 1 + SpaceRun(s, i + 1) else 0
  }

  /** The regular expression `(\d+)\s*<unit>` matches `s` at `i` with the
      group `s[i..k]`, the blanks `s[k..j]` and the unit letter at `j`. */
  ghost predicate MatchSpan(s: string, unit: char, i: int, k: int, j: int)
  {
    && 0 <= i < k <= j < |s|
    && (forall p :: i <= p < k ==> IsDigit(s[p]))
    && (forall p :: k <= p < j ==> IsSpace(s[p]))
    && s[j] == unit
  }

  /** The regular expression matches at `i` in some way. */
  ghost predicate MatchesAt(s: string, unit: char, i: int)
  {
    exists k, j :: MatchSpan(s, unit, i, k, j)
  }

  /** The unit letters of the parser: neither digits nor whitespace. */
  predicate IsUnit(unit: char)
  {
    unit == 'd' || unit == 'h' || unit == 'm'
  }

  /** The backtracking matcher at `i`: take all the digits, then all the
      blanks, then expect the unit. Returns the end of the digit group. */
  function GreedyMatch(s: string, unit: char, i: nat): Option<nat>
    requires i <= |s|
  {
    if i < |s| && IsDigit(s[i]) then
      var k := i + DigitRun(s, i);
      var j := k + SpaceRun(s, k);
      if j < |s| && s[j] == unit then Some(k) else None
    else None
  }

  /** What the greedy matcher finds is a match of the regular expression. */
  lemma GreedyMatchSound(s: string, unit: char, i: nat)
    requires i <= |s| && GreedyMatch(s, unit, i).Some?
    ensures var k := GreedyMatch(s, unit, i).value; MatchSpan(s, unit, i, k, k + SpaceRun(s, k))
  {
  }

  /** Any match of the regular expression at `i` has the group the greedy
      matcher reports: a unit letter is neither a digit nor a blank, so
      backtracking never finds another split. */
  lemma GreedyMatchComplete(s: string, unit: char, i: int, k: int, j: int)
    requires IsUnit(unit) && MatchSpan(s, unit, i, k, j)
    ensures GreedyMatch(s, unit, i) == Some(k)
  {
    assert !IsDigit(s[k]);
    assert !IsSpace(s[j]);
  }

  /** Taking everything greedily loses no match, and finds nothing that is
      not one. */
  lemma GreedyMatchIsRegex(s: string, unit: char, i: nat)
    requires IsUnit(unit) && i <= |s|
    ensures GreedyMatch(s, unit, i).Some? <==> MatchesAt(s, unit, i)
    ensures forall k, j :: MatchSpan(s, unit, i, k, j) ==> GreedyMatch(s, unit, i) == Some(k)
  {
    if GreedyMatch(s, unit, i).Some? {
      GreedyMatchSound(s, unit, i);
    }
    forall k, j | MatchSpan(s, unit, i, k, j) ensures GreedyMatch(s, unit, i) == Some(k) {
      GreedyMatchComplete(s, unit, i, k, j);
    }
  }

  /** `re.search`: the leftmost position, from `from` on, where the greedy
      matcher succeeds. */
  function Search(s: string, unit: char, from: nat): (r: Option<nat>)
    requires from <= |s|
    ensures r.Some? ==> from <= r.value < |s|
    decreases |s| - from
  {
    if from == |s| then None
    else if GreedyMatch(s, unit, from).Some? then Some(from)
    else Search(s, unit, from + 1)
  }

  /** A position the search reports is one where the matcher succeeds,
      and it fails at every position before it. */
  lemma {:induction false} SearchFound(s: string, unit: char, from: nat)
    requires from <= |s| && Search(s, unit, from).Some?
    ensures GreedyMatch(s, unit, Search(s, unit, from).value).Some?
    ensures forall p :: from <= p < Search(s, unit, from).value ==> GreedyMatch(s, unit, p).None?
    decreases |s| - from
  {
    if GreedyMatch(s, unit, from).None? {
      assert Search(s, unit, from) == Search(s, unit, from + 1);
      SearchFound(s, unit, from + 1);
    } else {
      assert Search(s, unit, from) == Some(from);
    }
  }

  /** The search reports nothing only when the matcher fails everywhere. */
  lemma {:induction false} SearchNotFound(s: string, unit: char, from: nat)
    requires from <= |s| && Search(s, unit, from).None?
    ensures forall p :: from <= p <= |s| ==> GreedyMatch(s, unit, p).None?
    decreases |s| - from
  {
    if from < |s| {
      SearchNotFound(s, unit, from + 1);
    }
  }

  /** `int(digits)` */
  function DecimalValue(ds: string): nat
    requires forall p :: 0 <= p < |ds| ==> IsDigit(ds[p])
  {
    if ds == [] then 0
    else
      assert IsDigit(ds[|ds| - 1]);
      10 * DecimalValue(ds[..|ds| - 1]) + (ds[|ds| - 1] as int - '0' as int)
  }

  /** The amount given for one unit: the number in the leftmost match, or 0. */
  function UnitAmount(s: string, unit: char): nat
  {
    match Search(s, unit, 0)
    case None => 0
    case Some(i) => DecimalValue(s[i..i + DigitRun(s, i)])
  }

  /** When the pattern matches nowhere, the unit counts 0. */
  lemma UnitAmountNoMatch(s: string, unit: char)
    requires forall i :: 0 <= i <= |s| ==> !MatchesAt(s, unit, i)
    ensures UnitAmount(s, unit) == 0
  {
    var r := Search(s, unit, 0);
    if r.Some? {
      SearchFound(s, unit, 0);
      GreedyMatchSound(s, unit, r.value);
      assert MatchesAt(s, unit, r.value);
      assert false;
    }
  }

  /** When the leftmost match of the pattern has the group `s[i..k]`, the
      unit counts the number that group spells. */
  lemma UnitAmountLeftmost(s: string, unit: char, i: int, k: int, j: int)
    requires IsUnit(unit)
    requires MatchSpan(s, unit, i, k, j)
    requires forall p :: 0 <= p < i ==> !MatchesAt(s, unit, p)
    ensures UnitAmount(s, unit) == DecimalValue(s[i..k])
  {
    GreedyMatchComplete(s, unit, i, k, j);
    var r := Search(s, unit, 0);
    if r.None? {
      SearchNotFound(s, unit, 0);
      assert false;
    }
    SearchFound(s, unit, 0);
    if r.value < i {
      GreedyMatchSound(s, unit, r.value);
      assert MatchesAt(s, unit, r.value);
      assert false;
    }
  }

  /** The hours a non-missing age text stands for:
      `days * 24 + hours + minutes / 60` over the lower-cased text. */
  function AgeTextHours(text: string): real
  {
    var s := Lower(text);
    (UnitAmount(s, 'd') * 24 + UnitAmount(s, 'h')) as real + UnitAmount(s, 'm') as real / 60.0
  }

  /** `parse_age_to_hours(cell)`. A missing cell is 0. A date-time or an
      hours value would be formatted by `str()` as digits and punctuation
      with no unit letter, so it is 0 as well. */
  function ParseAgeToHours(c: Cell): (r: real)
    ensures r >= 0.0
    ensures c.Missing? ==> r == 0.0
  {
    match c
    case Text(t) => AgeTextHours(t)
    case _ => 0.0
  }

  /** Upper-case unit letters read like lower-case ones: the text is
      lower-cased before matching, so "2 H" is "2 h". */
  lemma AgeCaseInsensitive(a: string, b: string)
    requires Lower(a) == Lower(b)
    ensures ParseAgeToHours(Text(a)) == ParseAgeToHours(Text(b))
  {
  }

  /** A unit letter that does not occur in the text cannot end a match. */
  lemma {:induction false} SearchAbsentUnit(s: string, unit: char, from: nat)
    requires from <= |s| && unit !in s
    ensures Search(s, unit, from) == None
    decreases |s| - from
  {
    if from < |s| {
      SearchAbsentUnit(s, unit, from + 1);
    }
  }

  /** A unit whose letter is absent from the text counts 0. */
  lemma UnitAmountAbsent(s: string, unit: char)
    requires unit !in s
    ensures UnitAmount(s, unit) == 0
  {
    SearchAbsentUnit(s, unit, 0);
  }

  /** The hours follow from the three unit amounts of the lower-cased text. */
  lemma AgeFromAmounts(text: string, d: nat, h: nat, m: nat)
    requires var s := Lower(text); UnitAmount(s, 'd') == d && UnitAmount(s, 'h') == h && UnitAmount(s, 'm') == m
    ensures ParseAgeToHours(Text(text)) == (d * 24 + h) as real + m as real / 60.0
  {
  }

  /** The day and hour amounts of "2 h 10 m": no days, 2 hours. */
  lemma HoursMinutesHours(s: string)
    requires |s| == 8 && s[0] == '2' && s[1] == ' ' && s[2] == 'h' && s[3] == ' '
    requires s[4] == '1' && s[5] == '0' && s[6] == ' ' && s[7] == 'm'
    ensures UnitAmount(s, 'd') == 0 && UnitAmount(s, 'h') == 2
  {
    UnitAmountAbsent(s, 'd');
    assert DigitRun(s, 0) == 1 && SpaceRun(s, 1) == 1;
    assert GreedyMatch(s, 'h', 0) == Some(1);
    assert s[0..1] == ['2'] && ['2'][..0] == [];
  }

  /** The minute amount of "2 h 10 m": the match at 0 ends in "h", so the
      leftmost "m" match is the one at 4, with the group "10". */
  lemma HoursMinutesMinutes(s: string)
    requires |s| == 8 && s[0] == '2' && s[1] == ' ' && s[2] == 'h' && s[3] == ' '
    requires s[4] == '1' && s[5] == '0' && s[6] == ' ' && s[7] == 'm'
    ensures UnitAmount(s, 'm') == 10
  {
    assert DigitRun(s, 0) == 1 && SpaceRun(s, 1) == 1;
    assert DigitRun(s, 6) == 0 && DigitRun(s, 5) == 1 && DigitRun(s, 4) == 2 && SpaceRun(s, 6) == 1;
    assert Search(s, 'm', 0) == Search(s, 'm', 1) == Search(s, 'm', 2) == Search(s, 'm', 3) == Search(s, 'm', 4);
    assert s[4..6] == ['1', '0'] && ['1', '0'][..1] == ['1'] && ['1'][..0] == [];
  }

  /** "2 h 10 m" is 2 hours and 10 minutes: 2 + 10/60 hours. */
  lemma AgeExampleHoursMinutes()
    ensures ParseAgeToHours(Text("2 h 10 m")) == 2.0 + 10.0 / 60.0
  {
    assert Lower("2 h 10 m") == "2 h 10 m";
    HoursMinutesHours("2 h 10 m");
    HoursMinutesMinutes("2 h 10 m");
    AgeFromAmounts("2 h 10 m", 0, 2, 10);
  }

  /** The day and minute amounts of "1 d 12 h": 1 day, no minutes. */
  lemma DaysHoursDays(s: string)
    requires |s| == 8 && s[0] == '1' && s[1] == ' ' && s[2] == 'd' && s[3] == ' '
    requires s[4] == '1' && s[5] == '2' && s[6] == ' ' && s[7] == 'h'
    ensures UnitAmount(s, 'd') == 1 && UnitAmount(s, 'm') == 0
  {
    UnitAmountAbsent(s, 'm');
    assert DigitRun(s, 0) == 1 && SpaceRun(s, 1) == 1;
    assert GreedyMatch(s, 'd', 0) == Some(1);
    assert s[0..1] == ['1'] && ['1'][..0] == [];
  }

  /** The hour amount of "1 d 12 h": the match at 0 ends in "d", so the
      leftmost "h" match is the one at 4, with the group "12". */
  lemma DaysHoursHours(s: string)
    requires |s| == 8 && s[0] == '1' && s[1] == ' ' && s[2] == 'd' && s[3] == ' '
    requires s[4] == '1' && s[5] == '2' && s[6] == ' ' && s[7] == 'h'
    ensures UnitAmount(s, 'h') == 12
  {
    assert DigitRun(s, 0) == 1 && SpaceRun(s, 1) == 1;
    assert DigitRun(s, 6) == 0 && DigitRun(s, 5) == 1 && DigitRun(s, 4) == 2 && SpaceRun(s, 6) == 1;
    assert Search(s, 'h', 0) == Search(s, 'h', 1) == Search(s, 'h', 2) == Search(s, 'h', 3) == Search(s, 'h', 4);
    assert s[4..6] == ['1', '2'] && ['1', '2'][..1] == ['1'] && ['1'][..0] == [];
  }

  /** "1 d 12 h" is 36 hours. */
  lemma AgeExampleDaysHours()
    ensures ParseAgeToHours(Text("1 d 12 h")) == 36.0
  {
    assert Lower("1 d 12 h") == "1 d 12 h";
    DaysHoursDays("1 d 12 h");
    DaysHoursHours("1 d 12 h");
    AgeFromAmounts("1 d 12 h", 1, 12, 0);
  }

  /** A text that is one digit, a blank and a unit letter gives that
      digit for that unit. */
  lemma SingleDigitAmount(s: string, unit: char)
    requires |s| == 3 && IsDigit(s[0]) && s[1] == ' ' && s[2] == unit && IsUnit(unit)
    ensures UnitAmount(s, unit) == s[0] as int - '0' as int
  {
    assert DigitRun(s, 1) == 0 && DigitRun(s, 0) == 1;
    assert SpaceRun(s, 2) == 0 && SpaceRun(s, 1) == 1;
    assert GreedyMatch(s, unit, 0) == Some(1);
    assert Search(s, unit, 0) == Some(0);
    var ds := s[0..1];
    assert ds[..0] == [] && ds[0] == s[0];
    assert DecimalValue(ds) == 10 * DecimalValue([]) + (s[0] as int - '0' as int);
  }

  /** "3 d" is 72 hours. */
  lemma AgeExampleDays()
    ensures ParseAgeToHours(Text("3 d")) == 72.0
  {
    var s := "3 d";
    assert Lower(s) == s;
    SingleDigitAmount(s, 'd');
    UnitAmountAbsent(s, 'h');
    UnitAmountAbsent(s, 'm');
    AgeFromAmounts(s, 3, 0, 0);
  }

  /** "2 h" is 2 hours. */
  lemma AgeExampleHours()
    ensures ParseAgeToHours(Text("2 h")) == 2.0
  {
    var s := "2 h";
    assert Lower(s) == s;
    SingleDigitAmount(s, 'h');
    UnitAmountAbsent(s, 'd');
    UnitAmountAbsent(s, 'm');
    AgeFromAmounts(s, 0, 2, 0);
  }

  /** "2 H" reads as "2 h". */
  lemma AgeExampleUpperCase()
    ensures ParseAgeToHours(Text("2 H")) == 2.0
  {
    assert Lower("2 H") == Lower("2 h");
    AgeCaseInsensitive("2 H", "2 h");
    AgeExampleHours();
  }

  /** The unit amounts of "1 h 5 h": the first "h" match gives 1 hour. */
  lemma RepeatedUnitAmounts(s: string)
    requires |s| == 7 && s[0] == '1' && s[1] == ' ' && s[2] == 'h' && s[3] == ' '
    requires s[4] == '5' && s[5] == ' ' && s[6] == 'h'
    ensures UnitAmount(s, 'd') == 0 && UnitAmount(s, 'h') == 1 && UnitAmount(s, 'm') == 0
  {
    UnitAmountAbsent(s, 'd');
    UnitAmountAbsent(s, 'm');
    assert DigitRun(s, 0) == 1 && SpaceRun(s, 1) == 1;
    assert GreedyMatch(s, 'h', 0) == Some(1);
    assert s[0..1] == ['1'] && ['1'][..0] == [];
  }

  /** A repeated unit keeps the amount of its first occurrence: "1 h 5 h"
      is 1 hour, not 5 or 6. */
  lemma AgeExampleRepeatedUnit()
    ensures ParseAgeToHours(Text("1 h 5 h")) == 1.0
  {
    assert Lower("1 h 5 h") == "1 h 5 h";
    RepeatedUnitAmounts("1 h 5 h");
    AgeFromAmounts("1 h 5 h", 0, 1, 0);
  }
}
