/** String helpers shared by the column resolver, the state filter and the
    duration parser: Python's `str.lower()` and the `in` test on strings. */
module Text {

  /** Lower-cases one character the way `str.lower()` does for ASCII letters;
      every other character is left as it is. */
  function LowerChar(c: char): char
  {
    if 'A' <= c <= 'Z' then (c as int + 32) as char else c
  }

  /** `s.lower()` */
  function Lower(s: string): string
  {
    seq(|s|, i requires 0 <= i < |s| => LowerChar(s[i]))
  }

  /** Lower-casing twice is lower-casing once, so "Closed", "closed" and
      "CLOSED" all reach the matchers as the same text. */
  lemma LowerIdempotent(s: string)
    ensures Lower(Lower(s)) == Lower(s)
  {
  }

  /** `needle` occurs in `hay` starting at index `i`. */
  predicate OccursAt(hay: string, needle: string, i: nat)
  {
    i + |needle| <= |hay| && hay[i..i + |needle|] == needle
  }

  /** `needle in hay`, searching left to right from index `from`. */
  function ContainsFrom(hay: string, needle: string, from: nat): (b: bool)
    decreases |hay| - from
    ensures b <==> exists i: nat :: from <= i && OccursAt(hay, needle, i)
  {
    if from + |needle| > |hay| then false
    else if hay[from..from + |needle|] == needle then
      assert OccursAt(hay, needle, from);
      true
    else ContainsFrom(hay, needle, from + 1)
  }

  /** Python's `needle in hay`: true exactly when `needle` occurs somewhere
      in `hay` (the empty string occurs everywhere). */
  function Contains(hay: string, needle: string): (b: bool)
    ensures b <==> exists i: nat :: OccursAt(hay, needle, i)
    ensures needle == [] ==> b
  {
    assert needle == [] ==> OccursAt(hay, needle, 0);
    ContainsFrom(hay, needle, 0)
  }
}
