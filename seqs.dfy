/** Counting, filtering and stable sorting over sequences: the operations
    the ticket aggregators borrow from pandas (`value_counts`, boolean
    masks, `sort_index`) and from Python (`sorted`, which is stable). */
module Seqs {

  predicate Distinct<T(==)>(s: seq<T>)
  {
    forall i, j :: 0 <= i < j < |s| ==> s[i] != s[j]
  }

  /** Number of occurrences of `x` in `s`. */
  function CountOf<T(==)>(s: seq<T>, x: T): nat
  {
    if s == [] then 0 else (if s[0] == x then 1 else 0) + CountOf(s[1..], x)
  }

  lemma {:induction false} CountOfAbsent<T>(s: seq<T>, x: T)
    requires x !in s
    ensures CountOf(s, x) == 0
  {
    if s != [] {
      CountOfAbsent(s[1..], x);
    }
  }

  lemma {:induction false} CountOfDistinct<T>(s: seq<T>, x: T)
    requires Distinct(s) && x in s
    ensures CountOf(s, x) == 1
  {
    if s[0] == x {
      CountOfAbsent(s[1..], x);
    } else {
      CountOfDistinct(s[1..], x);
    }
  }

  /** The elements of `s` that satisfy `keep`, in their original order
      (a boolean-mask selection `df[mask]`). */
  function Where<T>(s: seq<T>, keep: T -> bool): (r: seq<T>)
    ensures |r| <= |s|
    ensures forall i :: 0 <= i < |r| ==> r[i] in s && keep(r[i])
    ensures forall i :: 0 <= i < |s| && keep(s[i]) ==> s[i] in r
  {
    if s == [] then []
    else if keep(s[0]) then [s[0]] + Where(s[1..], keep)
    else Where(s[1..], keep)
  }

  /** A mask and its complement split a sequence: what is kept plus what
      is dropped is everything. */
  lemma {:induction false} WhereComplement<T>(s: seq<T>, keep: T -> bool, drop: T -> bool)
    requires forall i :: 0 <= i < |s| ==> (keep(s[i]) <==> !drop(s[i]))
    ensures |Where(s, keep)| + |Where(s, drop)| == |s|
  {
    if s != [] {
      WhereComplement(s[1..], keep, drop);
    }
  }

  /** A selection with a weaker mask keeps at least as many elements. */
  lemma {:induction false} WhereMonotonic<T>(s: seq<T>, p: T -> bool, q: T -> bool)
    requires forall x :: x in s && p(x) ==> q(x)
    ensures |Where(s, p)| <= |Where(s, q)|
  {
    if s != [] {
      WhereMonotonic(s[1..], p, q);
    }
  }

  /** The distinct elements of `xs` in order of first appearance. */
  function FirstSeen<T(==)>(xs: seq<T>): (r: seq<T>)
    ensures Distinct(r)
    ensures forall i :: 0 <= i < |r| ==> r[i] in xs
    ensures forall i :: 0 <= i < |xs| ==> xs[i] in r
  {
    if xs == [] then []
    else
      var d := FirstSeen(xs[..|xs| - 1]);
      var last := xs[|xs| - 1];
      assert xs == xs[..|xs| - 1] + [last];
      if last in d then d else d + [last]
  }

  /** Pairs each key with its number of occurrences in `xs`. */
  function Tabulate<T(==)>(xs: seq<T>, keys: seq<T>): (r: seq<(T, nat)>)
    ensures |r| == |keys|
  {
    if keys == [] then [] else [(keys[0], CountOf(xs, keys[0]))] + Tabulate(xs, keys[1..])
  }

  /** Sum of the counts of a tabulation (`series.sum()`). */
  function Total<T>(t: seq<(T, nat)>): nat
  {
    if t == [] then 0 else t[0].1 + Total(t[1..])
  }

  function Labels<T>(t: seq<(T, nat)>): (r: seq<T>)
    ensures |r| == |t|
    ensures forall i :: 0 <= i < |t| ==> r[i] == t[i].0
  {
    if t == [] then [] else [t[0].0] + Labels(t[1..])
  }

  /** `series.get(k, 0)`: the count recorded for `k`, or 0. */
  function Lookup<T(==)>(t: seq<(T, nat)>, k: T): nat
  {
    if t == [] then 0 else if t[0].0 == k then t[0].1 else Lookup(t[1..], k)
  }

  lemma {:induction false} TabulateEntries<T>(xs: seq<T>, keys: seq<T>)
    ensures forall i :: 0 <= i < |keys| ==> Tabulate(xs, keys)[i] == (keys[i], CountOf(xs, keys[i]))
  {
    if keys != [] {
      TabulateEntries(xs, keys[1..]);
    }
  }

  lemma {:induction false} TabulateLabels<T>(xs: seq<T>, keys: seq<T>)
    ensures Labels(Tabulate(xs, keys)) == keys
  {
    TabulateEntries(xs, keys);
  }

  /** Reordering a tabulation keeps its set of labels. */
  lemma {:induction false} LabelsPermutation<T>(r: seq<(T, nat)>, t: seq<(T, nat)>, x: T)
    requires multiset(r) == multiset(t) && x in Labels(t)
    ensures x in Labels(r)
  {
    var k :| 0 <= k < |t| && Labels(t)[k] == x;
    assert t[k] in multiset(r);
    var m :| 0 <= m < |r| && r[m] == t[k];
    assert Labels(r)[m] == x;
  }

  lemma {:induction false} TabulateDistinct<T>(xs: seq<T>, keys: seq<T>)
    requires Distinct(keys)
    ensures Distinct(Tabulate(xs, keys))
  {
    TabulateEntries(xs, keys);
  }

  /** Prepending one element adds, to every key, its occurrences of that element. */
  lemma {:induction false} TotalTabulateCons<T>(a: T, xs: seq<T>, keys: seq<T>)
    ensures Total(Tabulate([a] + xs, keys)) == CountOf(keys, a) + Total(Tabulate(xs, keys))
  {
    if keys != [] {
      assert ([a] + xs)[1..] == xs;
      TotalTabulateCons(a, xs, keys[1..]);
    }
  }

  /** Counting every element of `xs` once under distinct keys that cover
      `xs` accounts for all of `xs`: the counts add up to its length. */
  lemma {:induction false} TotalTabulate<T>(xs: seq<T>, keys: seq<T>)
    requires Distinct(keys)
    requires forall x :: x in xs ==> x in keys
    ensures Total(Tabulate(xs, keys)) == |xs|
  {
    if xs == [] {
      TotalTabulateEmpty(keys);
    } else {
      assert xs == [xs[0]] + xs[1..];
      TotalTabulateCons(xs[0], xs[1..], keys);
      CountOfDistinct(keys, xs[0]);
      TotalTabulate(xs[1..], keys);
    }
  }

  lemma {:induction false} TotalTabulateEmpty<T>(keys: seq<T>)
    ensures Total(Tabulate([], keys)) == 0
  {
    if keys != [] {
      TotalTabulateEmpty(keys[1..]);
    }
  }

  predicate SortedByKey<T>(s: seq<T>, key: T -> int)
  {
    forall i, j :: 0 <= i < j < |s| ==> key(s[i]) <= key(s[j])
  }

  /** The elements of `s` whose key is `k`, in their order in `s`. */
  function WithKey<T>(s: seq<T>, key: T -> int, k: int): seq<T>
  {
    if s == [] then []
    else if key(s[0]) == k then [s[0]] + WithKey(s[1..], key, k)
    else WithKey(s[1..], key, k)
  }

  /** Inserts `x` before the first element whose key is not smaller, so that
      `x` stays ahead of the elements that share its key. */
  function InsertByKey<T>(x: T, s: seq<T>, key: T -> int): (r: seq<T>)
    ensures multiset(r) == multiset(s) + multiset{x}
  {
    if s == [] || key(x) <= key(s[0]) then [x] + s
    else
      assert s == [s[0]] + s[1..];
      [s[0]] + InsertByKey(x, s[1..], key)
  }

  /** Inserting into a sorted sequence keeps it sorted. */
  lemma {:induction false} InsertByKeySorted<T>(x: T, s: seq<T>, key: T -> int)
    requires SortedByKey(s, key)
    ensures SortedByKey(InsertByKey(x, s, key), key)
  {
    if s != [] && key(x) > key(s[0]) {
      var rest := InsertByKey(x, s[1..], key);
      InsertByKeySorted(x, s[1..], key);
      var r := [s[0]] + rest;
      forall i, j | 0 <= i < j < |r| ensures key(r[i]) <= key(r[j]) {
        if i == 0 {
          assert r[j] in multiset(rest);
          if r[j] != x {
            assert r[j] in multiset(s[1..]);
            var m :| 0 <= m < |s[1..]| && s[1..][m] == r[j];
            assert s[m + 1] == r[j];
          }
        } else {
          assert r[i] == rest[i - 1] && r[j] == rest[j - 1];
        }
      }
    }
  }

  /** Python's `sorted(s, key=key)`: an insertion sort, stable because each
      element is inserted ahead of the later elements with an equal key. */
  function SortByKey<T>(s: seq<T>, key: T -> int): (r: seq<T>)
    ensures multiset(r) == multiset(s)
    ensures SortedByKey(r, key)
  {
    if s == [] then []
    else
      assert s == [s[0]] + s[1..];
      var sorted := SortByKey(s[1..], key);
      InsertByKeySorted(s[0], sorted, key);
      InsertByKey(s[0], sorted, key)
  }

  lemma {:induction false} InsertByKeyWithKey<T>(x: T, s: seq<T>, key: T -> int, k: int)
    requires SortedByKey(s, key)
    ensures WithKey(InsertByKey(x, s, key), key, k)
         == (if key(x) == k then [x] else []) + WithKey(s, key, k)
  {
    if s == [] || key(x) <= key(s[0]) {
      assert ([x] + s)[1..] == s;
    } else {
      var rest := InsertByKey(x, s[1..], key);
      assert ([s[0]] + rest)[1..] == rest;
      InsertByKeyWithKey(x, s[1..], key, k);
      if key(x) == k {
        assert WithKey(s, key, k) == WithKey(s[1..], key, k);
      }
    }
  }

  /** The sort is stable: the elements sharing any one key come out in the
      order they went in. */
  lemma {:induction false} SortByKeyStable<T>(s: seq<T>, key: T -> int, k: int)
    ensures WithKey(SortByKey(s, key), key, k) == WithKey(s, key, k)
  {
    if s != [] {
      SortByKeyStable(s[1..], key, k);
      InsertByKeyWithKey(s[0], SortByKey(s[1..], key), key, k);
    }
  }

  lemma {:induction false} DistinctByMultiset<T>(s: seq<T>, t: seq<T>)
    requires multiset(s) == multiset(t) && Distinct(t)
    ensures Distinct(s)
  {
    forall i, j | 0 <= i < j < |s| ensures s[i] != s[j] {
      if s[i] == s[j] {
        var x := s[i];
        MultisetTwo(s, i, j);
        DistinctMultisetOne(t, x);
        assert false;
      }
    }
  }

  lemma {:induction false} MultisetTwo<T>(s: seq<T>, i: int, j: int)
    requires 0 <= i < j < |s| && s[i] == s[j]
    ensures multiset(s)[s[i]] >= 2
  {
    assert s == s[..i] + [s[i]] + s[i + 1..j] + [s[j]] + s[j + 1..];
  }

  lemma {:induction false} DistinctMultisetOne<T>(t: seq<T>, x: T)
    requires Distinct(t)
    ensures multiset(t)[x] <= 1
  {
    if t != [] {
      assert t == [t[0]] + t[1..];
      DistinctMultisetOne(t[1..], x);
      if t[0] == x {
        assert x !in t[1..];
      }
    }
  }

  lemma {:induction false} TotalInsert<T>(x: (T, nat), s: seq<(T, nat)>, key: ((T, nat)) -> int)
    ensures Total(InsertByKey(x, s, key)) == x.1 + Total(s)
  {
    if s != [] && key(x) > key(s[0]) {
      TotalInsert(x, s[1..], key);
    }
  }

  /** Sorting a tabulation keeps the sum of its counts. */
  lemma {:induction false} TotalSort<T>(s: seq<(T, nat)>, key: ((T, nat)) -> int)
    ensures Total(SortByKey(s, key)) == Total(s)
  {
    if s != [] {
      TotalSort(s[1..], key);
      TotalInsert(s[0], SortByKey(s[1..], key), key);
    }
  }

  /** A property of every element survives a permutation. */
  lemma PermutationKeeps<T>(s: seq<T>, t: seq<T>, p: T -> bool)
    requires multiset(s) == multiset(t)
    requires forall i :: 0 <= i < |t| ==> p(t[i])
    ensures forall i :: 0 <= i < |s| ==> p(s[i])
  {
    forall i | 0 <= i < |s| ensures p(s[i]) {
      assert s[i] in multiset(t);
      var m :| 0 <= m < |t| && t[m] == s[i];
    }
  }

  /** Looking up a label that occurs once finds its own count. */
  lemma {:induction false} LookupAt<T>(t: seq<(T, nat)>, m: int)
    requires Distinct(Labels(t)) && 0 <= m < |t|
    ensures Lookup(t, t[m].0) == t[m].1
  {
    if m > 0 {
      assert Labels(t)[0] != Labels(t)[m];
      assert Labels(t[1..]) == Labels(t)[1..];
      LookupAt(t[1..], m - 1);
    }
  }

  /** Looking up a label that does not occur gives 0. */
  lemma {:induction false} LookupAbsent<T>(t: seq<(T, nat)>, k: T)
    requires k !in Labels(t)
    ensures Lookup(t, k) == 0
  {
    if t != [] {
      assert Labels(t[1..]) == Labels(t)[1..];
      LookupAbsent(t[1..], k);
    }
  }

  /** A frequency table: each distinct element of `xs` with its number of
      occurrences, sorted by `key` (stably, from order of first appearance). */
  function Tally<T(==)>(xs: seq<T>, key: ((T, nat)) -> int): (r: seq<(T, nat)>)
    ensures SortedByKey(r, key)
  {
    SortByKey(Tabulate(xs, FirstSeen(xs)), key)
  }

  /** Every entry of a tally is an element of `xs` with its exact count. */
  lemma TallyEntries<T>(xs: seq<T>, key: ((T, nat)) -> int)
    ensures var r := Tally(xs, key);
      forall i :: 0 <= i < |r| ==> r[i].0 in xs && r[i].1 == CountOf(xs, r[i].0)
  {
    var keys := FirstSeen(xs);
    var tab := Tabulate(xs, keys);
    var r := Tally(xs, key);
    assert multiset(r) == multiset(tab);
    TabulateEntries(xs, keys);
    forall i | 0 <= i < |r| ensures r[i].0 in xs && r[i].1 == CountOf(xs, r[i].0) {
      assert r[i] in multiset(tab);
      var k :| 0 <= k < |tab| && tab[k] == r[i];
    }
  }

  /** Every element of `xs` has an entry in its tally. */
  lemma TallyComplete<T>(xs: seq<T>, key: ((T, nat)) -> int)
    ensures forall i :: 0 <= i < |xs| ==> xs[i] in Labels(Tally(xs, key))
  {
    var keys := FirstSeen(xs);
    var tab := Tabulate(xs, keys);
    var r := Tally(xs, key);
    assert multiset(r) == multiset(tab);
    TabulateLabels(xs, keys);
    forall i | 0 <= i < |xs| ensures xs[i] in Labels(r) {
      assert xs[i] in Labels(tab);
      LabelsPermutation(r, tab, xs[i]);
    }
  }

  /** No element is listed twice in a tally. */
  lemma TallyDistinct<T>(xs: seq<T>, key: ((T, nat)) -> int)
    ensures Distinct(Labels(Tally(xs, key)))
  {
    var keys := FirstSeen(xs);
    var tab := Tabulate(xs, keys);
    var r := Tally(xs, key);
    TabulateDistinct(xs, keys);
    DistinctByMultiset(r, tab);
    TallyEntries(xs, key);
    forall i, j | 0 <= i < j < |Labels(r)| ensures Labels(r)[i] != Labels(r)[j] {
      assert r[i] != r[j];
    }
  }

  /** The counts of a tally add up to the length of `xs`. */
  lemma TallyTotal<T>(xs: seq<T>, key: ((T, nat)) -> int)
    ensures Total(Tally(xs, key)) == |xs|
  {
    var keys := FirstSeen(xs);
    TotalSort(Tabulate(xs, keys), key);
    forall x | x in xs ensures x in keys {
      var i :| 0 <= i < |xs| && xs[i] == x;
    }
    TotalTabulate(xs, keys);
  }

  /** `tally.get(x, 0)` is the number of occurrences of `x`, 0 for an
      element that never occurs. */
  lemma TallyLookup<T>(xs: seq<T>, key: ((T, nat)) -> int, x: T)
    ensures Lookup(Tally(xs, key), x) == CountOf(xs, x)
  {
    var r := Tally(xs, key);
    TallyDistinct(xs, key);
    TallyEntries(xs, key);
    if x in Labels(r) {
      var m :| 0 <= m < |r| && Labels(r)[m] == x;
      LookupAt(r, m);
    } else {
      TallyComplete(xs, key);
      assert x !in xs;
      CountOfAbsent(xs, x);
      LookupAbsent(r, x);
    }
  }
}
