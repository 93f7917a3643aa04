/** Small shared vocabulary: optional values, duplicate-free sequences, filtering and concatenation,
    decimal numerals, and the stable sort by an integer key that Array.prototype.sort performs. */
module Basics {

  datatype Option<+T> = None | Some(value: T)

  function Lookup<T>(m: map<string, T>, key: string): Option<T> { if key in m then Some(m[key]) else None }

  function Or<T>(given: Option<T>, other: T): T { if given.Some? then given.value else other }

  /** No value occurs at two positions. */
  ghost predicate NoDuplicates<T>(s: seq<T>) {
    forall i, j :: 0 <= i < j < |s| ==> s[i] != s[j]
  }

  /** The elements of s that satisfy keep, in order. */
  function Filter<T(!new)>(s: seq<T>, keep: T -> bool): (r: seq<T>)
    ensures forall x :: x in r <==> x in s && keep(x)
  {
    if s == [] then []
    else
      var rest := Filter(s[..|s| - 1], keep);
      var x := s[|s| - 1];
      assert s == s[..|s| - 1] + [x];
      if keep(x) then rest + [x] else rest
  }

  lemma {:induction false} FilterConcat<T(!new)>(xs: seq<T>, ys: seq<T>, keep: T -> bool)
    ensures Filter(xs + ys, keep) == Filter(xs, keep) + Filter(ys, keep)
  {
    if ys == [] {
      assert xs + ys == xs;
    } else {
      assert (xs + ys)[..|xs + ys| - 1] == xs + ys[..|ys| - 1];
      FilterConcat(xs, ys[..|ys| - 1], keep);
    }
  }

  /** Each element once, in the order of its first occurrence. */
  function WithoutRepeats(s: seq<string>): (r: seq<string>)
    ensures forall c :: c in r <==> c in s
    ensures NoDuplicates(r)
  {
    if s == [] then []
    else
      var front, c := WithoutRepeats(s[..|s| - 1]), s[|s| - 1];
      assert s == s[..|s| - 1] + [c];
      if c in front then front else front + [c]
  }

  /** The first n pieces, one after the other. */
  function Concatenation<T>(n: nat, piece: nat -> seq<T>): seq<T> {
    if n == 0 then [] else Concatenation(n - 1, piece) + piece(n - 1)
  }

  lemma {:induction false} InConcatenation<T>(n: nat, piece: nat -> seq<T>, x: T)
    ensures x in Concatenation(n, piece) <==> exists i: nat :: i < n && x in piece(i)
  {
    if n > 0 { InConcatenation(n - 1, piece, x); }
  }

  /** x placed behind every element whose key does not exceed its own. */
  function InsertByKey<T>(s: seq<T>, x: T, key: T -> int): (r: seq<T>)
    ensures |r| == |s| + 1
  {
    if s == [] || key(s[|s| - 1]) <= key(x) then s + [x]
    else InsertByKey(s[..|s| - 1], x, key) + [s[|s| - 1]]
  }

  /** Stable insertion sort by an integer key, ascending. */
  function StableSort<T>(s: seq<T>, key: T -> int): (r: seq<T>)
    ensures |r| == |s|
  {
    if s == [] then []
    else InsertByKey(StableSort(s[..|s| - 1], key), s[|s| - 1], key)
  }

  ghost predicate Sorted<T>(s: seq<T>, key: T -> int) {
    forall i, j :: 0 <= i < j < |s| ==> key(s[i]) <= key(s[j])
  }

  lemma SortedSnoc<T>(s: seq<T>, x: T, key: T -> int)
    requires Sorted(s, key) && forall i :: 0 <= i < |s| ==> key(s[i]) <= key(x)
    ensures Sorted(s + [x], key)
  {
  }

  lemma {:induction false} InsertIsSorted<T>(s: seq<T>, x: T, key: T -> int)
    requires Sorted(s, key)
    ensures Sorted(InsertByKey(s, x, key), key)
    ensures multiset(InsertByKey(s, x, key)) == multiset(s) + multiset{x}
  {
    if s == [] || key(s[|s| - 1]) <= key(x) {
      SortedSnoc(s, x, key);
    } else {
      var front, last := s[..|s| - 1], s[|s| - 1];
      assert s == front + [last];
      InsertIsSorted(front, x, key);
      var r := InsertByKey(front, x, key);
      forall i | 0 <= i < |r| ensures key(r[i]) <= key(last) {
        assert r[i] in multiset(r);
        assert r[i] in front || r[i] == x;
      }
      SortedSnoc(r, last, key);
    }
  }

  /** Sorting permutes its input into ascending order. */
  lemma {:induction false} StableSortSorts<T>(s: seq<T>, key: T -> int)
    ensures Sorted(StableSort(s, key), key)
    ensures multiset(StableSort(s, key)) == multiset(s)
  {
    if s != [] {
      assert s == s[..|s| - 1] + [s[|s| - 1]];
      StableSortSorts(s[..|s| - 1], key);
      InsertIsSorted(StableSort(s[..|s| - 1], key), s[|s| - 1], key);
    }
  }

  lemma StableSortElements<T(!new)>(s: seq<T>, key: T -> int)
    ensures forall x :: x in StableSort(s, key) <==> x in s
  {
    StableSortSorts(s, key);
    forall x ensures x in StableSort(s, key) <==> x in s {
      assert x in multiset(StableSort(s, key)) <==> x in multiset(s);
    }
  }

  /** A sequence already in ascending order is left as it is. */
  lemma {:induction false} StableSortOfSorted<T>(s: seq<T>, key: T -> int)
    requires Sorted(s, key)
    ensures StableSort(s, key) == s
  {
    if s != [] {
      assert s == s[..|s| - 1] + [s[|s| - 1]];
      StableSortOfSorted(s[..|s| - 1], key);
    }
  }

  lemma FilterAppend<T(!new)>(s: seq<T>, x: T, keep: T -> bool)
    ensures Filter(s + [x], keep) == Filter(s, keep) + if keep(x) then [x] else []
  {
    assert (s + [x])[..|s|] == s;
  }

  lemma InsertBefore<T>(s: seq<T>, last: T, x: T, key: T -> int)
    requires key(x) < key(last)
    ensures InsertByKey(s + [last], x, key) == InsertByKey(s, x, key) + [last]
  {
    assert (s + [last])[..|s|] == s;
  }

  lemma {:induction false} FilterInsert<T(!new)>(s: seq<T>, x: T, key: T -> int, keep: T -> bool)
    requires Sorted(s, key)
    ensures Filter(InsertByKey(s, x, key), keep)
         == if keep(x) then InsertByKey(Filter(s, keep), x, key) else Filter(s, keep)
  {
    if s == [] {
      FilterAppend([], x, keep);
      assert [] + [x] == [x];
    } else if key(s[|s| - 1]) <= key(x) {
      FilterAppend(s, x, keep);
      FilterLastKey(s, x, key, keep);
    } else {
      var front, last := s[..|s| - 1], s[|s| - 1];
      assert s == front + [last];
      InsertBefore(front, last, x, key);
      FilterAppend(InsertByKey(front, x, key), last, keep);
      FilterAppend(front, last, keep);
      FilterInsert(front, x, key, keep);
      if keep(last) { InsertBefore(Filter(front, keep), last, x, key); }
    }
  }

  lemma {:induction false} FilterLastKey<T(!new)>(s: seq<T>, x: T, key: T -> int, keep: T -> bool)
    requires Sorted(s, key) && s != [] && key(s[|s| - 1]) <= key(x)
    ensures Filter(s, keep) != [] ==> key(Filter(s, keep)[|Filter(s, keep)| - 1]) <= key(x)
  {
    var f := Filter(s, keep);
    if f != [] {
      assert f[|f| - 1] in f;
    }
  }

  /** Removing elements before or after a stable sort gives the same list. */
  lemma {:induction false} FilterCommutesWithSort<T(!new)>(s: seq<T>, key: T -> int, keep: T -> bool)
    ensures StableSort(Filter(s, keep), key) == Filter(StableSort(s, key), keep)
  {
    if s != [] {
      var front, last := s[..|s| - 1], s[|s| - 1];
      FilterCommutesWithSort(front, key, keep);
      StableSortSorts(front, key);
      FilterInsert(StableSort(front, key), last, key, keep);
      if keep(last) {
        assert (Filter(front, keep) + [last])[..|Filter(front, keep)|] == Filter(front, keep);
      }
    }
  }

  // ---------- Numbers ----------

  function Min(a: int, b: int): int { if a <= b then a else b }

  function Digit(n: nat): (c: char)
    requires n < 10
  {
    "0123456789"[n]
  }

  function Decimal(n: nat): (s: string)
    ensures s != "" && forall i :: 0 <= i < |s| ==> '0' <= s[i] <= '9'
  {
    if n < 10 then [Digit(n)] else Decimal(n / 10) + [Digit(n % 10)]
  }

  lemma DecimalLast(n: nat)
    ensures Decimal(n)[|Decimal(n)| - 1] == Digit(n % 10)
    ensures n >= 10 ==> Decimal(n)[..|Decimal(n)| - 1] == Decimal(n / 10)
    ensures n < 10 <==> |Decimal(n)| == 1
  {
  }

  lemma DigitInjective(n: nat, m: nat)
    requires n < 10 && m < 10 && Digit(n) == Digit(m)
    ensures n == m
  {
    assert forall i, j :: 0 <= i < j < 10 ==> "0123456789"[i] != "0123456789"[j];
  }

  lemma {:induction false} DecimalInjective(n: nat, m: nat)
    requires Decimal(n) == Decimal(m)
    ensures n == m
  {
    DecimalLast(n);
    DecimalLast(m);
    DigitInjective(n % 10, m % 10);
    if n >= 10 { DecimalInjective(n / 10, m / 10); }
  }

  lemma AddFractions(a: real, b: real, total: real)
    requires total > 0.0
    ensures a / total + b / total == (a + b) / total
  {
  }

  lemma QuotientNonNegative(a: real, b: real)
    requires a >= 0.0 && b > 0.0
    ensures a / b >= 0.0
  {
  }
}
