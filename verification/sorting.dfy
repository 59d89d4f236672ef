/** Stable sorting by an integer key and order-preserving filtering of
    sequences: `Array.prototype.sort` with a numeric comparator (stable
    since ECMAScript 2019) and `Array.prototype.filter`. */
module Sorting {

  /** Keys never decrease from left to right. */
  ghost predicate SortedBy<T(!new)>(s: seq<T>, key: T -> int) {
    forall i, j :: 0 <= i < j < |s| ==> key(s[i]) <= key(s[j])
  }

  /** `s.filter(keep)`: the elements satisfying `keep`, in their order. */
  function Filter<T(!new)>(s: seq<T>, keep: T -> bool): (r: seq<T>)
    ensures |r| <= |s|
    ensures forall i :: 0 <= i < |r| ==> keep(r[i])
  {
    if |s| == 0 then []
    else (if keep(s[0]) then [s[0]] else []) + Filter(s[1..], keep)
  }

  /** Every element satisfying `keep` survives the filter as often as it
      occurs, and no other element survives. */
  lemma {:induction false} FilterMultiplicity<T(!new)>(s: seq<T>, keep: T -> bool)
    ensures forall x :: multiset(Filter(s, keep))[x] == if keep(x) then multiset(s)[x] else 0
  {
    if |s| > 0 {
      FilterMultiplicity(s[1..], keep);
      assert s == [s[0]] + s[1..];
    }
  }

  lemma {:induction false} FilterConcat<T(!new)>(a: seq<T>, b: seq<T>, keep: T -> bool)
    ensures Filter(a + b, keep) == Filter(a, keep) + Filter(b, keep)
  {
    if |a| == 0 {
      assert a + b == b;
    } else {
      assert (a + b)[0] == a[0];
      assert (a + b)[1..] == a[1..] + b;
      FilterConcat(a[1..], b, keep);
    }
  }

  /** A filter that rejects every element leaves nothing. */
  lemma {:induction false} FilterNone<T(!new)>(s: seq<T>, keep: T -> bool)
    requires forall i :: 0 <= i < |s| ==> !keep(s[i])
    ensures Filter(s, keep) == []
  {
    if |s| > 0 {
      FilterNone(s[1..], keep);
    }
  }

  /** A filter that rejects some element shortens the sequence. */
  lemma {:induction false} FilterDrops<T(!new)>(s: seq<T>, keep: T -> bool, i: nat)
    requires i < |s| && !keep(s[i])
    ensures |Filter(s, keep)| < |s|
  {
    if i > 0 {
      FilterDrops(s[1..], keep, i - 1);
    }
  }

  /** A filter leaves something exactly when some element satisfies it. */
  lemma FilterEmptyIff<T(!new)>(s: seq<T>, keep: T -> bool)
    ensures Filter(s, keep) == [] <==> forall i :: 0 <= i < |s| ==> !keep(s[i])
  {
    if forall i :: 0 <= i < |s| ==> !keep(s[i]) {
      FilterNone(s, keep);
    } else {
      var i :| 0 <= i < |s| && keep(s[i]);
      FilterMultiplicity(s, keep);
      assert multiset(Filter(s, keep))[s[i]] > 0;
    }
  }

  /** Two filters applied one after the other commute. */
  lemma {:induction false} FilterCommute<T(!new)>(s: seq<T>, a: T -> bool, b: T -> bool)
    ensures Filter(Filter(s, a), b) == Filter(Filter(s, b), a)
  {
    if |s| > 0 {
      var h := s[0];
      FilterCommute(s[1..], a, b);
      var fa := if a(h) then [h] else [];
      var fb := if b(h) then [h] else [];
      FilterConcat(fa, Filter(s[1..], a), b);
      FilterConcat(fb, Filter(s[1..], b), a);
      FilterCons(h, [], a);
      FilterCons(h, [], b);
    }
  }

  /** A filter that accepts every element changes nothing. */
  lemma {:induction false} FilterAll<T(!new)>(s: seq<T>, keep: T -> bool)
    requires forall i :: 0 <= i < |s| ==> keep(s[i])
    ensures Filter(s, keep) == s
  {
    if |s| > 0 {
      FilterAll(s[1..], keep);
    }
  }

  /** Filtering keeps the relative order, hence a sorted sequence stays
      sorted. */
  lemma {:induction false} FilterSorted<T(!new)>(s: seq<T>, keep: T -> bool, key: T -> int)
    requires SortedBy(s, key)
    ensures SortedBy(Filter(s, keep), key)
  {
    if |s| > 0 {
      FilterSorted(s[1..], keep, key);
      var rest := Filter(s[1..], keep);
      FilterMultiplicity(s[1..], keep);
      forall y | y in rest ensures key(s[0]) <= key(y) {
        assert multiset(rest)[y] > 0;
        assert y in s[1..];
      }
    }
  }

  /** The elements whose key is `k`. */
  function KeyIs<T(!new)>(key: T -> int, k: int): T -> bool {
    x => key(x) == k
  }

  /** A sorted sequence stays sorted when an element no larger than any of
      its elements is put in front. */
  lemma SortedCons<T(!new)>(h: T, s: seq<T>, key: T -> int)
    requires SortedBy(s, key)
    requires forall y | y in s :: key(h) <= key(y)
    ensures SortedBy([h] + s, key)
  {
    var r := [h] + s;
    forall i, j | 0 <= i < j < |r| ensures key(r[i]) <= key(r[j]) {
      assert r[j] == s[j - 1];
      if i > 0 {
        assert r[i] == s[i - 1];
      }
    }
  }

  /** Places `x` into `t` after the leading run of elements whose key is
      not larger; on a sorted `t` that is where a stable sort puts a later
      element. */
  function Insert<T(!new)>(x: T, t: seq<T>, key: T -> int): (r: seq<T>)
    ensures multiset(r) == multiset(t) + multiset{x}
  {
    if |t| == 0 then [x]
    else if key(t[0]) <= key(x) then
      assert t == [t[0]] + t[1..];
      [t[0]] + Insert(x, t[1..], key)
    else
      [x] + t
  }

  lemma {:induction false} InsertSorted<T(!new)>(x: T, t: seq<T>, key: T -> int)
    requires SortedBy(t, key)
    ensures SortedBy(Insert(x, t, key), key)
  {
    if |t| == 0 {
    } else if key(t[0]) <= key(x) {
      var rest := Insert(x, t[1..], key);
      InsertSorted(x, t[1..], key);
      forall y | y in rest ensures key(t[0]) <= key(y) {
        assert y in multiset(rest);
        if y != x {
          assert y in multiset(t[1..]);
          var j :| 0 <= j < |t[1..]| && t[1..][j] == y;
          assert t[j + 1] == y;
        }
      }
      SortedCons(t[0], rest, key);
    } else {
      SortedCons(x, t, key);
    }
  }

  /** Stable sort of `s` by `key` (an insertion sort, taking the elements of
      `s` left to right). */
  function SortBy<T(!new)>(s: seq<T>, key: T -> int): (r: seq<T>)
    ensures SortedBy(r, key)
    ensures multiset(r) == multiset(s)
  {
    if |s| == 0 then []
    else
      var sorted := SortBy(s[..|s| - 1], key);
      assert s == s[..|s| - 1] + [s[|s| - 1]];
      InsertSorted(s[|s| - 1], sorted, key);
      Insert(s[|s| - 1], sorted, key)
  }

  /** A sorted sequence's tail is sorted. */
  lemma SortedTail<T(!new)>(t: seq<T>, key: T -> int)
    requires |t| > 0 && SortedBy(t, key)
    ensures SortedBy(t[1..], key)
  {
    forall i, j | 0 <= i < j < |t[1..]| ensures key(t[1..][i]) <= key(t[1..][j]) {
      assert t[1..][i] == t[i + 1] && t[1..][j] == t[j + 1];
    }
  }

  /** Filtering the single element put in front of `s`. */
  lemma FilterCons<T(!new)>(h: T, s: seq<T>, keep: T -> bool)
    ensures Filter([h] + s, keep) == (if keep(h) then [h] else []) + Filter(s, keep)
  {
    assert ([h] + s)[1..] == s;
  }

  /** Putting the same element in front of two sequences keeps a relation
      between their filtered forms. */
  lemma FilterConsAppend<T(!new)>(h: T, a: seq<T>, b: seq<T>, c: seq<T>, keep: T -> bool)
    requires Filter(a, keep) == Filter(b, keep) + c
    ensures Filter([h] + a, keep) == Filter([h] + b, keep) + c
  {
    FilterCons(h, a, keep);
    FilterCons(h, b, keep);
    AppendAssoc(if keep(h) then [h] else [], Filter(b, keep), c);
  }

  lemma AppendAssoc<T>(a: seq<T>, b: seq<T>, c: seq<T>)
    ensures a + (b + c) == (a + b) + c
  {
  }

  lemma {:induction false} InsertKeepsTies<T(!new)>(x: T, t: seq<T>, key: T -> int, k: int)
    requires SortedBy(t, key)
    ensures Filter(Insert(x, t, key), KeyIs(key, k)) == Filter(t, KeyIs(key, k)) + Filter([x], KeyIs(key, k))
  {
    var keep := KeyIs(key, k);
    var fx := if keep(x) then [x] else [];
    FilterCons(x, [], keep);
    assert Filter([x], keep) == fx;
    if |t| == 0 {
      assert Insert(x, t, key) == [x];
    } else if key(t[0]) <= key(x) {
      var rest := Insert(x, t[1..], key);
      assert Insert(x, t, key) == [t[0]] + rest;
      SortedTail(t, key);
      InsertKeepsTies(x, t[1..], key, k);
      FilterConsAppend(t[0], rest, t[1..], fx, keep);
      assert [t[0]] + t[1..] == t;
    } else {
      assert Insert(x, t, key) == [x] + t;
      FilterCons(x, t, keep);
      if key(x) == k {
        assert forall i :: 0 <= i < |t| ==> key(t[0]) <= key(t[i]);
        FilterNone(t, keep);
      }
    }
  }

  /** Stability: the elements sharing any one key come out of the sort in
      the order they went in. */
  lemma {:induction false} SortStable<T(!new)>(s: seq<T>, key: T -> int, k: int)
    ensures Filter(SortBy(s, key), KeyIs(key, k)) == Filter(s, KeyIs(key, k))
  {
    if |s| > 0 {
      var init, last := s[..|s| - 1], s[|s| - 1];
      SortStable(init, key, k);
      InsertKeepsTies(last, SortBy(init, key), key, k);
      FilterConcat(init, [last], KeyIs(key, k));
      assert init + [last] == s;
    }
  }

  lemma {:induction false} InsertAtEnd<T(!new)>(x: T, t: seq<T>, key: T -> int)
    requires SortedBy(t + [x], key)
    ensures SortedBy(t, key)
    ensures Insert(x, t, key) == t + [x]
  {
    assert forall i :: 0 <= i < |t| ==> t[i] == (t + [x])[i];
    if |t| > 0 {
      assert (t + [x])[0] == t[0];
      assert t[1..] + [x] == (t + [x])[1..];
      InsertAtEnd(x, t[1..], key);
    }
  }

  /** Sorting an already sorted sequence returns it unchanged. */
  lemma {:induction false} SortSortedIdentity<T(!new)>(s: seq<T>, key: T -> int)
    requires SortedBy(s, key)
    ensures SortBy(s, key) == s
  {
    if |s| > 0 {
      var init := s[..|s| - 1];
      assert init + [s[|s| - 1]] == s;
      InsertAtEnd(s[|s| - 1], init, key);
      SortSortedIdentity(init, key);
    }
  }

  /** Sorting twice is sorting once. */
  lemma SortIdempotent<T(!new)>(s: seq<T>, key: T -> int)
    ensures SortBy(SortBy(s, key), key) == SortBy(s, key)
  {
    SortSortedIdentity(SortBy(s, key), key);
  }
}
