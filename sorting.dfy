/** A stable sort by a "comes before" relation, the model of
    `Array.prototype.sort` with a comparator (`before(a, b)` is
    `compare(a, b) < 0`). Since ES2019 that sort is stable, and for a
    comparator that is a strict weak order every stable sort gives the same
    result, so insertion sort stands for it. */
module Sorting {
  import opened Common

  /** No later element comes strictly before an earlier one. */
  ghost predicate SortedBy<T>(s: seq<T>, before: (T, T) -> bool) {
    forall i, j :: 0 <= i < j < |s| ==> !before(s[j], s[i])
  }

  /** `before` is asymmetric and transitive on the elements of `u`. */
  ghost predicate StrictOrderOn<T>(u: seq<T>, before: (T, T) -> bool) {
    && (forall a, b :: a in u && b in u && before(a, b) ==> !before(b, a))
    && (forall a, b, c :: a in u && b in u && c in u && before(a, b) && before(b, c) ==> before(a, c))
  }

  /** Places `x` in front of the first element it comes before. */
  function Insert<T>(x: T, r: seq<T>, before: (T, T) -> bool): (out: seq<T>)
    ensures multiset(out) == multiset(r) + multiset{x}
    ensures |out| == |r| + 1
  {
    if |r| == 0 then [x]
    else if before(x, r[0]) then [x] + r
    else
      assert r == [r[0]] + r[1..];
      [r[0]] + Insert(x, r[1..], before)
  }

  /** Each element, in input order, is inserted into the sorted prefix; a later
      element lands after every earlier one it does not come before. */
  function InsertionSort<T>(s: seq<T>, before: (T, T) -> bool): (r: seq<T>)
    ensures multiset(r) == multiset(s)
    ensures |r| == |s|
  {
    if |s| == 0 then []
    else
      assert s == s[..|s| - 1] + [s[|s| - 1]];
      Insert(s[|s| - 1], InsertionSort(s[..|s| - 1], before), before)
  }

  /** A sorted sequence stays sorted behind a head that none of its elements
      comes before. */
  lemma SortedCons<T>(h: T, t: seq<T>, before: (T, T) -> bool)
    requires SortedBy(t, before)
    requires forall e :: e in t ==> !before(e, h)
    ensures SortedBy([h] + t, before)
  {
    var out := [h] + t;
    assert out[1..] == t;
    forall i, j | 0 <= i < j < |out| ensures !before(out[j], out[i]) {
      assert out[j] == t[j - 1];
      if i > 0 {
        assert out[i] == t[i - 1];
      } else {
        assert out[j] in t;
      }
    }
  }

  /** Every element of an insertion's result is the inserted one or was there. */
  lemma InsertElements<T>(x: T, r: seq<T>, before: (T, T) -> bool)
    ensures forall e :: e in Insert(x, r, before) ==> e == x || e in r
  {
    forall e | e in Insert(x, r, before) ensures e == x || e in r {
      assert e in multiset(Insert(x, r, before));
    }
  }

  lemma {:induction false} InsertSorted<T>(x: T, r: seq<T>, before: (T, T) -> bool, u: seq<T>)
    requires StrictOrderOn(u, before)
    requires x in u && forall e :: e in r ==> e in u
    requires SortedBy(r, before)
    ensures SortedBy(Insert(x, r, before), before)
  {
    if |r| == 0 {
      assert Insert(x, r, before) == [x];
    } else {
      assert r[0] in r;
      if before(x, r[0]) {
        forall e | e in r ensures !before(e, x) {
          if e != r[0] {
            var k :| 0 <= k < |r| && r[k] == e;
            assert k > 0 && !before(r[k], r[0]);
          }
        }
        SortedCons(x, r, before);
      } else {
        var tail := r[1..];
        assert forall e :: e in tail ==> e in r;
        assert SortedBy(tail, before);
        InsertSorted(x, tail, before, u);
        InsertElements(x, tail, before);
        forall e | e in Insert(x, tail, before) ensures !before(e, r[0]) {
          if e != x {
            var k :| 0 <= k < |tail| && tail[k] == e;
            assert r[k + 1] == e;
          }
        }
        SortedCons(r[0], Insert(x, tail, before), before);
      }
    }
  }

  /** Under a strict order the sort's result is sorted. */
  lemma {:induction false} InsertionSortSorted<T>(s: seq<T>, before: (T, T) -> bool, u: seq<T>)
    requires StrictOrderOn(u, before)
    requires forall e :: e in s ==> e in u
    ensures SortedBy(InsertionSort(s, before), before)
  {
    if |s| > 0 {
      var prefix := s[..|s| - 1];
      assert forall e :: e in prefix ==> e in s;
      InsertionSortSorted(prefix, before, u);
      var sortedPrefix := InsertionSort(prefix, before);
      forall e | e in sortedPrefix ensures e in u {
        assert e in multiset(sortedPrefix);
        assert e in multiset(prefix);
      }
      assert s[|s| - 1] in s;
      InsertSorted(s[|s| - 1], sortedPrefix, before, u);
    }
  }

  lemma {:induction false} InsertNoDuplicates<T>(x: T, r: seq<T>, before: (T, T) -> bool)
    requires NoDuplicates(r) && x !in r
    ensures NoDuplicates(Insert(x, r, before))
  {
    if |r| > 0 && !before(x, r[0]) {
      var rest := Insert(x, r[1..], before);
      assert forall e :: e in r[1..] ==> e in r;
      InsertNoDuplicates(x, r[1..], before);
      assert r[0] !in r[1..];
      assert r[0] !in multiset(rest) by {
        assert multiset(rest) == multiset(r[1..]) + multiset{x};
      }
    }
  }

  /** Sorting a duplicate-free sequence keeps it duplicate-free. */
  lemma {:induction false} InsertionSortNoDuplicates<T>(s: seq<T>, before: (T, T) -> bool)
    requires NoDuplicates(s)
    ensures NoDuplicates(InsertionSort(s, before))
  {
    if |s| > 0 {
      var prefix := s[..|s| - 1];
      InsertionSortNoDuplicates(prefix, before);
      var sortedPrefix := InsertionSort(prefix, before);
      assert s[|s| - 1] !in prefix;
      assert s[|s| - 1] !in multiset(sortedPrefix);
      InsertNoDuplicates(s[|s| - 1], sortedPrefix, before);
    }
  }
}

/** The order `Array.prototype.sort` uses without a comparator on strings:
    lexicographic by character. */
module StringOrder {

  /** Strict code-point order: a string never precedes itself, and a
      proper prefix precedes every longer string it begins. */
  predicate StrLess(a: string, b: string)
    ensures StrLess(a, b) ==> a != b
    ensures a < b ==> StrLess(a, b)
    decreases |a|
  {
    if |a| == 0 then |b| > 0
    else if |b| == 0 then false
    else a[0] < b[0] || (a[0] == b[0] && StrLess(a[1..], b[1..]))
  }

  lemma {:induction false} StrLessIrreflexive(a: string)
    ensures !StrLess(a, a)
    decreases |a|
  {
    if |a| > 0 {
      StrLessIrreflexive(a[1..]);
    }
  }

  lemma {:induction false} StrLessAsymmetric(a: string, b: string)
    requires StrLess(a, b)
    ensures !StrLess(b, a)
    decreases |a|
  {
    if |a| > 0 && |b| > 0 && a[0] == b[0] {
      StrLessAsymmetric(a[1..], b[1..]);
    }
  }

  lemma {:induction false} StrLessTransitive(a: string, b: string, c: string)
    requires StrLess(a, b) && StrLess(b, c)
    ensures StrLess(a, c)
    decreases |a|
  {
    if |a| > 0 && a[0] == b[0] && b[0] == c[0] {
      StrLessTransitive(a[1..], b[1..], c[1..]);
    }
  }

  lemma {:induction false} StrLessTotal(a: string, b: string)
    requires a != b
    ensures StrLess(a, b) || StrLess(b, a)
    decreases |a|
  {
    if |a| > 0 && |b| > 0 && a[0] == b[0] {
      assert a == [a[0]] + a[1..] && b == [b[0]] + b[1..];
      StrLessTotal(a[1..], b[1..]);
    }
  }
}
