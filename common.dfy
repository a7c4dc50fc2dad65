/** Generic values and sequence operations shared by the whole model: the
    JavaScript idioms `Array.prototype.filter`, `[...new Set(xs)]`,
    `Array.prototype.join`, `String.prototype.includes` and ASCII
    `toLowerCase`, with the facts about them that the components rely on. */
module Common {

  datatype Option<T> = None | Some(value: T)

  /** A fetch that either produced a value or failed with a message. */
  datatype Result<T> = Ok(value: T) | Err(message: string)

  ghost predicate NoDuplicates<T>(s: seq<T>) {
    forall i, j :: 0 <= i < j < |s| ==> s[i] != s[j]
  }

  /** `a` is an order-preserving subsequence of `b`. */
  ghost predicate IsSubsequence<T>(a: seq<T>, b: seq<T>)
    decreases |b|
  {
    if |a| == 0 then true
    else if |b| == 0 then false
    else (a[0] == b[0] && IsSubsequence(a[1..], b[1..])) || IsSubsequence(a, b[1..])
  }

  lemma ConcatAssoc<T>(a: seq<T>, b: seq<T>, c: seq<T>)
    ensures a + b + c == a + (b + c)
  {
  }

  /** `Array.prototype.filter`: the elements that pass, in their original order. */
  function Filter<T>(s: seq<T>, keep: T -> bool): (r: seq<T>)
    ensures |r| <= |s|
    ensures forall x :: x in r ==> x in s && keep(x)
    ensures forall x :: x in s && keep(x) ==> x in r
  {
    if |s| == 0 then [] else (if keep(s[0]) then [s[0]] else []) + Filter(s[1..], keep)
  }

  /** Filtering keeps every passing element as many times as it occurs, and
      no other element. */
  lemma {:induction false} FilterCounts<T>(s: seq<T>, keep: T -> bool)
    ensures forall x :: multiset(Filter(s, keep))[x] == if keep(x) then multiset(s)[x] else 0
  {
    if |s| > 0 {
      FilterCounts(s[1..], keep);
      assert s == [s[0]] + s[1..];
      assert multiset(s) == multiset([s[0]]) + multiset(s[1..]);
    }
  }

  lemma {:induction false} FilterIsSubsequence<T>(s: seq<T>, keep: T -> bool)
    ensures IsSubsequence(Filter(s, keep), s)
  {
    if |s| > 0 {
      FilterIsSubsequence(s[1..], keep);
      var r := Filter(s, keep);
      if keep(s[0]) {
        assert r[0] == s[0] && r[1..] == Filter(s[1..], keep);
      } else {
        assert r == Filter(s[1..], keep);
      }
    }
  }

  /** Filtering by a predicate that holds everywhere is the identity. */
  lemma {:induction false} FilterAll<T>(s: seq<T>, keep: T -> bool)
    requires forall x :: x in s ==> keep(x)
    ensures Filter(s, keep) == s
  {
    if |s| > 0 {
      assert s[0] in s;
      assert forall x :: x in s[1..] ==> x in s;
      FilterAll(s[1..], keep);
      assert [s[0]] + s[1..] == s;
    }
  }

  /** Two successive filters are one filter by the conjunction. */
  lemma {:induction false} FilterFilter<T>(s: seq<T>, p: T -> bool, q: T -> bool, both: T -> bool)
    requires forall x :: both(x) == (p(x) && q(x))
    ensures Filter(Filter(s, p), q) == Filter(s, both)
  {
    if |s| > 0 {
      FilterFilter(s[1..], p, q, both);
      if p(s[0]) {
        assert Filter(s, p) == [s[0]] + Filter(s[1..], p);
        assert Filter(s, p)[0] == s[0] && Filter(s, p)[1..] == Filter(s[1..], p);
      } else {
        assert Filter(s, p) == Filter(s[1..], p);
      }
    }
  }

  /** Filtering distributes over concatenation. */
  lemma {:induction false} FilterConcat<T>(a: seq<T>, b: seq<T>, keep: T -> bool)
    ensures Filter(a + b, keep) == Filter(a, keep) + Filter(b, keep)
  {
    if |a| > 0 {
      var ab := a + b;
      assert ab[0] == a[0] && ab[1..] == a[1..] + b;
      FilterConcat(a[1..], b, keep);
      assert Filter(ab, keep) == (if keep(a[0]) then [a[0]] else []) + Filter(a[1..] + b, keep);
    } else {
      assert a + b == b;
    }
  }

  /** Filters that agree on every element give the same result. */
  lemma {:induction false} FilterCongruent<T>(s: seq<T>, p: T -> bool, q: T -> bool)
    requires forall x :: x in s ==> p(x) == q(x)
    ensures Filter(s, p) == Filter(s, q)
  {
    if |s| > 0 {
      assert s[0] in s;
      assert forall x :: x in s[1..] ==> x in s;
      FilterCongruent(s[1..], p, q);
    }
  }

  /** `[...new Set(s)]`: the first occurrence of every element, in insertion order. */
  function Dedup<T(==)>(s: seq<T>): (r: seq<T>)
    ensures NoDuplicates(r)
    ensures forall x :: x in r ==> x in s
    ensures forall x :: x in s ==> x in r
    ensures |r| <= |s|
  {
    if |s| == 0 then []
    else
      var prefix := Dedup(s[..|s| - 1]);
      assert forall x :: x in s[..|s| - 1] ==> x in s;
      assert forall x :: x in s ==> x in s[..|s| - 1] || x == s[|s| - 1];
      if s[|s| - 1] in prefix then prefix else prefix + [s[|s| - 1]]
  }

  /** `Dedup` keeps first occurrences in insertion order: an element listed
      before another occurs in the input before any occurrence of it. */
  lemma {:induction false} DedupKeepsFirstOrder<T>(s: seq<T>, i: nat, j: nat)
    requires i < j < |Dedup(s)|
    ensures exists a :: 0 <= a < |s| && s[a] == Dedup(s)[i] && forall b :: 0 <= b <= a ==> s[b] != Dedup(s)[j]
  {
    var p, last := s[..|s| - 1], s[|s| - 1];
    var rp, r := Dedup(p), Dedup(s);
    assert r == if last in rp then rp else rp + [last];
    assert forall b :: 0 <= b < |p| ==> s[b] == p[b];
    if j < |rp| {
      DedupKeepsFirstOrder(p, i, j);
      assert r[i] == rp[i] && r[j] == rp[j];
      var a :| 0 <= a < |p| && p[a] == rp[i] && forall b :: 0 <= b <= a ==> p[b] != rp[j];
      assert s[a] == r[i];
    } else {
      assert r[j] == last && last !in rp && r[i] == rp[i];
      assert rp[i] in rp;
      var a :| 0 <= a < |p| && p[a] == rp[i];
      assert s[a] == r[i];
    }
  }

  /** `xs.join(sep)`. */
  function Join(xs: seq<string>, sep: string): string {
    if |xs| == 0 then ""
    else if |xs| == 1 then xs[0]
    else xs[0] + sep + Join(xs[1..], sep)
  }

  lemma {:induction false} JoinSnoc(xs: seq<string>, y: string, sep: string)
    requires |xs| > 0
    ensures Join(xs + [y], sep) == Join(xs, sep) + sep + y
  {
    if |xs| == 1 {
      assert xs + [y] == [xs[0], y];
      assert [xs[0], y][1..] == [y];
    } else {
      assert (xs + [y])[1..] == xs[1..] + [y];
      JoinSnoc(xs[1..], y, sep);
    }
  }

  /** Joining a concatenation: a separator goes between the two parts only
      when both are non-empty. */
  lemma {:induction false} JoinAppend(xs: seq<string>, ys: seq<string>, sep: string)
    requires |xs| > 0
    ensures Join(xs + ys, sep) == if |ys| == 0 then Join(xs, sep) else Join(xs, sep) + sep + Join(ys, sep)
    decreases |ys|
  {
    if |ys| == 0 {
      assert xs + ys == xs;
    } else if |ys| == 1 {
      assert ys == [ys[0]];
      JoinSnoc(xs, ys[0], sep);
    } else {
      var ys' := ys[..|ys| - 1];
      var y := ys[|ys| - 1];
      assert ys == ys' + [y];
      assert xs + ys == (xs + ys') + [y];
      JoinSnoc(xs + ys', y, sep);
      JoinAppend(xs, ys', sep);
      JoinSnoc(ys', y, sep);
    }
  }

  /** The first element of a non-empty list opens the joined string. */
  lemma {:induction false} JoinStartsWithFirst(xs: seq<string>, sep: string)
    requires |xs| > 0
    ensures xs[0] <= Join(xs, sep)
  {
  }

  /** Splits a string at every occurrence of `sep`: "a^b^" gives ["a", "b", ""]. */
  function Split(s: string, sep: char): (r: seq<string>)
    ensures |r| > 0
  {
    if |s| == 0 then [""]
    else
      var rest := Split(s[1..], sep);
      if s[0] == sep then [""] + rest else [[s[0]] + rest[0]] + rest[1..]
  }

  lemma {:induction false} SplitPrefixedPiece(piece: string, sep: char, tail: string)
    requires sep !in piece
    ensures Split(piece + [sep] + tail, sep) == [piece] + Split(tail, sep)
    decreases |piece|
  {
    if |piece| == 0 {
      assert piece + [sep] + tail == [sep] + tail;
      assert ([sep] + tail)[1..] == tail;
    } else {
      var s := piece + [sep] + tail;
      assert s[0] == piece[0] && s[1..] == piece[1..] + [sep] + tail;
      SplitPrefixedPiece(piece[1..], sep, tail);
      assert [piece[0]] + piece[1..] == piece;
    }
  }

  lemma {:induction false} SplitPlain(piece: string, sep: char)
    requires sep !in piece
    ensures Split(piece, sep) == [piece]
    decreases |piece|
  {
    if |piece| > 0 {
      SplitPlain(piece[1..], sep);
      assert [piece[0]] + piece[1..] == piece;
    }
  }

  /** Splitting a joined list at the separator gives the list back, provided no
      element contains the separator. */
  lemma {:induction false} SplitJoin(xs: seq<string>, sep: char)
    requires |xs| > 0
    requires forall i :: 0 <= i < |xs| ==> sep !in xs[i]
    ensures Split(Join(xs, [sep]), sep) == xs
  {
    if |xs| == 1 {
      SplitPlain(xs[0], sep);
    } else {
      SplitJoin(xs[1..], sep);
      SplitPrefixedPiece(xs[0], sep, Join(xs[1..], [sep]));
      assert [xs[0]] + xs[1..] == xs;
    }
  }

  /** `s.includes(p)`. */
  predicate Contains(s: string, p: string)
    decreases |s|
  {
    p <= s || (|s| > 0 && Contains(s[1..], p))
  }

  /** `p` occurs in `s` starting at offset `k`. */
  ghost predicate OccursAt(s: string, p: string, k: int) {
    0 <= k && k + |p| <= |s| && s[k..k + |p|] == p
  }

  /** `Contains` holds exactly when `p` occurs at some offset of `s`. */
  lemma {:induction false} ContainsAtOffset(s: string, p: string)
    ensures Contains(s, p) <==> exists k :: OccursAt(s, p, k)
    decreases |s|
  {
    if p <= s {
      assert OccursAt(s, p, 0);
    } else if |s| > 0 {
      ContainsAtOffset(s[1..], p);
      if Contains(s[1..], p) {
        var k :| OccursAt(s[1..], p, k);
        assert s[k + 1..k + 1 + |p|] == s[1..][k..k + |p|];
        assert OccursAt(s, p, k + 1);
      }
      if exists k :: OccursAt(s, p, k) {
        var k :| OccursAt(s, p, k);
        if k > 0 {
          assert s[1..][k - 1..k - 1 + |p|] == s[k..k + |p|];
          assert OccursAt(s[1..], p, k - 1);
        }
      }
    } else {
      assert forall k :: !OccursAt(s, p, k);
    }
  }

  /** ASCII `toLowerCase` on one character. */
  function LowerChar(c: char): char {
    if 'A' <= c <= 'Z' then (c as int + 32) as char else c
  }

  /** ASCII `String.prototype.toLowerCase`. */
  function Lower(s: string): (r: string)
    ensures |r| == |s|
    ensures forall i :: 0 <= i < |s| ==> r[i] == LowerChar(s[i])
    ensures forall i :: 0 <= i < |r| ==> !('A' <= r[i] <= 'Z')
    ensures forall i :: 0 <= i < |s| && !('A' <= s[i] <= 'Z') ==> r[i] == s[i]
    ensures forall i :: 0 <= i < |s| && 'A' <= s[i] <= 'Z' ==> 'a' <= r[i] <= 'z' && r[i] as int - s[i] as int == 'a' as int - 'A' as int
  {
    seq(|s|, i requires 0 <= i < |s| => LowerChar(s[i]))
  }

  /** Lower-casing is idempotent. */
  lemma LowerIdempotent(s: string)
    ensures Lower(Lower(s)) == Lower(s)
  {
  }
}
