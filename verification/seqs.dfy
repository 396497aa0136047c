/**
 * Sequence operations that the dashboard borrows from the dataframe library:
 * boolean-mask selection (`df[mask]`), descending sort (`sort_values(ascending=False)`)
 * and column sums. They are generic so that one definition serves every column.
 */
module Seqs {

  /** `r` is obtained from `s` by deleting elements; what is kept keeps its order. */
  predicate IsSubsequence<T(==)>(r: seq<T>, s: seq<T>)
    decreases |s|
  {
    if r == [] then true
    else if s == [] then false
    else (r[0] == s[0] && IsSubsequence(r[1..], s[1..])) || IsSubsequence(r, s[1..])
  }

  lemma {:induction false} SubsequenceTransitive<T>(a: seq<T>, b: seq<T>, c: seq<T>)
    requires IsSubsequence(a, b) && IsSubsequence(b, c)
    ensures IsSubsequence(a, c)
    decreases |c|
  {
    if a == [] {
    } else if b == [] {
    } else if c == [] {
    } else if b[0] == c[0] && IsSubsequence(b[1..], c[1..]) {
      if a[0] == b[0] && IsSubsequence(a[1..], b[1..]) {
        SubsequenceTransitive(a[1..], b[1..], c[1..]);
      } else {
        SubsequenceTransitive(a, b[1..], c[1..]);
      }
    } else {
      SubsequenceTransitive(a, b, c[1..]);
    }
  }

  /** A subsequence is never longer than the sequence it is taken from. */
  lemma {:induction false} SubsequenceNoLonger<T>(r: seq<T>, s: seq<T>)
    requires IsSubsequence(r, s)
    ensures |r| <= |s|
    decreases |s|
  {
    if r != [] {
      if r[0] == s[0] && IsSubsequence(r[1..], s[1..]) {
        SubsequenceNoLonger(r[1..], s[1..]);
      } else {
        SubsequenceNoLonger(r, s[1..]);
      }
    }
  }

  /**
   * Boolean-mask selection: the elements of `s` for which `keep` holds, in their order.
   * Together the second and third postconditions determine `r` completely.
   */
  function Select<T(==,!new)>(s: seq<T>, keep: T -> bool): (r: seq<T>)
    ensures forall x :: x in r <==> x in s && keep(x)
    ensures forall x :: multiset(r)[x] == if keep(x) then multiset(s)[x] else 0
    ensures IsSubsequence(r, s)
  {
    if s == [] then []
    else
      assert s == [s[0]] + s[1..];
      if keep(s[0]) then [s[0]] + Select(s[1..], keep) else Select(s[1..], keep)
  }

  /** A mask that holds everywhere selects the whole sequence. */
  lemma {:induction false} SelectAll<T(!new)>(s: seq<T>, keep: T -> bool)
    requires forall x :: x in s ==> keep(x)
    ensures Select(s, keep) == s
  {
    if s != [] {
      SelectAll(s[1..], keep);
    }
  }

  /** Selecting again with the same mask changes nothing. */
  lemma {:induction false} SelectIdempotent<T(!new)>(s: seq<T>, keep: T -> bool)
    ensures Select(Select(s, keep), keep) == Select(s, keep)
  {
    SelectAll(Select(s, keep), keep);
  }

  /** Three masks applied one after another equal one mask that is their conjunction. */
  lemma {:induction false} SelectThrice<T(!new)>(s: seq<T>, p: T -> bool, q: T -> bool, t: T -> bool, all: T -> bool)
    requires forall x :: all(x) == (p(x) && q(x) && t(x))
    ensures Select(Select(Select(s, p), q), t) == Select(s, all)
  {
    if s != [] {
      SelectThrice(s[1..], p, q, t, all);
    }
  }

  /** Sorted by `key`, largest first (ties in any order). */
  predicate SortedDesc<T>(s: seq<T>, key: T -> real)
  {
    forall i, j :: 0 <= i < j < |s| ==> key(s[i]) >= key(s[j])
  }

  /** Inserts `x` into a sequence that is sorted descending by `key`. */
  function InsertDesc<T(==)>(x: T, s: seq<T>, key: T -> real): (r: seq<T>)
    requires SortedDesc(s, key)
    ensures SortedDesc(r, key)
    ensures multiset(r) == multiset(s) + multiset{x}
    ensures |r| == |s| + 1 && (r[0] == x || (s != [] && r[0] == s[0]))
  {
    if s == [] || key(s[0]) <= key(x) then [x] + s
    else
      var rest := InsertDesc(x, s[1..], key);
      assert s == [s[0]] + s[1..];
      assert key(rest[0]) <= key(s[0]);
      assert forall j :: 0 <= j < |rest| ==> key(rest[j]) <= key(rest[0]);
      [s[0]] + rest
  }

  /**
   * A descending sort by `key`. The order among equal keys is that of this particular
   * sort; nothing that uses it relies on that order.
   */
  function SortDesc<T(==)>(s: seq<T>, key: T -> real): (r: seq<T>)
    ensures SortedDesc(r, key)
    ensures multiset(r) == multiset(s)
    ensures |r| == |s|
  {
    if s == [] then []
    else
      assert s == [s[0]] + s[1..];
      InsertDesc(s[0], SortDesc(s[1..], key), key)
  }

  /** Sorting keeps exactly the same elements. */
  lemma {:induction false} SortKeepsMembers<T>(s: seq<T>, key: T -> real)
    ensures forall x :: x in SortDesc(s, key) <==> x in s
  {
    var r := SortDesc(s, key);
    forall x ensures x in r <==> x in s {
      assert x in r <==> x in multiset(r);
      assert x in s <==> x in multiset(s);
    }
  }

  /**
   * The first `k` elements of a descending sequence: still descending, drawn from it, and
   * no element left out is larger than any element kept.
   */
  lemma {:induction false} PrefixOfSorted<T>(t: seq<T>, key: T -> real, k: nat)
    requires SortedDesc(t, key) && k <= |t|
    ensures SortedDesc(t[..k], key)
    ensures multiset(t[..k]) <= multiset(t)
    ensures forall x, i :: x in multiset(t) - multiset(t[..k]) && 0 <= i < k ==> key(x) <= key(t[i])
  {
    assert t == t[..k] + t[k..];
    assert multiset(t) - multiset(t[..k]) == multiset(t[k..]);
    TailBelowPrefix(t, key, k);
  }

  lemma {:induction false} TailBelowPrefix<T>(t: seq<T>, key: T -> real, k: nat)
    requires SortedDesc(t, key) && k <= |t|
    ensures forall x, i :: x in t[k..] && 0 <= i < k ==> key(x) <= key(t[i])
  {
    forall x, i | x in t[k..] && 0 <= i < k ensures key(x) <= key(t[i]) {
      var q :| k <= q < |t| && t[q] == x;
    }
  }


  /** The sum of `w` over a sequence (pandas `sum()` on a column). */
  function SumBy<T>(s: seq<T>, w: T -> real): real
  {
    if s == [] then 0.0 else w(s[0]) + SumBy(s[1..], w)
  }

  lemma {:induction false} SumByAppend<T>(a: seq<T>, b: seq<T>, w: T -> real)
    ensures SumBy(a + b, w) == SumBy(a, w) + SumBy(b, w)
  {
    if a != [] {
      assert (a + b)[0] == a[0] && (a + b)[1..] == a[1..] + b;
      SumByAppend(a[1..], b, w);
    } else {
      assert a + b == b;
    }
  }

  lemma {:induction false} InsertKeepsSum<T>(x: T, s: seq<T>, key: T -> real, w: T -> real)
    requires SortedDesc(s, key)
    ensures SumBy(InsertDesc(x, s, key), w) == w(x) + SumBy(s, w)
  {
    if s != [] && key(s[0]) > key(x) {
      InsertKeepsSum(x, s[1..], key, w);
    }
  }

  /** Sorting does not change a column total. */
  lemma {:induction false} SortKeepsSum<T>(s: seq<T>, key: T -> real, w: T -> real)
    ensures SumBy(SortDesc(s, key), w) == SumBy(s, w)
  {
    if s != [] {
      SortKeepsSum(s[1..], key, w);
      InsertKeepsSum(s[0], SortDesc(s[1..], key), key, w);
    }
  }

  /** No two elements share the same `f`-image (for instance, the same label). */
  predicate DistinctBy<T, L(==)>(s: seq<T>, f: T -> L)
  {
    forall i, j :: 0 <= i < j < |s| ==> f(s[i]) != f(s[j])
  }

  lemma {:induction false} InsertKeepsDistinct<T, L>(x: T, s: seq<T>, key: T -> real, f: T -> L)
    requires SortedDesc(s, key) && DistinctBy(s, f)
    requires forall y :: y in s ==> f(y) != f(x)
    ensures DistinctBy(InsertDesc(x, s, key), f)
  {
    if s != [] && key(s[0]) > key(x) {
      InsertKeepsDistinct(x, s[1..], key, f);
      var rest := InsertDesc(x, s[1..], key);
      forall y | y in rest ensures f(y) != f(s[0]) {
        assert y in multiset(rest);
        if y != x {
          var k :| 1 <= k < |s| && s[k] == y;
        }
      }
    }
  }

  /** Sorting keeps the images distinct. */
  lemma {:induction false} SortKeepsDistinct<T, L>(s: seq<T>, key: T -> real, f: T -> L)
    requires DistinctBy(s, f)
    ensures DistinctBy(SortDesc(s, key), f)
  {
    if s != [] {
      SortKeepsDistinct(s[1..], key, f);
      var sorted := SortDesc(s[1..], key);
      forall y | y in sorted ensures f(y) != f(s[0]) {
        assert y in multiset(sorted);
        var k :| 1 <= k < |s| && s[k] == y;
      }
      InsertKeepsDistinct(s[0], sorted, key, f);
    }
  }
}
