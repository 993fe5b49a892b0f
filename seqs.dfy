/**
 * The array operations the screens build on: `Array.prototype.filter`, which
 * keeps an order-preserving subsequence, and `Array.prototype.sort` with a
 * comparator, whose result is a permutation ordered by that comparator.
 */
module Seqs {

  /** `a` is obtained from `b` by deleting elements and keeping the order of the rest. */
  ghost predicate IsSubsequence<T>(a: seq<T>, b: seq<T>)
    decreases |b|
  {
    if a == [] then true
    else if b == [] then false
    else (a[0] == b[0] && IsSubsequence(a[1..], b[1..])) || IsSubsequence(a, b[1..])
  }

  lemma {:induction false} SubsequenceTransitive<T>(a: seq<T>, b: seq<T>, c: seq<T>)
    requires IsSubsequence(a, b) && IsSubsequence(b, c)
    ensures IsSubsequence(a, c)
    decreases |c|
  {
    if a != [] {
      assert b != [] && c != [];
      if IsSubsequence(b, c[1..]) {
        SubsequenceTransitive(a, b, c[1..]);
      } else if a[0] == b[0] && IsSubsequence(a[1..], b[1..]) {
        SubsequenceTransitive(a[1..], b[1..], c[1..]);
      } else {
        SubsequenceTransitive(a, b[1..], c[1..]);
      }
    }
  }

  /** `s.filter(keep)`. */
  function Filter<T(!new)>(s: seq<T>, keep: T -> bool): (r: seq<T>)
    ensures |r| <= |s|
    ensures IsSubsequence(r, s)
    ensures forall i :: 0 <= i < |r| ==> keep(r[i])
    ensures forall x :: x in r <==> x in s && keep(x)
  {
    if s == [] then []
    else
      assert s == [s[0]] + s[1..];
      var rest := Filter(s[1..], keep);
      if keep(s[0]) then [s[0]] + rest else rest
  }

  /** The filter keeps every passing value as many times as it occurs, and no other value. */
  lemma {:induction false} FilterCounts<T(!new)>(s: seq<T>, keep: T -> bool)
    ensures forall x :: multiset(Filter(s, keep))[x] == if keep(x) then multiset(s)[x] else 0
  {
    if s != [] {
      assert s == [s[0]] + s[1..];
      FilterCounts(s[1..], keep);
    }
  }

  lemma {:induction false} FilterAppend<T(!new)>(a: seq<T>, b: seq<T>, keep: T -> bool)
    ensures Filter(a + b, keep) == Filter(a, keep) + Filter(b, keep)
  {
    if a == [] {
      assert a + b == b;
    } else {
      assert (a + b)[1..] == a[1..] + b;
      FilterAppend(a[1..], b, keep);
    }
  }

  /** Filtering with two predicates that agree on every element gives the same result. */
  lemma {:induction false} FilterSamePredicate<T(!new)>(s: seq<T>, f: T -> bool, g: T -> bool)
    requires forall i :: 0 <= i < |s| ==> f(s[i]) == g(s[i])
    ensures Filter(s, f) == Filter(s, g)
  {
    if s != [] {
      FilterSamePredicate(s[1..], f, g);
    }
  }

  /** Every element passes, so nothing is dropped. */
  lemma {:induction false} FilterKeepsAll<T(!new)>(s: seq<T>, keep: T -> bool)
    requires forall i :: 0 <= i < |s| ==> keep(s[i])
    ensures Filter(s, keep) == s
  {
    if s != [] {
      FilterKeepsAll(s[1..], keep);
    }
  }

  /** The filter is empty exactly when no element passes. */
  lemma FilterEmpty<T(!new)>(s: seq<T>, keep: T -> bool)
    ensures Filter(s, keep) == [] <==> forall i :: 0 <= i < |s| ==> !keep(s[i])
  {
    var r := Filter(s, keep);
    if r == [] {
      forall i | 0 <= i < |s| ensures !keep(s[i]) {
        assert s[i] !in r;
      }
    } else {
      assert r[0] in s;
    }
  }

  /** Splitting by a predicate and its negation accounts for every element once. */
  lemma {:induction false} FilterComplementLength<T(!new)>(s: seq<T>, keep: T -> bool, drop: T -> bool)
    requires forall x :: drop(x) == !keep(x)
    ensures |Filter(s, keep)| + |Filter(s, drop)| == |s|
  {
    if s != [] {
      FilterComplementLength(s[1..], keep, drop);
    }
  }

  /** A weaker predicate keeps at least as many elements. */
  lemma {:induction false} FilterLengthMonotone<T(!new)>(s: seq<T>, f: T -> bool, g: T -> bool)
    requires forall i :: 0 <= i < |s| && f(s[i]) ==> g(s[i])
    ensures |Filter(s, f)| <= |Filter(s, g)|
  {
    if s != [] {
      FilterLengthMonotone(s[1..], f, g);
    }
  }

  // ------------------------------------------------------------------ sort

  /**
   * A comparator `sort` can rely on: reading "`cmp(x, y) <= 0`" as "`x` may come
   * before `y`" gives a total preorder.
   */
  ghost predicate IsConsistentComparator<T(!new)>(cmp: (T, T) -> int)
  {
    && (forall x, y :: cmp(x, y) <= 0 || cmp(y, x) <= 0)
    && (forall x, y, z :: cmp(x, y) <= 0 && cmp(y, z) <= 0 ==> cmp(x, z) <= 0)
  }

  ghost predicate IsSortedWith<T>(s: seq<T>, cmp: (T, T) -> int)
  {
    forall i, j :: 0 <= i < j < |s| ==> cmp(s[i], s[j]) <= 0
  }

  lemma HeadPrecedesInsertion<T(!new)>(h: T, x: T, t: seq<T>, r: seq<T>, cmp: (T, T) -> int)
    requires cmp(h, x) <= 0
    requires forall j :: 0 <= j < |t| ==> cmp(h, t[j]) <= 0
    requires multiset(r) == multiset{x} + multiset(t)
    ensures forall k :: 0 <= k < |r| ==> cmp(h, r[k]) <= 0
  {
    forall k | 0 <= k < |r| ensures cmp(h, r[k]) <= 0 {
      assert r[k] in multiset(r);
      if r[k] != x {
        assert r[k] in multiset(t);
        var j :| 0 <= j < |t| && t[j] == r[k];
      }
    }
  }

  /** An element that may precede every element of a sorted sequence may head it. */
  lemma ConsSorted<T>(h: T, t: seq<T>, cmp: (T, T) -> int)
    requires IsSortedWith(t, cmp)
    requires forall j :: 0 <= j < |t| ==> cmp(h, t[j]) <= 0
    ensures IsSortedWith([h] + t, cmp)
  {
    var r := [h] + t;
    forall i, j | 0 <= i < j < |r| ensures cmp(r[i], r[j]) <= 0 {
      if i > 0 {
        assert r[i] == t[i - 1] && r[j] == t[j - 1];
      } else {
        assert r[j] == t[j - 1];
      }
    }
  }

  /** What may precede the head of a sorted sequence may precede all of it. */
  lemma PrecedesHeadPrecedesAll<T(!new)>(x: T, s: seq<T>, cmp: (T, T) -> int)
    requires IsConsistentComparator(cmp)
    requires IsSortedWith(s, cmp)
    requires s != [] && cmp(x, s[0]) <= 0
    ensures forall j :: 0 <= j < |s| ==> cmp(x, s[j]) <= 0
  {
    forall j | 0 < j < |s| ensures cmp(x, s[j]) <= 0 {
      assert cmp(s[0], s[j]) <= 0;
    }
  }

  /** Inserts `x` into the sorted `s` before the first element it may precede. */
  function InsertWith<T(!new)>(x: T, s: seq<T>, cmp: (T, T) -> int): (r: seq<T>)
    requires IsConsistentComparator(cmp)
    requires IsSortedWith(s, cmp)
    ensures multiset(r) == multiset{x} + multiset(s)
    ensures IsSortedWith(r, cmp)
  {
    if s == [] then [x]
    else if cmp(x, s[0]) <= 0 then
      PrecedesHeadPrecedesAll(x, s, cmp);
      ConsSorted(x, s, cmp);
      [x] + s
    else
      assert s == [s[0]] + s[1..];
      var rest := InsertWith(x, s[1..], cmp);
      assert cmp(s[0], x) <= 0;
      HeadPrecedesInsertion(s[0], x, s[1..], rest, cmp);
      ConsSorted(s[0], rest, cmp);
      [s[0]] + rest
  }

  /**
   * `[...s].sort(cmp)`: a permutation of `s` in which every element may precede
   * every later one. Insertion sort stands in for the engine's algorithm.
   */
  function SortWith<T(!new)>(s: seq<T>, cmp: (T, T) -> int): (r: seq<T>)
    requires IsConsistentComparator(cmp)
    ensures multiset(r) == multiset(s)
    ensures |r| == |s|
    ensures IsSortedWith(r, cmp)
  {
    if s == [] then []
    else
      assert s == [s[0]] + s[1..];
      var r := InsertWith(s[0], SortWith(s[1..], cmp), cmp);
      assert |r| == |multiset(r)|;
      r
  }

  /** The elements that compare as equal to `x`: each may precede the other. */
  function TiedWith<T>(cmp: (T, T) -> int, x: T): T -> bool
  {
    y => cmp(x, y) <= 0 && cmp(y, x) <= 0
  }

  /**
   * Inserting `h` leaves the elements tied with any `x` in their order, and `h`,
   * when it is one of them, lands ahead of the others.
   */
  lemma {:induction false} InsertKeepsTiedOrder<T(!new)>(h: T, t: seq<T>, cmp: (T, T) -> int, x: T)
    requires IsConsistentComparator(cmp)
    requires IsSortedWith(t, cmp)
    ensures Filter(InsertWith(h, t, cmp), TiedWith(cmp, x))
         == if TiedWith(cmp, x)(h) then [h] + Filter(t, TiedWith(cmp, x)) else Filter(t, TiedWith(cmp, x))
  {
    var tied := TiedWith(cmp, x);
    var r := InsertWith(h, t, cmp);
    if t == [] {
      assert r == [h];
    } else if cmp(h, t[0]) <= 0 {
      assert r == [h] + t;
      assert r[1..] == t;
    } else {
      var rest := InsertWith(h, t[1..], cmp);
      assert r == [t[0]] + rest;
      assert r[1..] == rest;
      InsertKeepsTiedOrder(h, t[1..], cmp, x);
      assert tied(h) ==> !tied(t[0]);
    }
  }

  /**
   * The sort is stable: the elements that compare as equal to any `x` appear in
   * the result in the order they had in the input.
   */
  lemma {:induction false} SortWithIsStable<T(!new)>(s: seq<T>, cmp: (T, T) -> int, x: T)
    requires IsConsistentComparator(cmp)
    ensures Filter(SortWith(s, cmp), TiedWith(cmp, x)) == Filter(s, TiedWith(cmp, x))
  {
    if s != [] {
      SortWithIsStable(s[1..], cmp, x);
      InsertKeepsTiedOrder(s[0], SortWith(s[1..], cmp), cmp, x);
    }
  }
}
