/**
 * What the model relies on from Go's `sort.Sort` and `sort.IsSorted`.
 *
 * `sort.Sort` itself is library code; an insertion sort over the same `Less`
 * relation stands in for it. What the core relies on is that the result is a
 * permutation of the input, and that it is ordered when `Less` is a strict
 * weak order on the elements being sorted.
 */
module Sorting {

  /** No later element is `less` than an earlier one. */
  ghost predicate Sorted<T>(s: seq<T>, less: (T, T) -> bool) {
    forall i, j :: 0 <= i < j < |s| ==> !less(s[j], s[i])
  }

  /** Go's `sort.IsSorted`: no element is `less` than its predecessor. */
  predicate IsSorted<T>(s: seq<T>, less: (T, T) -> bool) {
    forall i :: 0 < i < |s| ==> !less(s[i], s[i - 1])
  }

  /** `less` is asymmetric and its incomparability is transitive on `xs`. */
  ghost predicate StrictWeakOn<T>(less: (T, T) -> bool, xs: multiset<T>) {
    && (forall a, b :: a in xs && b in xs && less(a, b) ==> !less(b, a))
    && (forall a, b, c :: a in xs && b in xs && c in xs && !less(a, b) && !less(b, c) ==> !less(a, c))
  }

  /** `less` is a strict total order on `xs`. */
  ghost predicate StrictTotalOn<T>(less: (T, T) -> bool, xs: multiset<T>) {
    && (forall a, b :: a in xs && b in xs && less(a, b) ==> !less(b, a))
    && (forall a, b, c :: a in xs && b in xs && c in xs && less(a, b) && less(b, c) ==> less(a, c))
    && (forall a, b :: a in xs && b in xs && a != b ==> less(a, b) || less(b, a))
  }

  lemma TotalIsWeak<T>(less: (T, T) -> bool, xs: multiset<T>)
    requires StrictTotalOn(less, xs)
    ensures StrictWeakOn(less, xs)
  {
    forall a, b, c | a in xs && b in xs && c in xs && !less(a, b) && !less(b, c)
      ensures !less(a, c)
    {
      assert a == b || less(b, a);
      assert b == c || less(c, b);
      assert c == a || less(c, a);
    }
  }

  lemma WeakOnSub<T>(less: (T, T) -> bool, xs: multiset<T>, ys: multiset<T>)
    requires StrictWeakOn(less, xs) && ys <= xs
    ensures StrictWeakOn(less, ys)
  {
  }

  /** Inserts `x` before the first element that is not `less` than it. */
  function Insert<T>(x: T, s: seq<T>, less: (T, T) -> bool): (r: seq<T>)
    ensures multiset(r) == multiset(s) + multiset{x}
    ensures |r| == |s| + 1
    decreases |s|
  {
    if s == [] then [x]
    else if !less(s[0], x) then [x] + s
    else
      assert s == [s[0]] + s[1..];
      [s[0]] + Insert(x, s[1..], less)
  }

  /** The stand-in for `sort.Sort`. */
  function SortBy<T>(s: seq<T>, less: (T, T) -> bool): (r: seq<T>)
    ensures multiset(r) == multiset(s)
    ensures |r| == |s|
    decreases |s|
  {
    if s == [] then []
    else
      assert s == [s[0]] + s[1..];
      Insert(s[0], SortBy(s[1..], less), less)
  }

  /** Every element of a sorted sequence comes from the input. */
  lemma SortByMembers<T>(s: seq<T>, less: (T, T) -> bool)
    ensures forall i :: 0 <= i < |SortBy(s, less)| ==> SortBy(s, less)[i] in s
  {
    var r := SortBy(s, less);
    forall i | 0 <= i < |r| ensures r[i] in s {
      assert r[i] in multiset(r);
    }
  }

  /** An element not above the head of a sorted sequence can be put in front. */
  lemma PrependSorted<T>(x: T, s: seq<T>, less: (T, T) -> bool)
    requires StrictWeakOn(less, multiset(s) + multiset{x})
    requires Sorted(s, less)
    requires s != [] && !less(s[0], x)
    ensures Sorted([x] + s, less)
  {
    var xs := multiset(s) + multiset{x};
    var r := [x] + s;
    forall j | 1 < j < |r| ensures !less(r[j], x) {
      assert r[j] == s[j - 1];
      assert s[j - 1] in xs && s[0] in xs && x in xs;
      assert !less(s[j - 1], s[0]);
    }
  }

  /** Prepending an element that no later element is `less` than keeps order. */
  lemma PrependBelow<T>(y: T, t: seq<T>, less: (T, T) -> bool)
    requires Sorted(t, less)
    requires forall k :: 0 <= k < |t| ==> !less(t[k], y)
    ensures Sorted([y] + t, less)
  {
    var r := [y] + t;
    forall i, j | 0 <= i < j < |r| ensures !less(r[j], r[i]) {
      if i > 0 {
        assert r[i] == t[i - 1] && r[j] == t[j - 1];
      } else {
        assert r[j] == t[j - 1];
      }
    }
  }

  lemma {:induction false} InsertSorted<T>(x: T, s: seq<T>, less: (T, T) -> bool)
    requires StrictWeakOn(less, multiset(s) + multiset{x})
    requires Sorted(s, less)
    ensures Sorted(Insert(x, s, less), less)
    decreases |s|
  {
    var xs := multiset(s) + multiset{x};
    if s == [] {
    } else if !less(s[0], x) {
      PrependSorted(x, s, less);
    } else {
      assert s == [s[0]] + s[1..];
      assert s[0] in xs && x in xs;
      assert !less(x, s[0]);
      WeakOnSub(less, xs, multiset(s[1..]) + multiset{x});
      InsertSorted(x, s[1..], less);
      var t := Insert(x, s[1..], less);
      forall k | 0 <= k < |t| ensures !less(t[k], s[0]) {
        assert t[k] in multiset(t);
        if t[k] != x {
          assert t[k] in multiset(s[1..]);
          var m :| 0 <= m < |s[1..]| && s[1..][m] == t[k];
          assert s[m + 1] == t[k];
        }
      }
      PrependBelow(s[0], t, less);
    }
  }

  /** The stand-in for `sort.Sort` orders elements under a strict weak order. */
  lemma {:induction false} SortBySorted<T>(s: seq<T>, less: (T, T) -> bool)
    requires StrictWeakOn(less, multiset(s))
    ensures Sorted(SortBy(s, less), less)
    decreases |s|
  {
    if s != [] {
      assert s == [s[0]] + s[1..];
      WeakOnSub(less, multiset(s), multiset(s[1..]));
      SortBySorted(s[1..], less);
      InsertSorted(s[0], SortBy(s[1..], less), less);
    }
  }

  lemma SortedIsSorted<T>(s: seq<T>, less: (T, T) -> bool)
    requires Sorted(s, less)
    ensures IsSorted(s, less)
  {
  }

  /** Under a strict weak order Go's neighbour check implies the full order. */
  lemma {:induction false} IsSortedSorted<T>(s: seq<T>, less: (T, T) -> bool)
    requires StrictWeakOn(less, multiset(s))
    requires IsSorted(s, less)
    ensures Sorted(s, less)
  {
    forall i, j | 0 <= i < j < |s| ensures !less(s[j], s[i]) {
      IsSortedPair(s, less, i, j);
    }
  }

  lemma {:induction false} IsSortedPair<T>(s: seq<T>, less: (T, T) -> bool, i: nat, j: nat)
    requires StrictWeakOn(less, multiset(s))
    requires IsSorted(s, less)
    requires i < j < |s|
    ensures !less(s[j], s[i])
    decreases j - i
  {
    if j > i + 1 {
      IsSortedPair(s, less, i, j - 1);
      assert s[j] in multiset(s) && s[j - 1] in multiset(s) && s[i] in multiset(s);
      assert !less(s[j], s[j - 1]);
    }
  }

  lemma TotalOnSub<T>(less: (T, T) -> bool, xs: multiset<T>, ys: multiset<T>)
    requires StrictTotalOn(less, xs) && ys <= xs
    ensures StrictTotalOn(less, ys)
  {
  }

  lemma SortedTail<T>(s: seq<T>, less: (T, T) -> bool)
    requires Sorted(s, less) && s != []
    ensures Sorted(s[1..], less)
  {
    forall i, j | 0 <= i < j < |s[1..]| ensures !less(s[1..][j], s[1..][i]) {
      assert s[1..][j] == s[j + 1] && s[1..][i] == s[i + 1];
    }
  }

  lemma SortedHeads<T>(s: seq<T>, t: seq<T>, less: (T, T) -> bool)
    requires multiset(s) == multiset(t)
    requires StrictTotalOn(less, multiset(s))
    requires Sorted(s, less) && Sorted(t, less)
    requires s != []
    ensures t != [] && s[0] == t[0]
  {
    assert s[0] in multiset(t);
    var k :| 0 <= k < |t| && t[k] == s[0];
    assert t[0] in multiset(s);
    var m :| 0 <= m < |s| && s[m] == t[0];
    if k > 0 && m > 0 {
      assert !less(t[k], t[0]) && !less(s[m], s[0]);
      assert s[0] in multiset(s) && t[0] in multiset(s);
    }
  }

  /** Two sorted permutations of each other under a strict total order are equal. */
  lemma {:induction false} SortedUnique<T>(s: seq<T>, t: seq<T>, less: (T, T) -> bool)
    requires multiset(s) == multiset(t)
    requires StrictTotalOn(less, multiset(s))
    requires Sorted(s, less) && Sorted(t, less)
    ensures s == t
    decreases |s|
  {
    if s == [] {
      assert |multiset(t)| == 0;
    } else {
      SortedHeads(s, t, less);
      assert s == [s[0]] + s[1..] && t == [t[0]] + t[1..];
      assert multiset(s[1..]) == multiset(t[1..]);
      TotalOnSub(less, multiset(s), multiset(s[1..]));
      SortedTail(s, less);
      SortedTail(t, less);
      SortedUnique(s[1..], t[1..], less);
    }
  }
}
