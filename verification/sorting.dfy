/** Python's `sorted` on a list of integers, as a functional insertion sort,
    and the fact that a sorted arrangement of a multiset is unique. */
module Sorting {

  predicate IsSorted(s: seq<int>) {
    forall i, j :: 0 <= i < j < |s| ==> s[i] <= s[j]
  }

  /** Insert `x` into a sequence, before the first element not smaller
      than it. */
  function Insert(x: int, s: seq<int>): (r: seq<int>)
    ensures multiset(r) == multiset(s) + multiset{x}
    ensures |r| == |s| + 1
    decreases |s|
  {
    if s == [] || x <= s[0] then
      [x] + s
    else
      assert s == [s[0]] + s[1..];
      [s[0]] + Insert(x, s[1..])
  }

  /** Inserting into a sorted sequence keeps it sorted, and the new head is
      either `x` or the old head. */
  lemma {:induction false} InsertSorted(x: int, s: seq<int>)
    requires IsSorted(s)
    ensures IsSorted(Insert(x, s))
    ensures Insert(x, s)[0] == x || (s != [] && Insert(x, s)[0] == s[0])
    decreases |s|
  {
    if s == [] || x <= s[0] {
      var r := [x] + s;
      assert forall i, j :: 0 <= i < j < |r| ==> r[i] <= r[j] by {
        forall i, j | 0 <= i < j < |r| ensures r[i] <= r[j] {
          if i > 0 { assert r[i] == s[i - 1] && r[j] == s[j - 1]; }
          else { assert r[j] == s[j - 1]; }
        }
      }
    } else {
      var t := Insert(x, s[1..]);
      InsertSorted(x, s[1..]);
      assert s[0] <= t[0];
      var r := [s[0]] + t;
      forall i, j | 0 <= i < j < |r| ensures r[i] <= r[j] {
        if i > 0 { assert r[i] == t[i - 1] && r[j] == t[j - 1]; }
        else { assert r[j] == t[j - 1] && t[0] <= t[j - 1]; }
      }
    }
  }

  /** `sorted(xs)`: an ascending rearrangement of `xs`. */
  function InsertionSort(xs: seq<int>): (r: seq<int>)
    ensures IsSorted(r)
    ensures multiset(r) == multiset(xs)
    decreases |xs|
  {
    if xs == [] then []
    else
      assert xs == [xs[0]] + xs[1..];
      InsertSorted(xs[0], InsertionSort(xs[1..]));
      Insert(xs[0], InsertionSort(xs[1..]))
  }

  /** Sorting keeps the length. */
  lemma SortedLength(xs: seq<int>)
    ensures |InsertionSort(xs)| == |xs|
  {
    assert |multiset(InsertionSort(xs))| == |multiset(xs)|;
  }

  /** The head of a sorted sequence is its least element. */
  lemma SortedHeadLeast(a: seq<int>, x: int)
    requires IsSorted(a) && x in multiset(a)
    ensures a[0] <= x
  {
    assert x in a;
    var i :| 0 <= i < |a| && a[i] == x;
    assert i == 0 || a[0] <= a[i];
  }

  /** Dropping the head of a non-empty sorted sequence leaves a sorted
      sequence holding one fewer copy of the head. */
  lemma SortedTail(a: seq<int>)
    requires a != [] && IsSorted(a)
    ensures IsSorted(a[1..])
    ensures multiset(a[1..]) == multiset(a) - multiset{a[0]}
  {
    assert a == [a[0]] + a[1..];
    forall i, j | 0 <= i < j < |a[1..]| ensures a[1..][i] <= a[1..][j] {
      assert a[1..][i] == a[i + 1] && a[1..][j] == a[j + 1];
    }
  }

  /** Two sorted sequences with the same elements start alike. */
  lemma SameHead(a: seq<int>, b: seq<int>)
    requires IsSorted(a) && IsSorted(b) && a != []
    requires multiset(a) == multiset(b)
    ensures b != [] && a[0] == b[0]
  {
    assert a[0] in multiset(a);
    assert b != [];
    assert b[0] in multiset(b);
    SortedHeadLeast(a, b[0]);
    SortedHeadLeast(b, a[0]);
  }

  /** Two sorted sequences with the same elements are equal. */
  lemma {:induction false} SortedUnique(a: seq<int>, b: seq<int>)
    requires IsSorted(a) && IsSorted(b)
    requires multiset(a) == multiset(b)
    ensures a == b
    decreases |a|
  {
    if a == [] {
      assert |multiset(b)| == 0;
    } else {
      SameHead(a, b);
      SortedTail(a);
      SortedTail(b);
      SortedUnique(a[1..], b[1..]);
      assert a == [a[0]] + a[1..];
      assert b == [b[0]] + b[1..];
    }
  }

  /** The index list the validator wants. */
  const OneToSix: seq<int> := [1, 2, 3, 4, 5, 6]

  /** `sorted(xs) == [1, 2, 3, 4, 5, 6]` exactly when `xs` holds each of
      1..6 once and nothing else, in any order. */
  lemma SortedIsOneToSix(xs: seq<int>)
    ensures InsertionSort(xs) == OneToSix <==> multiset(xs) == multiset(OneToSix)
  {
    assert IsSorted(OneToSix);
    if multiset(xs) == multiset(OneToSix) {
      SortedUnique(InsertionSort(xs), OneToSix);
    }
  }

  /** The positions listed top line first are a permutation of 1..6. */
  lemma ReversedOneToSix()
    ensures multiset([6, 5, 4, 3, 2, 1]) == multiset(OneToSix)
  {
    DescendingElements();
    AscendingElements();
  }

  lemma DescendingElements()
    ensures multiset([6, 5, 4, 3, 2, 1]) == multiset{1, 2, 3, 4, 5, 6}
  {
  }

  lemma AscendingElements()
    ensures multiset(OneToSix) == multiset{1, 2, 3, 4, 5, 6}
  {
  }
}
