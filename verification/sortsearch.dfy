/**
 * The two library routines behind the heroism rank: `sort.Ints` and
 * `sort.SearchInts` from Go's standard library.
 *
 * `SearchInts` is the binary search of `sort.Search` with the predicate
 * `a[i] >= x`; on a sorted slice it returns the number of elements below `x`.
 */
module SortSearch {

  predicate Sorted(a: seq<int>) {
    forall i, j :: 0 <= i < j < |a| ==> a[i] <= a[j]
  }

  /** Inserts `x` into a sorted sequence before the first element not below it. */
  function Insert(x: int, a: seq<int>): (r: seq<int>)
    requires Sorted(a)
    ensures Sorted(r)
    ensures multiset(r) == multiset(a) + multiset{x}
    ensures |r| == |a| + 1
  {
    if a == [] then [x]
    else if x <= a[0] then [x] + a
    else
      var tail := Insert(x, a[1..]);
      InsertBounded(x, a, tail);
      [a[0]] + tail
  }

  /** Everything inserted after the head of `a` is at least that head. */
  lemma InsertBounded(x: int, a: seq<int>, tail: seq<int>)
    requires Sorted(a) && a != [] && a[0] < x
    requires multiset(tail) == multiset(a[1..]) + multiset{x}
    ensures forall k :: 0 <= k < |tail| ==> a[0] <= tail[k]
    ensures multiset([a[0]] + tail) == multiset(a) + multiset{x}
  {
    assert a == [a[0]] + a[1..];
    forall k | 0 <= k < |tail| ensures a[0] <= tail[k] {
      assert tail[k] in multiset(tail);
      if tail[k] != x {
        assert tail[k] in multiset(a[1..]);
        assert tail[k] in a[1..];
      }
    }
  }

  /** Insertion sort: a sorted permutation of the input. */
  function Sort(a: seq<int>): (r: seq<int>)
    ensures Sorted(r)
    ensures multiset(r) == multiset(a)
    ensures |r| == |a|
  {
    if a == [] then []
    else
      assert a == [a[0]] + a[1..];
      Insert(a[0], Sort(a[1..]))
  }

  /**
   * The loop of `sort.Search` between the bounds `lo` and `hi`: every index
   * below `lo` is known to fail `a[i] >= x` and every index from `hi` on to
   * satisfy it. The midpoint is `(lo + hi) / 2`, as in the source.
   */
  function SearchFrom(a: seq<int>, x: int, lo: nat, hi: nat): (i: nat)
    requires Sorted(a) && lo <= hi <= |a|
    requires forall k :: 0 <= k < lo ==> a[k] < x
    requires forall k :: hi <= k < |a| ==> x <= a[k]
    ensures lo <= i <= hi
    ensures forall k :: 0 <= k < i ==> a[k] < x
    ensures forall k :: i <= k < |a| ==> x <= a[k]
    decreases hi - lo
  {
    if lo < hi then
      var h := (lo + hi) / 2;
      if a[h] < x then SearchFrom(a, x, h + 1, hi) else SearchFrom(a, x, lo, h)
    else lo
  }

  /** `sort.SearchInts`: the first index whose element is at least `x` (|a| if none). */
  function SearchInts(a: seq<int>, x: int): (i: nat)
    requires Sorted(a)
    ensures i <= |a|
    ensures forall k :: 0 <= k < i ==> a[k] < x
    ensures forall k :: i <= k < |a| ==> x <= a[k]
  {
    SearchFrom(a, x, 0, |a|)
  }

  /** The number of elements strictly below `x`, in any order. */
  function CountLess(a: seq<int>, x: int): (n: nat)
    ensures n <= |a|
  {
    if a == [] then 0 else (if a[0] < x then 1 else 0) + CountLess(a[1..], x)
  }

  lemma {:induction false} CountLessAppend(a: seq<int>, b: seq<int>, x: int)
    ensures CountLess(a + b, x) == CountLess(a, x) + CountLess(b, x)
  {
    if a != [] {
      var c := a + b;
      assert c[0] == a[0];
      assert c[1..] == a[1..] + b;
      CountLessAppend(a[1..], b, x);
      assert CountLess(c, x) == (if c[0] < x then 1 else 0) + CountLess(c[1..], x);
    } else {
      assert a + b == b;
    }
  }

  /** Removing the element at `j` lowers the count by exactly that element's share. */
  lemma CountLessRemove(b: seq<int>, j: nat, x: int)
    requires j < |b|
    ensures CountLess(b, x) == CountLess(b[..j] + b[j + 1..], x) + (if b[j] < x then 1 else 0)
  {
    assert b == b[..j] + ([b[j]] + b[j + 1..]);
    CountLessAppend(b[..j], [b[j]] + b[j + 1..], x);
    CountLessAppend([b[j]], b[j + 1..], x);
    CountLessAppend(b[..j], b[j + 1..], x);
    assert [b[j]][1..] == [];
  }

  /** Removing the element at `j` removes one copy of it from the multiset. */
  lemma MultisetRemove(b: seq<int>, j: nat)
    requires j < |b|
    ensures multiset(b[..j] + b[j + 1..]) == multiset(b) - multiset{b[j]}
  {
    assert b == b[..j] + [b[j]] + b[j + 1..];
  }

  /** Counting depends only on the multiset of elements, not on their order. */
  lemma {:induction false} CountLessPermutation(a: seq<int>, b: seq<int>, x: int)
    requires multiset(a) == multiset(b)
    ensures CountLess(a, x) == CountLess(b, x)
    decreases |a|
  {
    if a == [] {
      assert |b| == |multiset(b)| == 0;
    } else {
      assert a[0] in multiset(b);
      var j :| 0 <= j < |b| && b[j] == a[0];
      assert a == [a[0]] + a[1..];
      assert multiset(a[1..]) == multiset(a) - multiset{a[0]};
      MultisetRemove(b, j);
      CountLessPermutation(a[1..], b[..j] + b[j + 1..], x);
      CountLessRemove(b, j, x);
    }
  }

  lemma {:induction false} CountLessAllBelow(a: seq<int>, x: int)
    requires forall k :: 0 <= k < |a| ==> a[k] < x
    ensures CountLess(a, x) == |a|
  {
    if a != [] {
      CountLessAllBelow(a[1..], x);
    }
  }

  lemma {:induction false} CountLessNoneBelow(a: seq<int>, x: int)
    requires forall k :: 0 <= k < |a| ==> x <= a[k]
    ensures CountLess(a, x) == 0
  {
    if a != [] {
      CountLessNoneBelow(a[1..], x);
    }
  }

  /** On a sorted sequence the search index is the number of elements below `x`. */
  lemma SortedSearchCounts(s: seq<int>, x: int)
    requires Sorted(s)
    ensures SearchInts(s, x) == CountLess(s, x)
  {
    var i := SearchInts(s, x);
    assert s == s[..i] + s[i..];
    CountLessAppend(s[..i], s[i..], x);
    CountLessAllBelow(s[..i], x);
    CountLessNoneBelow(s[i..], x);
  }

  /** After sorting, the search index counts the elements of the unsorted input below `x`. */
  lemma SearchCountsBelow(a: seq<int>, x: int)
    ensures SearchInts(Sort(a), x) == CountLess(a, x)
  {
    SortedSearchCounts(Sort(a), x);
    CountLessPermutation(Sort(a), a, x);
  }
}
