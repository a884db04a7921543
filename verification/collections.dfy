/**
 * Sequence and set helpers used to model iteration over Go maps.
 *
 * Go visits the entries of a map in an unspecified order. The model fixes
 * that order to ascending identifier (`SetToSeq`), and every contract that
 * depends on a map walk is stated so that it holds for any order, apart
 * from the order of the lists the walk produces.
 */
module Collections {
  import opened Reals

  /** No element occurs twice. */
  predicate Distinct(xs: seq<nat>) {
    forall i, j :: 0 <= i < j < |xs| ==> xs[i] != xs[j]
  }

  /** The set of elements of a sequence. */
  function Elems(xs: seq<nat>): set<nat> {
    set x | x in xs
  }

  /** Strictly increasing, hence also distinct. */
  predicate Increasing(xs: seq<nat>) {
    forall i, j :: 0 <= i < j < |xs| ==> xs[i] < xs[j]
  }

  /** The least element of a non-empty set of naturals. */
  lemma {:induction false} HasLeast(s: set<nat>)
    requires s != {}
    ensures exists m :: m in s && forall y :: y in s ==> m <= y
  {
    var x :| x in s;
    LeastBelow(s, x);
  }

  /** Descending from any element reaches a least one: there are finitely many naturals below it. */
  lemma {:induction false} LeastBelow(s: set<nat>, x: nat)
    requires x in s
    ensures exists m :: m in s && forall y :: y in s ==> m <= y
    decreases x
  {
    if !forall y :: y in s ==> x <= y {
      var y :| y in s && y < x;
      LeastBelow(s, y);
    }
  }

  function Least(s: set<nat>): (m: nat)
    requires s != {}
    ensures m in s && forall y :: y in s ==> m <= y
  {
    HasLeast(s);
    var m :| m in s && forall y :: y in s ==> m <= y; m
  }

  /** The elements of `s` in ascending order: the model's map-iteration order. */
  function SetToSeq(s: set<nat>): (r: seq<nat>)
    ensures |r| == |s|
    ensures forall x :: x in r <==> x in s
    ensures Increasing(r)
    decreases |s|
  {
    if s == {} then []
    else
      var m := Least(s);
      [m] + SetToSeq(s - {m})
  }

  lemma IncreasingIsDistinct(xs: seq<nat>)
    requires Increasing(xs)
    ensures Distinct(xs)
  {
  }

  /** Two ascending enumerations of the same elements are the same sequence. */
  lemma {:induction false} IncreasingUnique(a: seq<nat>, b: seq<nat>)
    requires Increasing(a) && Increasing(b)
    requires forall x :: x in a <==> x in b
    ensures a == b
    decreases |a|
  {
    if |a| == 0 {
      HeadIn(b);
    } else {
      assert a[0] in b;
      assert b[0] in a;
      IncreasingHead(a, b[0]);
      IncreasingHead(b, a[0]);
      IncreasingTail(a);
      IncreasingTail(b);
      assert forall x :: x in a[1..] <==> x in b[1..];
      IncreasingUnique(a[1..], b[1..]);
      assert a == [a[0]] + a[1..];
      assert b == [b[0]] + b[1..];
    }
  }

  lemma HeadIn(s: seq<nat>)
    ensures |s| > 0 ==> s[0] in s
  {
  }

  /** The head of an ascending sequence is its least element. */
  lemma IncreasingHead(s: seq<nat>, x: nat)
    requires Increasing(s) && x in s
    ensures s[0] <= x
  {
    var i :| 0 <= i < |s| && s[i] == x;
    if i > 0 {
      assert s[0] < s[i];
    }
  }

  /** The tail of an ascending sequence is ascending and holds every element but the head. */
  lemma IncreasingTail(s: seq<nat>)
    requires Increasing(s) && |s| > 0
    ensures Increasing(s[1..])
    ensures forall x :: x in s[1..] <==> x in s && x != s[0]
  {
    forall x | x in s && x != s[0] ensures x in s[1..] {
      var i :| 0 <= i < |s| && s[i] == x;
      assert s[1..][i - 1] == x;
    }
    forall x | x in s[1..] ensures x != s[0] {
      var i :| 0 <= i < |s[1..]| && s[1..][i] == x;
      assert s[0] < s[i + 1];
    }
  }

  /** The elements of `xs` that satisfy `p`, in their original order. */
  function Filter(xs: seq<nat>, p: nat -> bool): (r: seq<nat>)
    ensures |r| <= |xs|
    ensures forall x :: x in r <==> x in xs && p(x)
  {
    if xs == [] then []
    else if p(xs[0]) then [xs[0]] + Filter(xs[1..], p)
    else Filter(xs[1..], p)
  }

  lemma {:induction false} FilterIncreasing(xs: seq<nat>, p: nat -> bool)
    requires Increasing(xs)
    ensures Increasing(Filter(xs, p))
  {
    if xs != [] {
      FilterIncreasing(xs[1..], p);
      var tail := Filter(xs[1..], p);
      forall j | 0 <= j < |tail|
        ensures xs[0] < tail[j]
      {
        assert tail[j] in xs[1..];
        var k :| 0 <= k < |xs[1..]| && xs[1..][k] == tail[j];
        assert xs[k + 1] == tail[j];
      }
    }
  }

  lemma {:induction false} FilterDistinct(xs: seq<nat>, p: nat -> bool)
    requires Distinct(xs)
    ensures Distinct(Filter(xs, p))
  {
    if xs != [] {
      FilterDistinct(xs[1..], p);
    }
  }

  lemma {:induction false} FilterAppend(xs: seq<nat>, x: nat, p: nat -> bool)
    ensures Filter(xs + [x], p) == Filter(xs, p) + (if p(x) then [x] else [])
  {
    if xs != [] {
      assert (xs + [x])[1..] == xs[1..] + [x];
      FilterAppend(xs[1..], x, p);
    }
  }

  /** Every element passes the filter exactly when the filter keeps the whole sequence. */
  lemma {:induction false} FilterKeepsAll(xs: seq<nat>, p: nat -> bool)
    ensures |Filter(xs, p)| == |xs| <==> forall i :: 0 <= i < |xs| ==> p(xs[i])
  {
    if xs != [] {
      FilterKeepsAll(xs[1..], p);
      if forall i :: 0 <= i < |xs| ==> p(xs[i]) {
        assert forall i :: 0 <= i < |xs[1..]| ==> p(xs[1..][i]);
      } else if p(xs[0]) {
        var i :| 0 <= i < |xs| && !p(xs[i]);
        assert !p(xs[1..][i - 1]);
      }
    }
  }

  /** No element passes the filter exactly when the filter keeps nothing. */
  lemma {:induction false} FilterKeepsNone(xs: seq<nat>, p: nat -> bool)
    ensures |Filter(xs, p)| == 0 <==> forall i :: 0 <= i < |xs| ==> !p(xs[i])
  {
    if xs != [] {
      FilterKeepsNone(xs[1..], p);
      if !p(xs[0]) && forall i :: 0 <= i < |xs[1..]| ==> !p(xs[1..][i]) {
        forall i | 0 <= i < |xs|
          ensures !p(xs[i])
        {
          if i > 0 {
            assert xs[i] == xs[1..][i - 1];
          }
        }
      }
    }
  }

  /** Walking a set in ascending order and filtering is walking the filtered set. */
  lemma FilterOfSetToSeq(s: set<nat>, p: nat -> bool)
    ensures Filter(SetToSeq(s), p) == SetToSeq(set x | x in s && p(x))
  {
    FilterIncreasing(SetToSeq(s), p);
    IncreasingUnique(Filter(SetToSeq(s), p), SetToSeq(set x | x in s && p(x)));
  }

  /** A duplicate-free sequence has as many elements as the set of its elements. */
  lemma {:induction false} DistinctCardinality(xs: seq<nat>)
    requires Distinct(xs)
    ensures |Elems(xs)| == |xs|
  {
    if xs != [] {
      var tail := xs[1..];
      DistinctCardinality(tail);
      var rest := Elems(tail);
      assert xs[0] !in rest;
      assert Elems(xs) == rest + {xs[0]} by {
        assert xs == [xs[0]] + tail;
      }
      assert |rest + {xs[0]}| == |rest| + 1;
    }
  }

  /** A sequence is duplicate-free exactly when no element occurs more than once in its multiset. */
  lemma {:induction false} DistinctMultiplicity(xs: seq<nat>)
    ensures Distinct(xs) <==> forall x :: multiset(xs)[x] <= 1
  {
    if xs != [] {
      var t := xs[1..];
      DistinctMultiplicity(t);
      assert xs == [xs[0]] + t;
      assert multiset(xs) == multiset{xs[0]} + multiset(t);
      if Distinct(xs) {
        assert xs[0] !in t;
        assert Distinct(t) by {
          forall i, j | 0 <= i < j < |t| ensures t[i] != t[j] {
            assert t[i] == xs[i + 1] && t[j] == xs[j + 1];
          }
        }
      }
      if forall x :: multiset(xs)[x] <= 1 {
        assert multiset(xs)[xs[0]] <= 1;
        assert multiset(t)[xs[0]] == 0;
        assert forall x :: multiset(t)[x] <= multiset(xs)[x];
        assert Distinct(t);
        forall i, j | 0 <= i < j < |xs| ensures xs[i] != xs[j] {
          if i == 0 {
            assert xs[j] in t;
          } else {
            assert xs[i] == t[i - 1] && xs[j] == t[j - 1];
          }
        }
      }
    }
  }

  /** A rearrangement of a duplicate-free sequence is duplicate-free. */
  lemma DistinctPermutation(xs: seq<nat>, ys: seq<nat>)
    requires multiset(xs) == multiset(ys)
    ensures Distinct(xs) ==> Distinct(ys)
  {
    DistinctMultiplicity(xs);
    DistinctMultiplicity(ys);
  }

  /** A prefix of a rearrangement of `xs` takes each element at most as often as `xs` has it. */
  lemma PrefixOfPermutation(xs: seq<nat>, ys: seq<nat>, n: nat)
    requires multiset(xs) == multiset(ys) && n <= |ys|
    ensures multiset(ys[..n]) <= multiset(xs)
    ensures Elems(ys[..n]) <= Elems(xs)
  {
    assert ys == ys[..n] + ys[n..];
    forall x | x in ys[..n] ensures x in xs {
      assert x in multiset(ys);
    }
  }

  /** Elements taken no more often than `ys` has them all occur in `ys`. */
  lemma SubMultisetElems(xs: seq<nat>, ys: seq<nat>)
    requires multiset(xs) <= multiset(ys)
    ensures Elems(xs) <= Elems(ys)
  {
    forall x | x in xs ensures x in ys {
      assert x in multiset(xs);
    }
  }

  /** Joining two duplicate-free sequences with no element in common gives a duplicate-free sequence. */
  lemma DistinctConcat(xs: seq<nat>, ys: seq<nat>)
    requires Distinct(xs) && Distinct(ys)
    requires Elems(xs) !! Elems(ys)
    ensures Distinct(xs + ys)
  {
    var zs := xs + ys;
    forall i, j | 0 <= i < j < |zs| ensures zs[i] != zs[j] {
      if j < |xs| {
      } else if i >= |xs| {
        assert zs[i] == ys[i - |xs|] && zs[j] == ys[j - |xs|];
      } else {
        assert zs[i] in Elems(xs) && zs[j] in Elems(ys);
      }
    }
  }

  /** Three duplicate-free sequences with pairwise disjoint elements join into a duplicate-free sequence. */
  lemma DistinctThree(xs: seq<nat>, ys: seq<nat>, zs: seq<nat>)
    requires Distinct(xs) && Distinct(ys) && Distinct(zs)
    requires Elems(xs) !! Elems(ys) && Elems(xs) !! Elems(zs) && Elems(ys) !! Elems(zs)
    ensures Distinct(xs + ys + zs)
  {
    DistinctConcat(xs, ys);
    assert Elems(xs + ys) == Elems(xs) + Elems(ys);
    DistinctConcat(xs + ys, zs);
  }

  /** Number of elements of the set `s` that satisfy `p`, counted along its enumeration. */
  lemma CountOfSetToSeq(s: set<nat>, p: nat -> bool)
    ensures |Filter(SetToSeq(s), p)| == |set x | x in s && p(x)|
  {
    FilterOfSetToSeq(s, p);
  }

  function Sum(xs: seq<real>): real {
    if xs == [] then 0.0 else xs[0] + Sum(xs[1..])
  }

  lemma {:induction false} SumAppend(xs: seq<real>, x: real)
    ensures Sum(xs + [x]) == Sum(xs) + x
  {
    if xs != [] {
      assert (xs + [x])[1..] == xs[1..] + [x];
      SumAppend(xs[1..], x);
    }
  }

  /** Arithmetic mean, 0 for the empty sequence (the source's neutral value). */
  function Mean(xs: seq<real>): real {
    if |xs| == 0 then 0.0 else Sum(xs) / |xs| as real
  }

  predicate AllUnit(xs: seq<real>) {
    forall i :: 0 <= i < |xs| ==> 0.0 <= xs[i] <= 1.0
  }

  lemma {:induction false} SumUnit(xs: seq<real>)
    requires AllUnit(xs)
    ensures 0.0 <= Sum(xs) <= |xs| as real
    ensures Sum(xs) == |xs| as real <==> forall i :: 0 <= i < |xs| ==> xs[i] == 1.0
  {
    if xs != [] {
      SumUnit(xs[1..]);
      if Sum(xs) == |xs| as real {
        forall i | 0 <= i < |xs| ensures xs[i] == 1.0 {
          if i > 0 {
            assert xs[i] == xs[1..][i - 1];
          }
        }
      }
    }
  }

  /** The mean of values in [0,1] is in [0,1] and is 1 exactly when every value is 1. */
  lemma MeanUnit(xs: seq<real>)
    requires AllUnit(xs)
    ensures 0.0 <= Mean(xs) <= 1.0
    ensures Mean(xs) == 1.0 <==> |xs| > 0 && forall i :: 0 <= i < |xs| ==> xs[i] == 1.0
  {
    SumUnit(xs);
    if |xs| > 0 {
      RatioUnit(Sum(xs), |xs| as real);
    }
  }

  /** `f` applied along a sequence of identifiers. */
  function Values(ids: seq<nat>, f: nat -> real): (r: seq<real>)
    ensures |r| == |ids|
    ensures forall i :: 0 <= i < |ids| ==> r[i] == f(ids[i])
  {
    seq(|ids|, i requires 0 <= i < |ids| => f(ids[i]))
  }

  /** The values of `f` over an enumerated set are all 1 exactly when `f` is 1 on the whole set. */
  lemma ValuesAllOne(s: set<nat>, f: nat -> real)
    ensures (forall i :: 0 <= i < |SetToSeq(s)| ==> Values(SetToSeq(s), f)[i] == 1.0) <==>
      (forall k :: k in s ==> f(k) == 1.0)
  {
    var ids := SetToSeq(s);
    var vals := Values(ids, f);
    if forall i :: 0 <= i < |vals| ==> vals[i] == 1.0 {
      forall k | k in s ensures f(k) == 1.0 {
        ValueAtMember(s, ids, vals, f, k);
      }
    }
    if forall k :: k in s ==> f(k) == 1.0 {
      forall i | 0 <= i < |vals| ensures vals[i] == 1.0 {
        assert ids[i] in s;
      }
    }
  }

  /** A member of the set appears in its enumeration, and its value there is `f` of it. */
  lemma ValueAtMember(s: set<nat>, ids: seq<nat>, vals: seq<real>, f: nat -> real, k: nat)
    requires ids == SetToSeq(s) && vals == Values(ids, f) && k in s
    ensures exists i :: 0 <= i < |ids| && ids[i] == k && vals[i] == f(k)
  {
    var i :| 0 <= i < |ids| && ids[i] == k;
    assert vals[i] == f(k);
  }

  /**
   * The mean of unit values of `f` over a set lies in [0,1] and is 1 exactly
   * when the set is non-empty and `f` is 1 on all of it.
   */
  lemma MeanOfValues(s: set<nat>, f: nat -> real)
    requires forall k :: k in s ==> 0.0 <= f(k) <= 1.0
    ensures 0.0 <= Mean(Values(SetToSeq(s), f)) <= 1.0
    ensures (Mean(Values(SetToSeq(s), f)) == 1.0) <==> (s != {} && forall k :: k in s ==> f(k) == 1.0)
  {
    var vals := Values(SetToSeq(s), f);
    assert AllUnit(vals);
    MeanUnit(vals);
    ValuesAllOne(s, f);
  }

  lemma ValuesAppend(ids: seq<nat>, x: nat, f: nat -> real)
    ensures Values(ids + [x], f) == Values(ids, f) + [f(x)]
  {
  }

  /*
   * A walk that keeps every element at the smallest distance seen so far:
   * among the visited elements accepted by `ok`, `closest` lists those at
   * distance `m` in walk order, and `m` is no more than any accepted distance.
   */

  /** The accepted elements at distance `m`. */
  function AtDistance(ok: nat -> bool, dist: nat -> nat, m: nat): nat -> bool {
    (x: nat) => ok(x) && dist(x) == m
  }

  ghost predicate MinWalk(xs: seq<nat>, ok: nat -> bool, dist: nat -> nat, closest: seq<nat>, m: nat) {
    && (closest == [] <==> forall j :: 0 <= j < |xs| ==> !ok(xs[j]))
    && (closest != [] ==> forall j :: 0 <= j < |xs| && ok(xs[j]) ==> m <= dist(xs[j]))
    && closest == Filter(xs, AtDistance(ok, dist, m))
  }

  /**
   * One pass over `xs` keeping the accepted elements at the least distance
   * seen so far: a strictly closer element restarts the list, an equally
   * close one joins it.
   */
  method NearestWalk(xs: seq<nat>, ok: nat -> bool, dist: nat -> nat) returns (closest: seq<nat>, m: nat)
    ensures MinWalk(xs, ok, dist, closest, m)
  {
    closest, m := [], 0;
    var i := 0;
    while i < |xs|
      invariant 0 <= i <= |xs|
      invariant MinWalk(xs[..i], ok, dist, closest, m)
    {
      var x := xs[i];
      assert xs[..i + 1] == xs[..i] + [x];
      if ok(x) && (closest == [] || dist(x) < m) {
        MinWalkCloser(xs[..i], x, ok, dist, closest, m);
        closest, m := [x], dist(x);
      } else if ok(x) && dist(x) == m {
        MinWalkTie(xs[..i], x, ok, dist, closest, m);
        closest := closest + [x];
      } else {
        MinWalkSkip(xs[..i], x, ok, dist, closest, m);
      }
      i := i + 1;
    }
    assert xs[..i] == xs;
  }

  /** A strictly closer (or first) accepted element restarts the list. */
  lemma MinWalkCloser(xs: seq<nat>, x: nat, ok: nat -> bool, dist: nat -> nat, closest: seq<nat>, m: nat)
    requires MinWalk(xs, ok, dist, closest, m) && ok(x)
    requires closest == [] || dist(x) < m
    ensures MinWalk(xs + [x], ok, dist, [x], dist(x))
  {
    FilterKeepsNone(xs, AtDistance(ok, dist, dist(x)));
    FilterAppend(xs, x, AtDistance(ok, dist, dist(x)));
    assert forall j :: 0 <= j < |xs| ==> (xs + [x])[j] == xs[j];
    assert (xs + [x])[|xs|] == x;
  }

  /** An accepted element at the current minimum joins the list. */
  lemma MinWalkTie(xs: seq<nat>, x: nat, ok: nat -> bool, dist: nat -> nat, closest: seq<nat>, m: nat)
    requires MinWalk(xs, ok, dist, closest, m) && ok(x) && closest != [] && dist(x) == m
    ensures MinWalk(xs + [x], ok, dist, closest + [x], m)
  {
    FilterAppend(xs, x, AtDistance(ok, dist, m));
    assert forall j :: 0 <= j < |xs| ==> (xs + [x])[j] == xs[j];
    assert (xs + [x])[|xs|] == x;
  }

  /** A rejected or farther element leaves the walk state as it was. */
  lemma MinWalkSkip(xs: seq<nat>, x: nat, ok: nat -> bool, dist: nat -> nat, closest: seq<nat>, m: nat)
    requires MinWalk(xs, ok, dist, closest, m)
    requires !ok(x) || (closest != [] && dist(x) > m)
    ensures MinWalk(xs + [x], ok, dist, closest, m)
  {
    FilterAppend(xs, x, AtDistance(ok, dist, m));
    assert forall j :: 0 <= j < |xs| ==> (xs + [x])[j] == xs[j];
    assert (xs + [x])[|xs|] == x;
  }

  /** The accepted elements of `s` at the least accepted distance. */
  ghost function Nearest(s: set<nat>, ok: nat -> bool, dist: nat -> nat): set<nat> {
    set x | x in s && ok(x) && forall y :: y in s && ok(y) ==> dist(x) <= dist(y)
  }

  /** A walk over all of `s` that kept nothing found no accepted element, and conversely. */
  lemma MinWalkNone(s: set<nat>, ok: nat -> bool, dist: nat -> nat, closest: seq<nat>, m: nat)
    requires MinWalk(SetToSeq(s), ok, dist, closest, m)
    ensures closest == [] <==> forall x :: x in s ==> !ok(x)
  {
    var xs := SetToSeq(s);
    if closest == [] {
      forall x | x in s ensures !ok(x) {
        var j :| 0 <= j < |xs| && xs[j] == x;
      }
    } else {
      var j :| 0 <= j < |xs| && ok(xs[j]);
      assert xs[j] in s;
    }
  }

  /** At the end of a non-empty walk over `s`, `m` is the least accepted distance in `s`. */
  lemma MinWalkLeast(s: set<nat>, ok: nat -> bool, dist: nat -> nat, closest: seq<nat>, m: nat)
    requires MinWalk(SetToSeq(s), ok, dist, closest, m) && closest != []
    ensures exists w :: w in s && ok(w) && dist(w) == m
    ensures forall y :: y in s && ok(y) ==> m <= dist(y)
  {
    var xs := SetToSeq(s);
    assert closest[0] in Filter(xs, AtDistance(ok, dist, m));
    forall y | y in s && ok(y) ensures m <= dist(y) {
      var j :| 0 <= j < |xs| && xs[j] == y;
    }
  }

  /** The elements at the least accepted distance are the nearest ones. */
  lemma AtLeastIsNearest(s: set<nat>, ok: nat -> bool, dist: nat -> nat, m: nat)
    requires exists w :: w in s && ok(w) && dist(w) == m
    requires forall y :: y in s && ok(y) ==> m <= dist(y)
    ensures (set x | x in s && AtDistance(ok, dist, m)(x)) == Nearest(s, ok, dist)
  {
    var w :| w in s && ok(w) && dist(w) == m;
    forall x | x in Nearest(s, ok, dist) ensures dist(x) == m {
      assert dist(x) <= dist(w);
    }
  }

  /** A walk over all of `s` in ascending order ends with exactly the nearest elements, ascending. */
  lemma MinWalkNearest(s: set<nat>, ok: nat -> bool, dist: nat -> nat, closest: seq<nat>, m: nat)
    requires MinWalk(SetToSeq(s), ok, dist, closest, m) && closest != []
    ensures closest == SetToSeq(Nearest(s, ok, dist))
  {
    MinWalkLeast(s, ok, dist, closest, m);
    AtLeastIsNearest(s, ok, dist, m);
    FilterOfSetToSeq(s, AtDistance(ok, dist, m));
  }
}
