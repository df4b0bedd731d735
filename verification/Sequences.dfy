/** Sums over sequences and a stable sort, with the facts the other modules need:
    a sum does not depend on the order of its terms. */
module Sequences {

  /** The sum of f over xs. */
  function Sum<T>(xs: seq<T>, f: T -> int): int {
    if xs == [] then 0 else Sum(xs[..|xs| - 1], f) + f(xs[|xs| - 1])
  }

  lemma SumSnoc<T>(xs: seq<T>, x: T, f: T -> int)
    ensures Sum(xs + [x], f) == Sum(xs, f) + f(x)
  {
    assert (xs + [x])[..|xs|] == xs;
  }

  lemma {:induction false} SumConcat<T>(xs: seq<T>, ys: seq<T>, f: T -> int)
    ensures Sum(xs + ys, f) == Sum(xs, f) + Sum(ys, f)
  {
    if ys == [] {
      assert xs + ys == xs;
    } else {
      var init, last := ys[..|ys| - 1], ys[|ys| - 1];
      assert xs + ys == (xs + init) + [last];
      SumConcat(xs, init, f);
      SumSnoc(xs + init, last, f);
    }
  }

  lemma {:induction false} SumMonotone<T>(xs: seq<T>, f: T -> int, g: T -> int)
    requires forall x | x in xs :: f(x) <= g(x)
    ensures Sum(xs, f) <= Sum(xs, g)
  {
    if xs != [] {
      SumMonotone(xs[..|xs| - 1], f, g);
    }
  }

  lemma {:induction false} SumNonNegative<T>(xs: seq<T>, f: T -> int)
    requires forall x | x in xs :: 0 <= f(x)
    ensures 0 <= Sum(xs, f)
  {
    if xs != [] {
      SumNonNegative(xs[..|xs| - 1], f);
    }
  }

  lemma {:induction false} SumAdd<T>(xs: seq<T>, f: T -> int, g: T -> int, h: T -> int)
    requires forall x | x in xs :: f(x) + g(x) == h(x)
    ensures Sum(xs, f) + Sum(xs, g) == Sum(xs, h)
  {
    if xs != [] {
      SumAdd(xs[..|xs| - 1], f, g, h);
    }
  }

  lemma {:induction false} SumZero<T>(xs: seq<T>, f: T -> int)
    requires forall x | x in xs :: f(x) == 0
    ensures Sum(xs, f) == 0
  {
    if xs != [] {
      SumZero(xs[..|xs| - 1], f);
    }
  }

  /** Taking the element at i out of a sequence takes it out of its multiset. */
  lemma MultisetRemove<T>(ys: seq<T>, i: nat)
    requires i < |ys|
    ensures multiset(ys) == multiset(ys[..i] + ys[i + 1..]) + multiset{ys[i]}
  {
    assert ys == ys[..i] + [ys[i]] + ys[i + 1..];
  }

  lemma SumRemove<T>(ys: seq<T>, i: nat, f: T -> int)
    requires i < |ys|
    ensures Sum(ys, f) == Sum(ys[..i] + ys[i + 1..], f) + f(ys[i])
  {
    hide Sum;
    assert ys == ys[..i] + [ys[i]] + ys[i + 1..];
    SumConcat(ys[..i], ys[i + 1..], f);
    SumConcat(ys[..i] + [ys[i]], ys[i + 1..], f);
    SumSnoc(ys[..i], ys[i], f);
  }

  lemma MultisetCancel<T>(a: multiset<T>, b: multiset<T>, x: T)
    requires a + multiset{x} == b + multiset{x}
    ensures a == b
  {
    assert a == (a + multiset{x}) - multiset{x};
    assert b == (b + multiset{x}) - multiset{x};
  }

  lemma {:induction false} SumPermutation<T>(xs: seq<T>, ys: seq<T>, f: T -> int)
    requires multiset(xs) == multiset(ys)
    ensures Sum(xs, f) == Sum(ys, f)
    decreases |xs|
  {
    if xs == [] {
      assert |multiset(ys)| == 0;
    } else {
      var init, last := xs[..|xs| - 1], xs[|xs| - 1];
      assert xs == init + [last];
      assert last in multiset(ys);
      var i :| 0 <= i < |ys| && ys[i] == last;
      var rest := ys[..i] + ys[i + 1..];
      MultisetRemove(ys, i);
      MultisetCancel(multiset(init), multiset(rest), last);
      SumPermutation(init, rest, f);
      SumRemove(ys, i, f);
    }
  }

  lemma SubsetSize<T>(a: set<T>, b: set<T>)
    requires a <= b
    ensures |a| <= |b|
  {
    assert b == a + (b - a);
  }

  ghost predicate SortedBy<T>(xs: seq<T>, key: T -> int) {
    forall i, j | 0 <= i < j < |xs| :: key(xs[i]) <= key(xs[j])
  }

  /** xs with x put in front of position i. */
  function InsertAt<T>(xs: seq<T>, i: nat, x: T): seq<T>
    requires i <= |xs|
  {
    xs[..i] + [x] + xs[i..]
  }

  lemma InsertAtMultiset<T>(xs: seq<T>, i: nat, x: T)
    requires i <= |xs|
    ensures multiset(InsertAt(xs, i, x)) == multiset(xs) + multiset{x}
  {
    assert xs == xs[..i] + xs[i..];
  }

  lemma InsertAtSorted<T>(xs: seq<T>, i: nat, x: T, key: T -> int)
    requires i <= |xs| && SortedBy(xs, key)
    requires forall j | 0 <= j < i :: key(xs[j]) <= key(x)
    requires forall j | i <= j < |xs| :: key(x) <= key(xs[j])
    ensures SortedBy(InsertAt(xs, i, x), key)
  {
    var ys := InsertAt(xs, i, x);
    forall a, b | 0 <= a < b < |ys| ensures key(ys[a]) <= key(ys[b]) {
      assert ys[a] == if a < i then xs[a] else if a == i then x else xs[a - 1];
      assert ys[b] == if b < i then xs[b] else if b == i then x else xs[b - 1];
    }
  }

  /** Puts x behind the elements of ys that do not follow it. */
  method InsertBy<T>(ys: seq<T>, x: T, key: T -> int) returns (zs: seq<T>)
    requires SortedBy(ys, key)
    ensures multiset(zs) == multiset(ys) + multiset{x}
    ensures SortedBy(zs, key)
  {
    var i := |ys|;
    while i > 0 && key(x) < key(ys[i - 1])
      invariant 0 <= i <= |ys|
      invariant forall j | i <= j < |ys| :: key(x) < key(ys[j])
    {
      i := i - 1;
    }
    InsertAtMultiset(ys, i, x);
    InsertAtSorted(ys, i, x, key);
    zs := InsertAt(ys, i, x);
  }

  /** Insertion sort on an integer key: the result is ordered and holds the same elements. */
  method SortBy<T>(xs: seq<T>, key: T -> int) returns (ys: seq<T>)
    ensures multiset(ys) == multiset(xs)
    ensures SortedBy(ys, key)
  {
    ys := [];
    for n := 0 to |xs|
      invariant multiset(ys) == multiset(xs[..n])
      invariant SortedBy(ys, key)
    {
      assert xs[..n + 1] == xs[..n] + [xs[n]];
      ys := InsertBy(ys, xs[n], key);
    }
    assert xs[..|xs|] == xs;
  }
}
