/**
 * The column reductions `calculate_region_methylation` applies to the selected
 * rows: pandas' `sum`, `median` and `round`, over exact integers and reals.
 */
module Statistics {

  /** `sum(f(x) for x in xs)`. */
  function SumOf<T>(xs: seq<T>, f: T -> int): int {
    if xs == [] then 0 else f(xs[0]) + SumOf(xs[1..], f)
  }

  lemma {:induction false} SumOfAppend<T>(a: seq<T>, b: seq<T>, f: T -> int)
    ensures SumOf(a + b, f) == SumOf(a, f) + SumOf(b, f)
  {
    if a == [] {
      assert a + b == b;
    } else {
      assert (a + b)[1..] == a[1..] + b;
      SumOfAppend(a[1..], b, f);
    }
  }

  /** Taking one term out of a sum. */
  lemma {:induction false} SumOfRemove<T>(b: seq<T>, i: nat, f: T -> int)
    requires i < |b|
    ensures SumOf(b, f) == f(b[i]) + SumOf(b[..i] + b[i + 1..], f)
  {
    assert b == b[..i] + ([b[i]] + b[i + 1..]);
    SumOfAppend(b[..i], [b[i]] + b[i + 1..], f);
    assert ([b[i]] + b[i + 1..])[1..] == b[i + 1..];
    SumOfAppend(b[..i], b[i + 1..], f);
  }

  lemma MultisetRemove<T>(b: seq<T>, i: nat)
    requires i < |b|
    ensures multiset(b[..i] + b[i + 1..]) == multiset(b) - multiset{b[i]}
  {
    assert b == b[..i] + [b[i]] + b[i + 1..];
  }

  /** A sum does not depend on the order of its terms. */
  lemma {:induction false} SumOfPermutation<T>(a: seq<T>, b: seq<T>, f: T -> int)
    requires multiset(a) == multiset(b)
    ensures SumOf(a, f) == SumOf(b, f)
    decreases |a|
  {
    if a == [] {
      assert |multiset(b)| == 0;
    } else {
      var x := a[0];
      assert x in multiset(b);
      var i :| 0 <= i < |b| && b[i] == x;
      var rest := b[..i] + b[i + 1..];
      MultisetRemove(a, 0);
      MultisetRemove(b, i);
      assert a[..0] + a[1..] == a[1..];
      assert multiset(a[1..]) == multiset(rest);
      SumOfPermutation(a[1..], rest, f);
      SumOfRemove(b, i, f);
      assert SumOf(a, f) == f(x) + SumOf(a[1..], f);
    }
  }

  /** Sums of two functions add up term by term. */
  lemma {:induction false} SumOfAdd<T>(xs: seq<T>, f: T -> int, g: T -> int, h: T -> int)
    requires forall k :: 0 <= k < |xs| ==> f(xs[k]) + g(xs[k]) == h(xs[k])
    ensures SumOf(xs, f) + SumOf(xs, g) == SumOf(xs, h)
  {
    if xs != [] {
      SumOfAdd(xs[1..], f, g, h);
    }
  }

  /** A sum grows with its terms. */
  lemma {:induction false} SumOfMonotone<T>(xs: seq<T>, f: T -> int, g: T -> int)
    requires forall k :: 0 <= k < |xs| ==> f(xs[k]) <= g(xs[k])
    ensures SumOf(xs, f) <= SumOf(xs, g)
  {
    if xs != [] {
      SumOfMonotone(xs[1..], f, g);
    }
  }

  /** Every term at least `c` makes the sum at least `c` times the length. */
  lemma {:induction false} SumOfAtLeast<T>(xs: seq<T>, f: T -> int, c: int)
    requires forall k :: 0 <= k < |xs| ==> f(xs[k]) >= c
    ensures SumOf(xs, f) >= c * |xs|
  {
    if xs != [] {
      SumOfAtLeast(xs[1..], f, c);
    }
  }

  /** Every term at most `c` makes the sum at most `c` times the length. */
  lemma {:induction false} SumOfAtMost<T>(xs: seq<T>, f: T -> int, c: int)
    requires forall k :: 0 <= k < |xs| ==> f(xs[k]) <= c
    ensures SumOf(xs, f) <= c * |xs|
  {
    if xs != [] {
      SumOfAtMost(xs[1..], f, c);
    }
  }

  /**
   * Two tallies that never both count the same element add up to at most the
   * number of elements.
   */
  lemma {:induction false} DisjointTallies<T>(xs: seq<T>, f: T -> int, g: T -> int)
    requires forall k :: 0 <= k < |xs| ==> 0 <= f(xs[k]) && 0 <= g(xs[k]) && f(xs[k]) + g(xs[k]) <= 1
    ensures 0 <= SumOf(xs, f) && 0 <= SumOf(xs, g)
    ensures SumOf(xs, f) + SumOf(xs, g) <= |xs|
  {
    if xs != [] {
      DisjointTallies(xs[1..], f, g);
    }
  }

  predicate IsSorted(s: seq<int>) {
    forall i, j :: 0 <= i < j < |s| ==> s[i] <= s[j]
  }

  function Insert(x: int, s: seq<int>): (r: seq<int>)
    requires IsSorted(s)
    ensures IsSorted(r) && multiset(r) == multiset(s) + multiset{x}
  {
    if s == [] || x <= s[0] then
      [x] + s
    else
      var tail := Insert(x, s[1..]);
      assert s == [s[0]] + s[1..];
      InsertBehindHead(x, s, tail);
      [s[0]] + tail
  }

  /** Putting the head of `s` before the insertion into its rest keeps the order. */
  lemma InsertBehindHead(x: int, s: seq<int>, tail: seq<int>)
    requires IsSorted(s) && s != [] && s[0] < x
    requires IsSorted(tail) && multiset(tail) == multiset(s[1..]) + multiset{x}
    ensures IsSorted([s[0]] + tail)
  {
    forall k | 0 <= k < |tail|
      ensures s[0] <= tail[k]
    {
      assert tail[k] in multiset(tail);
      if tail[k] != x {
        assert tail[k] in s[1..];
      }
    }
  }

  /** The values of `xs` in ascending order. */
  function Sort(xs: seq<int>): (s: seq<int>)
    ensures IsSorted(s) && multiset(s) == multiset(xs)
  {
    if xs == [] then []
    else
      assert xs == [xs[0]] + xs[1..];
      Insert(xs[0], Sort(xs[1..]))
  }

  /** Two sorted sequences holding the same values are the same sequence. */
  lemma {:induction false} SortedUnique(a: seq<int>, b: seq<int>)
    requires IsSorted(a) && IsSorted(b) && multiset(a) == multiset(b)
    ensures a == b
    decreases |a|
  {
    assert |a| == |multiset(a)| == |multiset(b)| == |b|;
    if a != [] {
      assert a[0] in multiset(b) && b[0] in multiset(a);
      assert a[0] == b[0];
      assert a == [a[0]] + a[1..] && b == [b[0]] + b[1..];
      assert multiset(a) == multiset{a[0]} + multiset(a[1..]);
      assert multiset(b) == multiset{b[0]} + multiset(b[1..]);
      assert multiset(a[1..]) == multiset(a) - multiset{a[0]};
      assert multiset(b[1..]) == multiset(b) - multiset{b[0]};
      SortedUnique(a[1..], b[1..]);
    }
  }

  /** 1 for an element at most `v`, else 0. */
  function AtMost(v: real): int -> int {
    x => if x as real <= v then 1 else 0
  }

  /** 1 for an element at least `v`, else 0. */
  function AtLeast(v: real): int -> int {
    x => if x as real >= v then 1 else 0
  }

  lemma {:induction false} SortedPrefixCount(s: seq<int>, k: nat, v: real)
    requires IsSorted(s) && k < |s| && s[k] as real <= v
    ensures SumOf(s, AtMost(v)) >= k + 1
  {
    assert s == s[..k + 1] + s[k + 1..];
    SumOfAppend(s[..k + 1], s[k + 1..], AtMost(v));
    SumOfAtLeast(s[..k + 1], AtMost(v), 1);
    SumOfAtLeast(s[k + 1..], AtMost(v), 0);
  }

  lemma {:induction false} SortedSuffixCount(s: seq<int>, k: nat, v: real)
    requires IsSorted(s) && k < |s| && s[k] as real >= v
    ensures SumOf(s, AtLeast(v)) >= |s| - k
  {
    assert s == s[..k] + s[k..];
    SumOfAppend(s[..k], s[k..], AtLeast(v));
    SumOfAtLeast(s[..k], AtLeast(v), 0);
    SumOfAtLeast(s[k..], AtLeast(v), 1);
  }

  /** The middle value of a non-empty sequence, or the mean of the two middle values. */
  function Middle(s: seq<int>): real
    requires s != []
  {
    var n := |s|;
    if n % 2 == 1 then s[n / 2] as real else (s[n / 2 - 1] + s[n / 2]) as real / 2.0
  }

  lemma {:induction false} MiddleSplits(s: seq<int>)
    requires s != [] && IsSorted(s)
    ensures 2 * SumOf(s, AtMost(Middle(s))) >= |s|
    ensures 2 * SumOf(s, AtLeast(Middle(s))) >= |s|
  {
    var n, m := |s|, Middle(s);
    if n % 2 == 1 {
      SortedPrefixCount(s, n / 2, m);
      SortedSuffixCount(s, n / 2, m);
    } else {
      SortedPrefixCount(s, n / 2 - 1, m);
      SortedSuffixCount(s, n / 2, m);
    }
  }

  /**
   * pandas' `median`: the middle value of the sorted values, or the mean of
   * the two middle values when there is an even number of them. At least half
   * of the values lie at or below it and at least half at or above it.
   */
  function Median(xs: seq<int>): (m: real)
    requires xs != []
    ensures 2 * SumOf(xs, AtMost(m)) >= |xs|
    ensures 2 * SumOf(xs, AtLeast(m)) >= |xs|
  {
    var s := Sort(xs);
    assert |s| == |multiset(s)| == |multiset(xs)| == |xs|;
    MiddleSplits(s);
    SumOfPermutation(xs, s, AtMost(Middle(s)));
    SumOfPermutation(xs, s, AtLeast(Middle(s)));
    Middle(s)
  }

  /** Reordering the values does not change the median. */
  lemma {:induction false} MedianPermutation(a: seq<int>, b: seq<int>)
    requires a != [] && multiset(a) == multiset(b)
    ensures b != [] && Median(a) == Median(b)
  {
    assert |b| == |multiset(b)| == |multiset(a)| == |a|;
    SortedUnique(Sort(a), Sort(b));
  }

  /** Any arrangement of 10, 20 and 30 has median 20. */
  lemma {:induction false} MedianOddExample(xs: seq<int>)
    requires multiset(xs) == multiset([10, 20, 30])
    ensures xs != [] && Median(xs) == 20.0
  {
    var s := [10, 20, 30];
    assert |xs| == |multiset(xs)| == 3;
    SortedUnique(Sort(xs), s);
  }

  /** Any arrangement of 10, 20, 30 and 40 has median 25. */
  lemma {:induction false} MedianEvenExample(xs: seq<int>)
    requires multiset(xs) == multiset([10, 20, 30, 40])
    ensures xs != [] && Median(xs) == 25.0
  {
    var s := [10, 20, 30, 40];
    assert |xs| == |multiset(xs)| == 4;
    SortedUnique(Sort(xs), s);
  }

  /**
   * numpy's `round` to an integer: the nearest integer, and on a tie the even
   * one.
   */
  function RoundHalfEven(x: real): (n: int)
    ensures n as real - 0.5 <= x <= n as real + 0.5
    ensures (x == n as real - 0.5 || x == n as real + 0.5) ==> n % 2 == 0
  {
    var f := x.Floor;
    var d := x - f as real;
    if d < 0.5 then f
    else if d > 0.5 then f + 1
    else if f % 2 == 0 then f
    else f + 1
  }

  /**
   * `round(x, 2)`: the nearest multiple of 0.01, and on a tie the even
   * multiple, so it lies within half a hundredth of `x`.
   */
  function RoundCents(x: real): (y: real)
    ensures y - 0.005 <= x <= y + 0.005
  {
    RoundHalfEven(100.0 * x) as real / 100.0
  }

  /** Rounding to hundredths keeps a value between two whole numbers between them. */
  lemma RoundCentsBounds(x: real, lo: int, hi: int)
    requires lo as real <= x <= hi as real
    ensures lo as real <= RoundCents(x) <= hi as real
  {
    var n := RoundHalfEven(100.0 * x);
    assert n <= 100 * hi;
    assert n >= 100 * lo;
  }

  /** Rounding to hundredths ties go to the even hundredth: 0.125 becomes 0.12, 0.375 becomes 0.38. */
  lemma RoundCentsExamples()
    ensures RoundCents(0.125) == 0.12 && RoundCents(0.375) == 0.38 && RoundCents(66.6666) == 66.67
  {
    assert RoundHalfEven(12.5) == 12;
    assert RoundHalfEven(37.5) == 38;
    assert RoundHalfEven(6666.66) == 6667;
  }
}
