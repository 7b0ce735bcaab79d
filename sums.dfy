/** Sums of a real-valued term over a sequence, as Python's `sum(... for x in xs)`. */
module Sums {

  /** The sum of `f(x)` over the elements `x` of `s`, taken in order; 0 for an empty sequence. */
  function SumOf<T>(s: seq<T>, f: T -> real): real
  {
    if s == [] then 0.0 else f(s[0]) + SumOf(s[1..], f)
  }

  /** Summing a concatenation is summing each part. */
  lemma {:induction false} SumOfConcat<T>(a: seq<T>, b: seq<T>, f: T -> real)
    ensures SumOf(a + b, f) == SumOf(a, f) + SumOf(b, f)
  {
    if a == [] {
      assert a + b == b;
    } else {
      assert (a + b)[1..] == a[1..] + b;
      SumOfConcat(a[1..], b, f);
    }
  }

  /** The sum does not depend on the order of the elements. */
  lemma {:induction false} SumOfPermutation<T>(a: seq<T>, b: seq<T>, f: T -> real)
    requires multiset(a) == multiset(b)
    ensures SumOf(a, f) == SumOf(b, f)
  {
    if a == [] {
      assert |b| == |multiset(b)| == 0;
    } else {
      var x := a[0];
      assert x in multiset(b);
      var j :| 0 <= j < |b| && b[j] == x;
      var rest := b[..j] + b[j + 1..];
      assert b == b[..j] + ([x] + b[j + 1..]);
      assert a == [x] + a[1..];
      assert multiset(b) == multiset(b[..j]) + multiset{x} + multiset(b[j + 1..]);
      assert multiset(a) == multiset{x} + multiset(a[1..]);
      assert multiset(rest) == multiset(b[..j]) + multiset(b[j + 1..]);
      assert multiset(rest) == multiset(b) - multiset{x};
      assert multiset(a[1..]) == multiset(a) - multiset{x};
      SumOfPermutation(a[1..], rest, f);
      SumOfConcat(b[..j], [x] + b[j + 1..], f);
      SumOfConcat(b[..j], b[j + 1..], f);
      assert ([x] + b[j + 1..])[1..] == b[j + 1..];
    }
  }

  /** Summing a pointwise sum of terms is adding the two sums. */
  lemma {:induction false} SumOfAdd<T>(s: seq<T>, f: T -> real, g: T -> real, h: T -> real)
    requires forall i :: 0 <= i < |s| ==> h(s[i]) == f(s[i]) + g(s[i])
    ensures SumOf(s, h) == SumOf(s, f) + SumOf(s, g)
  {
    if s != [] {
      SumOfAdd(s[1..], f, g, h);
    }
  }

  /** A pointwise smaller term gives a smaller sum. */
  lemma {:induction false} SumOfMonotone<T>(s: seq<T>, f: T -> real, g: T -> real)
    requires forall i :: 0 <= i < |s| ==> f(s[i]) <= g(s[i])
    ensures SumOf(s, f) <= SumOf(s, g)
  {
    if s != [] {
      SumOfMonotone(s[1..], f, g);
    }
  }

  /**
   * The running total Python's `sum` keeps: starting from `acc`, add `f(x)`
   * for each element `x` of `s` from left to right.
   */
  function SumLeft<T>(acc: real, s: seq<T>, f: T -> real): real
    decreases |s|
  {
    if s == [] then acc else SumLeft(acc + f(s[0]), s[1..], f)
  }

  /** Accumulating from the left gives the start value plus the sum. */
  lemma {:induction false} SumLeftIsSumOf<T>(acc: real, s: seq<T>, f: T -> real)
    ensures SumLeft(acc, s, f) == acc + SumOf(s, f)
    decreases |s|
  {
    if s != [] {
      SumLeftIsSumOf(acc + f(s[0]), s[1..], f);
    }
  }

  /** Non-negative terms have a non-negative sum. */
  lemma {:induction false} SumOfNonNegative<T>(s: seq<T>, f: T -> real)
    requires forall i :: 0 <= i < |s| ==> f(s[i]) >= 0.0
    ensures SumOf(s, f) >= 0.0
  {
    if s != [] {
      SumOfNonNegative(s[1..], f);
    }
  }
}
