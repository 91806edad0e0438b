/** Exact arithmetic on amounts: JavaScript's `Math.round`, the clamped
    percentages the pages display, and the left-to-right sums that the pages
    compute with `reduce`. Amounts are exact reals, not IEEE doubles. */
module Money {

  /** `Math.round`: the nearest integer, with halves rounded towards +infinity. */
  function Round(x: real): int {
    (x + 0.5).Floor
  }

  function Min(a: int, b: int): int {
    if a <= b then a else b
  }

  function MinReal(a: real, b: real): real {
    if a <= b then a else b
  }

  function MaxReal(a: real, b: real): real {
    if a >= b then a else b
  }

  /** `Math.min(100, Math.round(part / whole * 100))`. A positive part over a
      zero whole is `Math.min(100, Infinity)`, which is 100; zero or a negative
      part over zero (`NaN`, `-Infinity`) is not a number the page can show. */
  function CappedPercent(part: real, whole: real): int
    requires whole != 0.0 || part > 0.0
  {
    if whole == 0.0 then 100 else Min(100, Round(part / whole * 100.0))
  }

  /** A positive part of a zero whole shows as a full 100. */
  lemma CappedPercentOverZero(part: real)
    requires part > 0.0
    ensures CappedPercent(part, 0.0) == 100
  {
  }

  lemma RoundIsNearest(x: real)
    ensures x - 0.5 < Round(x) as real <= x + 0.5
  {
  }

  lemma RoundMonotonic(x: real, y: real)
    requires x <= y
    ensures Round(x) <= Round(y)
  {
  }

  lemma RoundOfWhole(n: int)
    ensures Round(n as real) == n
  {
  }

  /** How a quotient by a positive whole compares with 0 and 1. */
  lemma QuotientBounds(part: real, whole: real)
    requires whole > 0.0
    ensures part >= 0.0 ==> part / whole >= 0.0
    ensures part <= whole ==> part / whole <= 1.0
    ensures part >= whole ==> part / whole >= 1.0
  {
    var q := part / whole;
    assert q * whole == part;
    if part >= whole {
      var e := q - 1.0;
      assert e * whole == part - whole;
      assert e * whole >= 0.0;
    }
  }

  /** The clamped percentage is a percentage: at most 100, never negative for a
      non-negative share of a positive whole, and exactly 100 once the share
      reaches the whole. */
  lemma CappedPercentRange(part: real, whole: real)
    requires whole > 0.0
    ensures CappedPercent(part, whole) <= 100
    ensures part >= 0.0 ==> CappedPercent(part, whole) >= 0
    ensures part >= whole ==> CappedPercent(part, whole) == 100
    ensures CappedPercent(part, whole) == 100 <==> part / whole * 100.0 >= 99.5
  {
    var q := part / whole;
    QuotientBounds(part, whole);
    if part >= 0.0 {
      assert q >= 0.0;
      RoundMonotonic(0.0, q * 100.0);
      RoundOfWhole(0);
    }
    if part >= whole {
      assert q >= 1.0;
      RoundMonotonic(100.0, q * 100.0);
      RoundOfWhole(100);
    }
  }

  /** `s.reduce((sum, x) => sum + f(x), 0)`: a left fold, so the last element is
      added last. */
  function SumOf<T>(s: seq<T>, f: T -> real): real
    decreases |s|
  {
    if |s| == 0 then 0.0 else SumOf(s[..|s| - 1], f) + f(s[|s| - 1])
  }

  lemma {:induction false} SumOfAppend<T>(a: seq<T>, b: seq<T>, f: T -> real)
    ensures SumOf(a + b, f) == SumOf(a, f) + SumOf(b, f)
    decreases |b|
  {
    if |b| == 0 {
      assert a + b == a;
    } else {
      var b' := b[..|b| - 1];
      assert (a + b)[..|a + b| - 1] == a + b';
      SumOfAppend(a, b', f);
    }
  }

  lemma SumOfSingle<T>(x: T, f: T -> real)
    ensures SumOf([x], f) == f(x)
  {
    assert [x][..0] == [];
  }

  lemma {:induction false} SumOfNonNegative<T>(s: seq<T>, f: T -> real)
    requires forall i :: 0 <= i < |s| ==> f(s[i]) >= 0.0
    ensures SumOf(s, f) >= 0.0
    decreases |s|
  {
    if |s| > 0 {
      SumOfNonNegative(s[..|s| - 1], f);
    }
  }

  lemma {:induction false} SumOfAtMost<T>(s: seq<T>, f: T -> real, c: real)
    requires forall i :: 0 <= i < |s| ==> f(s[i]) <= c
    ensures SumOf(s, f) <= |s| as real * c
    decreases |s|
  {
    if |s| > 0 {
      SumOfAtMost(s[..|s| - 1], f, c);
    }
  }

  /** Terms that are all zero sum to zero. */
  lemma {:induction false} SumOfZeros<T>(s: seq<T>, f: T -> real)
    requires forall i :: 0 <= i < |s| ==> f(s[i]) == 0.0
    ensures SumOf(s, f) == 0.0
    decreases |s|
  {
    if |s| > 0 {
      SumOfZeros(s[..|s| - 1], f);
    }
  }
  lemma {:induction false} SumOfAtLeast<T>(s: seq<T>, f: T -> real, c: real)
    requires forall i :: 0 <= i < |s| ==> f(s[i]) >= c
    ensures SumOf(s, f) >= |s| as real * c
    decreases |s|
  {
    if |s| > 0 {
      SumOfAtLeast(s[..|s| - 1], f, c);
    }
  }

  /** Replacing one element changes the sum by the difference of its terms. */
  lemma {:induction false} SumOfUpdate<T>(s: seq<T>, i: nat, x: T, f: T -> real)
    requires i < |s|
    ensures SumOf(s[i := x], f) == SumOf(s, f) - f(s[i]) + f(x)
    decreases |s|
  {
    var n := |s| - 1;
    if i < n {
      assert s[i := x][..n] == s[..n][i := x];
      SumOfUpdate(s[..n], i, x, f);
    } else {
      assert s[i := x][..n] == s[..n];
    }
  }
}
