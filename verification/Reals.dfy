/** Exact real arithmetic standing in for floats: rounding to four decimals, truncation, minimum and maximum. */
module Reals {
  /** Nearest integer, halves to the even neighbour, as Python's `round`. */
  function RoundHalfEven(x: real): (n: int)
    ensures n as real - 0.5 <= x <= n as real + 0.5
    ensures x == n as real - 0.5 || x == n as real + 0.5 ==> n % 2 == 0
  {
    var f := x.Floor;
    var frac := x - f as real;
    if frac < 0.5 || (frac == 0.5 && f % 2 == 0) then f else f + 1
  }

  /** `round(x, 4)` over the reals. */
  function Round4(x: real): real {
    RoundHalfEven(x * 10000.0) as real / 10000.0
  }

  lemma RoundHalfEvenMonotone(x: real, y: real)
    requires x <= y
    ensures RoundHalfEven(x) <= RoundHalfEven(y)
  {}

  lemma Round4Monotone(x: real, y: real)
    requires x <= y
    ensures Round4(x) <= Round4(y)
  {
    RoundHalfEvenMonotone(x * 10000.0, y * 10000.0);
  }

  lemma Round4FixesUnit()
    ensures Round4(0.0) == 0.0 && Round4(1.0) == 1.0
  {
    assert RoundHalfEven(10000.0) == 10000 by {
      var n := RoundHalfEven(10000.0);
      assert n as real - 0.5 <= 10000.0 <= n as real + 0.5;
    }
  }

  lemma Round4Unit(x: real)
    requires 0.0 <= x <= 1.0
    ensures 0.0 <= Round4(x) <= 1.0
  {
    Round4FixesUnit();
    Round4Monotone(0.0, x);
    Round4Monotone(x, 1.0);
  }

  /** Python's `int(x)`: truncation toward zero. */
  function Truncate(x: real): int {
    if x >= 0.0 then x.Floor else -((-x).Floor)
  }

  lemma TruncateMonotone(x: real, y: real)
    requires x <= y
    ensures Truncate(x) <= Truncate(y)
  {}

  function MaxReal(x: real, y: real): real {
    if x >= y then x else y
  }

  function MinReal(x: real, y: real): real {
    if x <= y then x else y
  }

  function MaxOf(s: seq<real>): (m: real)
    requires s != []
    ensures m in s && forall x | x in s :: x <= m
  {
    assert s == [s[0]] + s[1..];
    if |s| == 1 then s[0] else MaxReal(s[0], MaxOf(s[1..]))
  }

  function MinOf(s: seq<real>): (m: real)
    requires s != []
    ensures m in s && forall x | x in s :: m <= x
  {
    assert s == [s[0]] + s[1..];
    if |s| == 1 then s[0] else MinReal(s[0], MinOf(s[1..]))
  }

  /** Minimum and maximum depend on which values occur, not on order or repetition. */
  lemma BoundsAgreeOn(a: seq<real>, b: seq<real>)
    requires a != [] && b != []
    requires (forall x | x in a :: x in b) && (forall x | x in b :: x in a)
    ensures MaxOf(a) == MaxOf(b) && MinOf(a) == MinOf(b)
  {}

  function Sum(s: seq<real>): real {
    if s == [] then 0.0 else s[0] + Sum(s[1..])
  }

  lemma {:induction false} SumAppend(s: seq<real>, x: real)
    ensures Sum([]) == 0.0 && Sum(s + [x]) == Sum(s) + x
  {
    if s != [] {
      assert (s + [x])[1..] == s[1..] + [x];
      SumAppend(s[1..], x);
    }
  }

  function Less(): (real, real) -> bool {
    (a, b) => a < b
  }

  // ---- Products and quotients

  lemma Product(x: real, y: real)
    requires x >= 0.0 && y >= 0.0
    ensures x * y >= 0.0
  {}

  lemma Larger(w: real, x: real, y: real)
    requires w >= 0.0 && x <= y
    ensures w * x <= w * y
  {
    Product(w, y - x);
  }

  lemma QuotientMonotone(a: real, b: real, d: real)
    requires a <= b && d > 0.0
    ensures a / d <= b / d
  {}

  lemma Ratio(a: real, b: real)
    requires b > 0.0
    ensures a <= b ==> a / b <= 1.0
    ensures a >= 0.0 <==> a / b >= 0.0
  {
    var q := a / b;
    assert q * b == a;
  }

  lemma MeanBetween(sum: real, n: real, lo: real, hi: real)
    requires n > 0.0 && lo * n <= sum <= hi * n
    ensures lo <= sum / n <= hi
  {
    var q := sum / n;
    assert q * n == sum;
    if q < lo { Gap(lo - q, n); }
    if q > hi { Gap(q - hi, n); }
  }

  lemma Gap(x: real, y: real)
    requires x > 0.0 && y > 0.0
    ensures x * y > 0.0
  {}

  lemma SelfRatio(b: real)
    requires b > 0.0
    ensures b / b == 1.0
  {}

  lemma RatioIsOne(a: real, b: real)
    requires 0.0 <= a <= b && b > 0.0
    ensures 0.0 <= a / b <= 1.0 && (a / b == 1.0 <==> a == b)
  {
    var q := a / b;
    assert q * b == a;
    Ratio(a, b);
    if a == b { SelfRatio(b); }
    if q == 1.0 { assert 1.0 * b == a; }
  }
}
