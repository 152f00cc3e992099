/**
 Python's built-in `round` on a number with a fractional part: the nearest
 integer, ties going to the even neighbour. The square root the statistics
 take is modelled only through its rounded value, computed exactly.
 */
module Rounding {

  /** The nearest integer to `x`, ties to even. */
  function RoundHalfEven(x: real): (n: int)
    ensures -0.5 <= x - n as real <= 0.5
    ensures x - n as real == 0.5 || x - n as real == -0.5 ==> n % 2 == 0
  {
    var f := x.Floor;
    var d := x - f as real;
    if d < 0.5 then f
    else if d > 0.5 then f + 1
    else if f % 2 == 0 then f
    else f + 1
  }

  /** Round-half-even is the only integer within one half of `x` that
      breaks ties towards even. */
  lemma RoundHalfEvenUnique(x: real, n: int)
    requires -0.5 <= x - n as real <= 0.5
    requires x - n as real == 0.5 || x - n as real == -0.5 ==> n % 2 == 0
    ensures RoundHalfEven(x) == n
  {
  }

  /** Rounding a value that lies between two integers stays between them. */
  lemma RoundHalfEvenBetween(x: real, lo: int, hi: int)
    requires lo as real <= x <= hi as real
    ensures lo <= RoundHalfEven(x) <= hi
  {
  }

  /** Rounding an integer gives it back. */
  lemma RoundHalfEvenOfInteger(k: int)
    ensures RoundHalfEven(k as real) == k
  {
  }

  function Square(x: real): real {
    x * x
  }

  lemma SquareStrictlyMonotone(a: real, b: real)
    requires 0.0 <= a < b
    ensures Square(a) < Square(b)
  {
    var d := b - a;
    assert Square(b) == Square(a) + 2.0 * a * d + d * d;
    assert d * d > 0.0;
    assert a * d >= 0.0;
  }

  /** `(2n + 1)^2`, built up from the differences of successive odd squares. */
  function OddSquare(n: nat): nat {
    if n == 0 then 1 else OddSquare(n - 1) + 8 * n
  }

  lemma {:induction false} OddSquareIsSquare(n: nat)
    ensures OddSquare(n) as real == Square((2 * n + 1) as real)
  {
    if n > 0 {
      OddSquareIsSquare(n - 1);
      var x := (2 * n - 1) as real;
      assert Square(x + 2.0) == Square(x) + 4.0 * x + 4.0;
    }
  }

  lemma {:induction false} OddSquareAbove(n: nat)
    ensures n < OddSquare(n)
  {
    if n > 0 {
      OddSquareAbove(n - 1);
    }
  }

  /** Searches upwards from `n` for the integer `r` nearest to the square root
      of a value `w / 4`, given `f`, the floor of `w`, and whether `w` is whole:
      `r` is nearest when `(2r - 1)^2 <= w <= (2r + 1)^2`, the even one on a
      tie. */
  function RoundSqrtSearch(f: int, whole: bool, n: nat): nat
    decreases f + 1 - n
  {
    if f < OddSquare(n) then n
    else if f == OddSquare(n) && whole then (if n % 2 == 0 then n else n + 1)
    else
      OddSquareAbove(n);
      RoundSqrtSearch(f, whole, n + 1)
  }

  /** When every candidate below `n` is too small, the search ends at the
      integer whose odd neighbours' squares bracket `w`, the even one on a
      tie. */
  lemma {:induction false} SearchBrackets(f: int, whole: bool, n: nat)
    requires n == 0 || OddSquare(n - 1) < f || (OddSquare(n - 1) == f && !whole)
    ensures var r := RoundSqrtSearch(f, whole, n);
      && (r == 0 || OddSquare(r - 1) <= f)
      && (f < OddSquare(r) || (f == OddSquare(r) && whole))
      && (whole && f == OddSquare(r) ==> r % 2 == 0)
      && (r > 0 && whole && f == OddSquare(r - 1) ==> r % 2 == 0)
    decreases f + 1 - n
  {
    if OddSquare(n) <= f && !(f == OddSquare(n) && whole) {
      OddSquareAbove(n);
      SearchBrackets(f, whole, n + 1);
    }
  }

  /** The integer nearest to the square root of `v`, ties to even. */
  function RoundSqrt(v: real): nat
    requires 0.0 <= v
  {
    var w := 4.0 * v;
    RoundSqrtSearch(w.Floor, w.Floor as real == w, 0)
  }

  /** The rounded root's odd neighbours bracket `4v` on the reals. */
  lemma RoundSqrtBrackets(v: real)
    requires 0.0 <= v
    ensures var r := RoundSqrt(v);
      && (r == 0 || Square((2 * r - 1) as real) <= 4.0 * v)
      && 4.0 * v <= Square((2 * r + 1) as real)
      && (4.0 * v == Square((2 * r + 1) as real) ==> r % 2 == 0)
      && (r > 0 && 4.0 * v == Square((2 * r - 1) as real) ==> r % 2 == 0)
  {
    var r := RoundSqrt(v);
    OddSquareIsSquare(r);
    if r > 0 {
      OddSquareIsSquare(r - 1);
      assert 2 * (r - 1) + 1 == 2 * r - 1;
    }
    var w := 4.0 * v;
    SearchBrackets(w.Floor, w.Floor as real == w, 0);
  }

  /** For any non-negative root `s` of `v`, rounding `s` gives `RoundSqrt(v)`:
      this is `round(math.sqrt(v))` with the square root taken exactly. */
  lemma RoundSqrtIsRoundedRoot(v: real, s: real)
    requires 0.0 <= s && s * s == v
    ensures RoundSqrt(v) == RoundHalfEven(s)
  {
    var r := RoundSqrt(v);
    RoundSqrtBrackets(v);
    var twice := 2.0 * s;
    assert Square(twice) == 4.0 * v;
    HalfPointsBracket(twice, r);
    RoundHalfEvenUnique(s, r);
  }

  /** If the squares of `2r - 1` and `2r + 1` bracket the square of `t >= 0`,
      then `t` lies within 1 of `2r`, and ties in the squares are ties in `t`. */
  lemma HalfPointsBracket(t: real, r: nat)
    requires 0.0 <= t
    requires r == 0 || Square((2 * r - 1) as real) <= Square(t)
    requires Square(t) <= Square((2 * r + 1) as real)
    requires Square(t) == Square((2 * r + 1) as real) ==> r % 2 == 0
    requires r > 0 && Square(t) == Square((2 * r - 1) as real) ==> r % 2 == 0
    ensures -1.0 <= t - (2 * r) as real <= 1.0
    ensures t - (2 * r) as real == 1.0 || t - (2 * r) as real == -1.0 ==> r % 2 == 0
  {
    var hi := (2 * r + 1) as real;
    if hi < t {
      SquareStrictlyMonotone(hi, t);
      assert false;
    }
    if r > 0 {
      var lo := (2 * r - 1) as real;
      if t < lo {
        SquareStrictlyMonotone(t, lo);
        assert false;
      }
    }
  }
}
