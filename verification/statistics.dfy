/**
 The descriptive statistics the summary reports over a list of reaction times:
 sum, minimum, maximum, the sorted copy, the median, the mean and the sample
 variance with Bessel's correction. Everything is exact: integers for the
 samples, reals for the quotients.
 */
module Statistics {
  import opened Rounding

  function Sum(xs: seq<int>): int {
    if xs == [] then 0 else xs[0] + Sum(xs[1..])
  }

  /** Python's `min` of a non-empty list. */
  function Min(xs: seq<int>): (m: int)
    requires |xs| > 0
    ensures m in xs
    ensures forall i :: 0 <= i < |xs| ==> m <= xs[i]
  {
    if |xs| == 1 then xs[0]
    else
      var rest := Min(xs[1..]);
      if xs[0] <= rest then xs[0] else rest
  }

  /** Python's `max` of a non-empty list. */
  function Max(xs: seq<int>): (m: int)
    requires |xs| > 0
    ensures m in xs
    ensures forall i :: 0 <= i < |xs| ==> xs[i] <= m
  {
    if |xs| == 1 then xs[0]
    else
      var rest := Max(xs[1..]);
      if xs[0] >= rest then xs[0] else rest
  }

  predicate Sorted(xs: seq<int>) {
    forall i, j :: 0 <= i < j < |xs| ==> xs[i] <= xs[j]
  }

  /** Inserts `x` into a sorted list, keeping it sorted. The new head is `x`
      or the old head. */
  function Insert(x: int, s: seq<int>): (r: seq<int>)
    requires Sorted(s)
    ensures Sorted(r)
    ensures multiset(r) == multiset(s) + multiset{x}
    ensures |r| == |s| + 1
    ensures r[0] == x || (s != [] && r[0] == s[0])
  {
    if s == [] || x <= s[0] then [x] + s
    else
      var tail := Insert(x, s[1..]);
      assert s == [s[0]] + s[1..];
      assert multiset(s) == multiset{s[0]} + multiset(s[1..]);
      assert multiset([s[0]] + tail) == multiset{s[0]} + multiset(tail);
      assert s[0] <= tail[0];
      [s[0]] + tail
  }

  /** Python's `sorted`: an ascending permutation of the input. */
  function Sort(xs: seq<int>): (r: seq<int>)
    ensures Sorted(r)
    ensures multiset(r) == multiset(xs)
  {
    if xs == [] then []
    else
      assert xs == [xs[0]] + xs[1..];
      Insert(xs[0], Sort(xs[1..]))
  }

  /** A sorted list is determined by its elements: two sorted permutations of
      each other are equal. */
  lemma {:induction false} SortedUnique(a: seq<int>, b: seq<int>)
    requires Sorted(a) && Sorted(b)
    requires multiset(a) == multiset(b)
    ensures a == b
  {
    assert |a| == |multiset(a)| == |multiset(b)| == |b|;
    if a != [] {
      HeadsEqual(a, b);
      TailMultiset(a);
      TailMultiset(b);
      SortedTail(a);
      SortedTail(b);
      SortedUnique(a[1..], b[1..]);
      assert a == [a[0]] + a[1..];
      assert b == [b[0]] + b[1..];
    }
  }

  /** Sorted permutations of each other start with the same element. */
  lemma HeadsEqual(a: seq<int>, b: seq<int>)
    requires Sorted(a) && Sorted(b) && a != [] && b != []
    requires multiset(a) == multiset(b)
    ensures a[0] == b[0]
  {
    assert a[0] in multiset(b) by { assert a[0] in a; }
    assert b[0] in multiset(a) by { assert b[0] in b; }
    SortedHeadIsLeast(a, b[0]);
    SortedHeadIsLeast(b, a[0]);
  }

  lemma TailMultiset(a: seq<int>)
    requires a != []
    ensures multiset(a[1..]) == multiset(a) - multiset{a[0]}
  {
    assert a == [a[0]] + a[1..];
  }

  lemma SortedHeadIsLeast(a: seq<int>, x: int)
    requires Sorted(a) && x in multiset(a)
    ensures a[0] <= x
  {
    var i :| 0 <= i < |a| && a[i] == x;
  }

  lemma SortedTail(a: seq<int>)
    requires Sorted(a) && a != []
    ensures Sorted(a[1..])
  {
    forall i, j | 0 <= i < j < |a| - 1
      ensures a[1..][i] <= a[1..][j]
    {
      assert a[1..][i] == a[i + 1] && a[1..][j] == a[j + 1];
    }
  }

  /** Sorting a list that is already sorted leaves it unchanged. */
  lemma SortOfSorted(xs: seq<int>)
    requires Sorted(xs)
    ensures Sort(xs) == xs
  {
    SortedUnique(Sort(xs), xs);
  }

  /** The median: the middle element of the sorted list for an odd count, the
      mean of the two middle elements for an even count. */
  function Median(xs: seq<int>): (m: real)
    requires |xs| > 0
    ensures Min(xs) as real <= m <= Max(xs) as real
    ensures |xs| % 2 == 1 ==> exists i :: 0 <= i < |xs| && m == xs[i] as real
  {
    var s := Sort(xs);
    var n := |s|;
    assert |xs| == |multiset(xs)| == |multiset(s)| == n;
    assert s[n / 2] in multiset(xs);
    if n % 2 == 0 then
      assert s[n / 2 - 1] in multiset(xs);
      (s[n / 2 - 1] + s[n / 2]) as real / 2.0
    else
      s[n / 2] as real
  }

  /** The median depends only on the multiset of values, not their order. */
  lemma MedianIgnoresOrder(xs: seq<int>, ys: seq<int>)
    requires |xs| > 0
    requires multiset(xs) == multiset(ys)
    ensures |ys| > 0 && Median(xs) == Median(ys)
  {
    assert |xs| == |multiset(xs)| == |ys|;
    SortedUnique(Sort(xs), Sort(ys));
  }

  /** Summing a list whose elements lie in [lo, hi]. */
  lemma {:induction false} SumBounds(xs: seq<int>, lo: int, hi: int)
    requires forall i :: 0 <= i < |xs| ==> lo <= xs[i] <= hi
    ensures |xs| * lo <= Sum(xs) <= |xs| * hi
  {
    if xs != [] {
      SumBounds(xs[1..], lo, hi);
      assert (|xs| - 1) * lo + lo == |xs| * lo;
      assert (|xs| - 1) * hi + hi == |xs| * hi;
    }
  }

  /** The arithmetic mean. */
  function Mean(xs: seq<int>): (m: real)
    requires |xs| > 0
    ensures Min(xs) as real <= m <= Max(xs) as real
  {
    SumBounds(xs, Min(xs), Max(xs));
    QuotientBounds(Sum(xs), |xs|, Min(xs), Max(xs));
    Sum(xs) as real / |xs| as real
  }

  /** If n * lo <= s <= n * hi then lo <= s / n <= hi. */
  lemma QuotientBounds(s: int, n: int, lo: int, hi: int)
    requires n > 0
    requires n * lo <= s <= n * hi
    ensures lo as real <= s as real / n as real <= hi as real
  {
    var q := s as real / n as real;
    assert q * n as real == s as real;
    assert (n * lo) as real == n as real * lo as real;
    assert (n * hi) as real == n as real * hi as real;
    if q < lo as real {
      assert false;
    }
    if q > hi as real {
      assert false;
    }
  }

  /** The sum of squared deviations of `xs` from `centre`. */
  function SquaredDeviations(xs: seq<int>, centre: real): (r: real)
    ensures r >= 0.0
  {
    if xs == [] then 0.0
    else
      Square(xs[0] as real - centre) + SquaredDeviations(xs[1..], centre)
  }

  /** The sample variance with Bessel's correction (divide by n - 1), zero for
      fewer than two samples; the standard deviation is its square root. */
  function SampleVariance(xs: seq<int>): (v: real)
    ensures v >= 0.0
    ensures |xs| < 2 ==> v == 0.0
  {
    if |xs| < 2 then 0.0
    else SquaredDeviations(xs, Mean(xs)) / (|xs| - 1) as real
  }

  /** The squared deviations vanish exactly when every sample equals the
      centre. */
  lemma {:induction false} SquaredDeviationsZero(xs: seq<int>, centre: real)
    ensures SquaredDeviations(xs, centre) == 0.0 <==>
            forall i :: 0 <= i < |xs| ==> xs[i] as real == centre
  {
    if xs != [] {
      var rest := xs[1..];
      SquaredDeviationsZero(rest, centre);
      var d := xs[0] as real - centre;
      assert SquaredDeviations(xs, centre) == Square(d) + SquaredDeviations(rest, centre);
      if forall i :: 0 <= i < |xs| ==> xs[i] as real == centre {
        assert forall k :: 0 <= k < |rest| ==> rest[k] as real == centre by {
          forall k | 0 <= k < |rest|
            ensures rest[k] as real == centre
          {
            assert rest[k] == xs[k + 1];
          }
        }
      }
      if SquaredDeviations(xs, centre) == 0.0 && d != 0.0 {
        SquarePositive(d);
        assert false;
      }
      if SquaredDeviations(xs, centre) == 0.0 {
        forall i | 0 <= i < |xs|
          ensures xs[i] as real == centre
        {
          if i > 0 {
            assert xs[i] == rest[i - 1];
          }
        }
      }
    }
  }

  lemma SquarePositive(d: real)
    requires d != 0.0
    ensures Square(d) > 0.0
  {
    if d > 0.0 {
      SquareStrictlyMonotone(0.0, d);
    } else {
      assert Square(d) == Square(-d);
      SquareStrictlyMonotone(0.0, -d);
    }
  }

  /** A list of copies of one value sums to the count times the value. */
  lemma {:induction false} SumConstant(xs: seq<int>, c: int)
    requires forall i :: 0 <= i < |xs| ==> xs[i] == c
    ensures Sum(xs) == |xs| * c
  {
    if xs != [] {
      SumConstant(xs[1..], c);
      assert (|xs| - 1) * c + c == |xs| * c;
    }
  }

  /** With at least two samples the variance is zero exactly when all samples
      are equal. */
  lemma VarianceZeroIffConstant(xs: seq<int>)
    requires |xs| >= 2
    ensures SampleVariance(xs) == 0.0 <==> forall i :: 0 <= i < |xs| ==> xs[i] == xs[0]
  {
    var m := Mean(xs);
    var ss := SquaredDeviations(xs, m);
    SquaredDeviationsZero(xs, m);
    assert SampleVariance(xs) == ss / (|xs| - 1) as real;
    if forall i :: 0 <= i < |xs| ==> xs[i] == xs[0] {
      SumConstant(xs, xs[0]);
      assert m == (|xs| * xs[0]) as real / |xs| as real;
      assert m == xs[0] as real;
    }
  }

  /** The sample the experiment's own statistics check uses. */
  const Example: seq<int> := [100, 200, 300, 400, 500]

  lemma ExampleIsSorted()
    ensures Sort(Example) == Example
  {
    SortOfSorted(Example);
  }

  lemma ExampleMedianIsMiddle()
    ensures Median(Example) == Sort(Example)[2] as real
  {
  }

  /** For the example sample the median is 300. */
  lemma ExampleMedian()
    ensures Median(Example) == 300.0
  {
    ExampleIsSorted();
    ExampleMedianIsMiddle();
  }

  /** For the example sample the mean is 300. */
  lemma ExampleMean()
    ensures Mean(Example) == 300.0
  {
    assert Sum(Example) == 1500;
  }

  lemma ExampleDeviations()
    ensures SquaredDeviations(Example, 300.0) == 100000.0
  {
  }

  /** For the example sample the sample variance is 25000. */
  lemma ExampleVariance()
    ensures SampleVariance(Example) == 25000.0
  {
    ExampleMean();
    ExampleDeviations();
    VarianceOfFive(Example, 300.0, 100000.0);
  }

  lemma VarianceOfFive(xs: seq<int>, m: real, d: real)
    requires |xs| == 5 && Mean(xs) == m && SquaredDeviations(xs, m) == d
    ensures SampleVariance(xs) == d / 4.0
  {
  }

  /** Any non-negative square root of the example's variance (its standard
      deviation) lies within 0.1 of 158.11 and rounds to 158. */
  lemma ExampleStandardDeviation(std: real)
    requires std >= 0.0 && Square(std) == SampleVariance(Example)
    ensures 158.01 < std < 158.21
    ensures RoundHalfEven(std) == 158
  {
    ExampleVariance();
    if std <= 158.01 {
      if std < 158.01 {
        SquareStrictlyMonotone(std, 158.01);
      }
      assert false;
    }
    if 158.21 <= std {
      if 158.21 < std {
        SquareStrictlyMonotone(158.21, std);
      }
      assert false;
    }
    RoundHalfEvenUnique(std, 158);
  }
}
