/**
 * The column statistics the pipeline takes from pandas: sum, mean, minimum
 * and maximum, sample variance and its square root (Series.std), and
 * quantiles by linear interpolation (Series.quantile), all over exact reals.
 */
module Stats {
  import Sorting

  function Sum(s: seq<real>): real {
    if |s| == 0 then 0.0 else s[0] + Sum(s[1..])
  }

  lemma {:induction false} SumAppend(a: seq<real>, b: seq<real>)
    ensures Sum(a + b) == Sum(a) + Sum(b)
  {
    if |a| == 0 {
      assert a + b == b;
    } else {
      assert (a + b)[1..] == a[1..] + b;
      SumAppend(a[1..], b);
    }
  }

  /** Arithmetic mean; pandas skips no values here since the model has no NaN. */
  function Mean(s: seq<real>): real
    requires |s| > 0
  {
    Sum(s) / |s| as real
  }

  lemma MeanSingleton(x: real)
    ensures Mean([x]) == x
  {
    assert [x][1..] == [];
    assert Sum([x]) == x + Sum([]);
  }

  function Min(s: seq<real>): (m: real)
    requires |s| > 0
    ensures m in s
    ensures forall x :: x in s ==> m <= x
  {
    if |s| == 1 then s[0]
    else
      var m := Min(s[1..]);
      assert s == [s[0]] + s[1..];
      if s[0] <= m then s[0] else m
  }

  function Max(s: seq<real>): (m: real)
    requires |s| > 0
    ensures m in s
    ensures forall x :: x in s ==> x <= m
  {
    if |s| == 1 then s[0]
    else
      var m := Max(s[1..]);
      assert s == [s[0]] + s[1..];
      if s[0] >= m then s[0] else m
  }

  lemma {:induction false} SumWithin(s: seq<real>, lo: real, hi: real)
    requires forall x :: x in s ==> lo <= x <= hi
    ensures |s| as real * lo <= Sum(s) <= |s| as real * hi
  {
    if |s| > 0 {
      forall x | x in s[1..]
        ensures lo <= x <= hi
      {
        assert x in s;
      }
      assert s[0] in s;
      SumWithin(s[1..], lo, hi);
      assert |s| as real * lo == lo + (|s| - 1) as real * lo;
      assert |s| as real * hi == hi + (|s| - 1) as real * hi;
    }
  }

  /** The mean of values inside an interval lies inside it. */
  lemma MeanWithin(s: seq<real>, lo: real, hi: real)
    requires |s| > 0
    requires forall x :: x in s ==> lo <= x <= hi
    ensures lo <= Mean(s) <= hi
  {
    SumWithin(s, lo, hi);
    var n := |s| as real;
    DivideBounds(Sum(s), n, lo, hi);
  }

  lemma DivideBounds(a: real, n: real, lo: real, hi: real)
    requires n > 0.0
    requires n * lo <= a <= n * hi
    ensures lo <= a / n <= hi
  {
    assert a / n - lo == (a - n * lo) / n;
    assert hi - a / n == (n * hi - a) / n;
  }

  /** The mean lies between the smallest and the largest value. */
  lemma MeanBounds(s: seq<real>)
    requires |s| > 0
    ensures Min(s) <= Mean(s) <= Max(s)
  {
    MeanWithin(s, Min(s), Max(s));
  }

  lemma {:induction false} SumPositive(s: seq<real>)
    requires |s| > 0
    requires forall x :: x in s ==> x > 0.0
    ensures Sum(s) > 0.0
  {
    assert s[0] in s;
    if |s| > 1 {
      forall x | x in s[1..]
        ensures x > 0.0
      {
        assert x in s;
      }
      SumPositive(s[1..]);
    }
  }

  /** Positive values have a positive mean. */
  lemma MeanPositive(s: seq<real>)
    requires |s| > 0
    requires forall x :: x in s ==> x > 0.0
    ensures Mean(s) > 0.0
  {
    SumPositive(s);
  }

  lemma MeanConstant(s: seq<real>, c: real)
    requires |s| > 0
    requires forall x :: x in s ==> x == c
    ensures Mean(s) == c
  {
    MeanWithin(s, c, c);
  }

  // ---------------------------------------------------------------------
  // Sample variance and standard deviation

  /** Sum of squared deviations from `m`. */
  function SquaredDeviations(s: seq<real>, m: real): (r: real)
    ensures r >= 0.0
  {
    if |s| == 0 then 0.0
    else
      SquareNonNegative(s[0] - m);
      (s[0] - m) * (s[0] - m) + SquaredDeviations(s[1..], m)
  }

  lemma SquareNonNegative(d: real)
    ensures d * d >= 0.0
  {
    if d < 0.0 {
      assert d * d == (-d) * (-d);
    }
  }

  /** Sample variance (divisor n - 1), defined from two values on. */
  function SampleVariance(s: seq<real>): (r: real)
    requires |s| >= 2
    ensures r >= 0.0
  {
    SquaredDeviations(s, Mean(s)) / (|s| - 1) as real
  }

  lemma {:induction false} SquaredDeviationsOfConstant(s: seq<real>, m: real)
    requires forall x :: x in s ==> x == m
    ensures SquaredDeviations(s, m) == 0.0
  {
    if |s| > 0 {
      assert s[0] in s;
      forall x | x in s[1..]
        ensures x == m
      {
        assert x in s;
      }
      SquaredDeviationsOfConstant(s[1..], m);
    }
  }

  /** Equal values have zero sample variance. */
  lemma ConstantHasZeroVariance(s: seq<real>)
    requires |s| >= 2
    requires forall x :: x in s ==> x == s[0]
    ensures SampleVariance(s) == 0.0
  {
    MeanConstant(s, s[0]);
    SquaredDeviationsOfConstant(s, s[0]);
  }

  ghost predicate IsSqrt(r: real, x: real) {
    r >= 0.0 && r * r == x
  }

  /**
   * The non-negative square root. Exact reals cannot prove that every
   * non-negative number has one, so where none is known the value is 0;
   * what the pipeline needs is that it is never negative and that the root
   * of 0 is 0.
   */
  ghost function Sqrt(x: real): (r: real)
    ensures r >= 0.0
    ensures (exists y :: IsSqrt(y, x)) ==> IsSqrt(r, x)
    ensures x == 0.0 ==> r == 0.0
  {
    if x == 0.0 then
      assert IsSqrt(0.0, x);
      0.0
    else if exists y :: IsSqrt(y, x) then
      var y :| IsSqrt(y, x); y
    else 0.0
  }

  // ---------------------------------------------------------------------
  // Quantiles

  predicate RealLe(a: real, b: real) { a <= b }

  lemma RealLeIsTotalPreorder()
    ensures Sorting.TotalPreorder(RealLe)
  {
  }

  /** The values in ascending order. */
  function Ascending(s: seq<real>): (t: seq<real>)
    ensures |t| == |s|
    ensures multiset(t) == multiset(s)
    ensures forall i, j :: 0 <= i < j < |t| ==> t[i] <= t[j]
  {
    RealLeIsTotalPreorder();
    Sorting.Sort(s, RealLe)
  }

  lemma AscendingOfSorted(s: seq<real>)
    requires forall i, j :: 0 <= i < j < |s| ==> s[i] <= s[j]
    ensures Ascending(s) == s
  {
    assert Sorting.SortedBy(s, RealLe);
    Sorting.SortOfSorted(s, RealLe);
  }

  /**
   * Linear interpolation inside the ascending sequence `t` at the
   * fractional position `pos` (numpy's 'linear' method).
   */
  function Interpolate(t: seq<real>, pos: real): real
    requires 0.0 <= pos <= (|t| - 1) as real
  {
    var lo := pos.Floor;
    if lo + 1 < |t| then Lerp(t[lo], t[lo + 1], pos - lo as real) else t[lo]
  }

  /** Interpolation at a position whose integer part is known. */
  lemma InterpolateAt(t: seq<real>, pos: real, lo: int)
    requires 0.0 <= pos <= (|t| - 1) as real
    requires lo as real <= pos < (lo + 1) as real
    ensures pos.Floor == lo
    ensures Interpolate(t, pos)
         == if lo + 1 < |t| then Lerp(t[lo], t[lo + 1], pos - lo as real) else t[lo]
  {
  }

  /** The point a fraction `f` of the way from `a` to `b`. */
  function Lerp(a: real, b: real, f: real): real {
    a + f * (b - a)
  }

  lemma ScaleBetween(f: real, d: real)
    requires 0.0 <= f <= 1.0 && d >= 0.0
    ensures 0.0 <= f * d <= d
  {
  }

  lemma LerpMonotone(a: real, b: real, f1: real, f2: real)
    requires a <= b
    requires 0.0 <= f1 <= f2 <= 1.0
    ensures a <= Lerp(a, b, f1) <= Lerp(a, b, f2) <= b
  {
    var d := b - a;
    ScaleBetween(f1, d);
    ScaleBetween(f2, d);
    assert (f2 - f1) * d >= 0.0;
    assert Lerp(a, b, f1) == a + f1 * d;
    assert Lerp(a, b, f2) == a + f2 * d;
  }

  /** The interpolated value lies between the neighbours it interpolates. */
  lemma InterpolateBetween(t: seq<real>, pos: real)
    requires 0.0 <= pos <= (|t| - 1) as real
    requires forall i, j :: 0 <= i < j < |t| ==> t[i] <= t[j]
    ensures t[pos.Floor] <= Interpolate(t, pos)
    ensures pos.Floor + 1 < |t| ==> Interpolate(t, pos) <= t[pos.Floor + 1]
    ensures pos.Floor + 1 >= |t| ==> Interpolate(t, pos) == t[pos.Floor]
  {
    var lo := pos.Floor;
    if lo + 1 < |t| {
      assert t[lo] <= t[lo + 1];
      LerpMonotone(t[lo], t[lo + 1], pos - lo as real, pos - lo as real);
    }
  }

  /** Interpolation is monotone in the position. */
  lemma InterpolateMonotone(t: seq<real>, p1: real, p2: real)
    requires 0.0 <= p1 <= p2 <= (|t| - 1) as real
    requires forall i, j :: 0 <= i < j < |t| ==> t[i] <= t[j]
    ensures Interpolate(t, p1) <= Interpolate(t, p2)
  {
    var lo1, lo2 := p1.Floor, p2.Floor;
    InterpolateBetween(t, p1);
    InterpolateBetween(t, p2);
    if lo1 == lo2 && lo1 + 1 < |t| {
      assert t[lo1] <= t[lo1 + 1];
      LerpMonotone(t[lo1], t[lo1 + 1], p1 - lo1 as real, p2 - lo2 as real);
    } else if lo1 < lo2 {
      assert t[lo1 + 1] <= t[lo2];
    }
  }

  /** The fractional position q * (n - 1) of the q-quantile among n values. */
  function Position(n: nat, q: real): (pos: real)
    requires n > 0
    requires 0.0 <= q <= 1.0
    ensures 0.0 <= pos <= (n - 1) as real
  {
    ScaleBetween(q, (n - 1) as real);
    q * (n - 1) as real
  }

  lemma PositionMonotone(n: nat, q1: real, q2: real)
    requires n > 0
    requires 0.0 <= q1 <= q2 <= 1.0
    ensures Position(n, q1) <= Position(n, q2)
  {
    ScaleMonotone(q1, q2, (n - 1) as real);
  }

  lemma ScaleMonotone(f1: real, f2: real, d: real)
    requires f1 <= f2 && d >= 0.0
    ensures f1 * d <= f2 * d
  {
    assert f2 * d - f1 * d == (f2 - f1) * d;
  }

  lemma ElementOfPermutation(t: seq<real>, s: seq<real>, i: int)
    requires multiset(t) == multiset(s)
    requires 0 <= i < |t|
    ensures t[i] in s
  {
    assert t[i] in multiset(s);
  }

  /**
   * Series.quantile(q) with linear interpolation: the value at position
   * q * (n - 1) of the ascending values.
   */
  function Quantile(s: seq<real>, q: real): real
    requires |s| > 0
    requires 0.0 <= q <= 1.0
  {
    Interpolate(Ascending(s), Position(|s|, q))
  }

  /** A quantile lies between the smallest and the largest value. */
  lemma QuantileBounds(s: seq<real>, q: real)
    requires |s| > 0
    requires 0.0 <= q <= 1.0
    ensures Min(s) <= Quantile(s, q) <= Max(s)
  {
    var t := Ascending(s);
    var pos := Position(|s|, q);
    var v := Interpolate(t, pos);
    assert Quantile(s, q) == v;
    InterpolateBetween(t, pos);
    var lo := pos.Floor;
    ElementOfPermutation(t, s, lo);
    assert Min(s) <= t[lo] <= v;
    if lo + 1 < |t| {
      ElementOfPermutation(t, s, lo + 1);
      assert v <= t[lo + 1] <= Max(s);
    } else {
      assert v == t[lo] <= Max(s);
    }
  }

  /** The quantile of ascending values, once the integer part of its position is known. */
  lemma QuantileOfAscending(s: seq<real>, q: real, lo: int)
    requires |s| > 0
    requires 0.0 <= q <= 1.0
    requires forall i, j :: 0 <= i < j < |s| ==> s[i] <= s[j]
    requires lo as real <= q * (|s| - 1) as real < (lo + 1) as real
    ensures 0 <= lo < |s|
    ensures Quantile(s, q) == if lo + 1 < |s| then Lerp(s[lo], s[lo + 1], q * (|s| - 1) as real - lo as real) else s[lo]
  {
    AscendingOfSorted(s);
    var pos := Position(|s|, q);
    assert pos == q * (|s| - 1) as real;
    InterpolateAt(s, pos, lo);
  }

  /** A higher quantile is never below a lower one. */
  lemma QuantileMonotone(s: seq<real>, q1: real, q2: real)
    requires |s| > 0
    requires 0.0 <= q1 <= q2 <= 1.0
    ensures Quantile(s, q1) <= Quantile(s, q2)
  {
    PositionMonotone(|s|, q1, q2);
    InterpolateMonotone(Ascending(s), Position(|s|, q1), Position(|s|, q2));
  }
}
