/**
 * The degree-1 polynomial fit over exact reals: the ordinary least-squares
 * line through the points (i, ys[i]) for i = 0 .. m - 1, by its closed form.
 *
 * Every sum here runs from the first point: the points after the first are
 * the points of the rest moved one step to the right, which keeps each
 * recursive step linear in the unknowns.
 */
module Regression {
  import Stats


  datatype Line = Line(slope: real, intercept: real) {
    function At(x: real): real { slope * x + intercept }

    /** The same line seen from one step to the right. */
    function Shift(): (s: Line)
      ensures s.slope == slope
    {
      Line(slope, slope + intercept)
    }
  }

  lemma ShiftAt(l: Line, x: real, x': real)
    requires x' == x + 1.0
    ensures l.Shift().At(x) == l.At(x')
  {
  }

  // ---------------------------------------------------------------------
  // The sums the fit is made of

  /**
   * Over the points (x, y) = (i, ys[i]): their number n and the sums of x,
   * x^2, y and x * y.
   */
  datatype Sums = Sums(n: real, sx: real, sxx: real, sy: real, sxy: real) {
    /** The determinant of the normal equations. */
    function Det(): real { n * sxx - sx * sx }

    /** The sum of the residuals y - l(x), from the sums. */
    function ResidualOf(l: Line): real { sy - l.slope * sx - n * l.intercept }

    /** The sum of the weighted residuals x * (y - l(x)), from the sums. */
    function WeightedOf(l: Line): real { sxy - l.slope * sxx - l.intercept * sx }

    /**
     * The sum of (y - a x - b)^2 over the points, multiplied out, given the
     * sum syy of y^2.
     */
    function ErrorOf(syy: real, l: Line): real {
      syy - 2.0 * (l.slope * sxy + l.intercept * sy)
      + l.slope * l.slope * sxx + 2.0 * l.slope * l.intercept * sx + n * (l.intercept * l.intercept)
    }
  }

  /**
   * The sums over ys. Moving the points of the rest one step right turns
   * i into i + 1, so sx grows by n, sxx by 2 sx + n and sxy by sy.
   */
  function Totals(ys: seq<real>): Sums {
    if |ys| == 0 then Sums(0.0, 0.0, 0.0, 0.0, 0.0)
    else
      var t := Totals(ys[1..]);
      Sums(t.n + 1.0, t.sx + t.n, t.sxx + 2.0 * t.sx + t.n, t.sy + ys[0], t.sxy + t.sy)
  }

  lemma {:induction false} CountIsLength(ys: seq<real>)
    ensures Totals(ys).n == |ys| as real
  {
    if |ys| > 0 {
      CountIsLength(ys[1..]);
    }
  }

  /** 0 + 1 + ... + (n - 1) == n (n - 1) / 2 and the sum of squares likewise. */
  predicate PositionsClosed(t: Sums) {
    2.0 * t.sx == t.n * (t.n - 1.0) && 6.0 * t.sxx == (t.n - 1.0) * t.n * (2.0 * t.n - 1.0)
  }

  lemma {:induction false} PositionSums(ys: seq<real>)
    ensures PositionsClosed(Totals(ys))
  {
    if |ys| > 0 {
      var t := Totals(ys[1..]);
      PositionSums(ys[1..]);
      PositionGlue(t, Totals(ys));
    }
  }

  /** One step of PositionSums, over the sums. */
  lemma PositionGlue(t: Sums, u: Sums)
    requires PositionsClosed(t)
    requires u.n == t.n + 1.0 && u.sx == t.sx + t.n && u.sxx == t.sxx + 2.0 * t.sx + t.n
    ensures PositionsClosed(u)
  {
    PositionStep(t.n, t.sx, t.sxx, u.n, u.sx, u.sxx);
  }

  lemma PositionStep(n: real, sx: real, sxx: real, n': real, sx': real, sxx': real)
    requires 2.0 * sx == n * (n - 1.0)
    requires 6.0 * sxx == (n - 1.0) * n * (2.0 * n - 1.0)
    requires n' == n + 1.0 && sx' == sx + n && sxx' == sxx + 2.0 * sx + n
    ensures 2.0 * sx' == n' * (n' - 1.0)
    ensures 6.0 * sxx' == (n' - 1.0) * n' * (2.0 * n' - 1.0)
  {
    assert n' - 1.0 == n;
  }

  /** The determinant is n^2 (n^2 - 1) / 12, positive from two points on. */
  lemma DetPositive(ys: seq<real>)
    requires |ys| >= 2
    ensures Totals(ys).n >= 2.0 && Totals(ys).Det() > 0.0
  {
    var t := Totals(ys);
    CountIsLength(ys);
    PositionSums(ys);
    DetOfPositions(t.n, t.sx, t.sxx);
  }

  lemma DetOfPositions(n: real, sx: real, sxx: real)
    requires n >= 2.0
    requires 2.0 * sx == n * (n - 1.0)
    requires 6.0 * sxx == (n - 1.0) * n * (2.0 * n - 1.0)
    ensures n * sxx - sx * sx > 0.0
  {
    assert 12.0 * (n * sxx - sx * sx) == 2.0 * n * (6.0 * sxx) - 3.0 * (2.0 * sx) * (2.0 * sx);
    assert 12.0 * (n * sxx - sx * sx) == n * n * (n * n - 1.0);
    PositiveProduct(n * n, n * n - 1.0);
  }

  lemma PositiveProduct(a: real, b: real)
    requires a > 0.0 && b > 0.0
    ensures a * b > 0.0
  {
  }

  // ---------------------------------------------------------------------
  // The fit

  predicate IsQuotient(q: real, x: real, d: real) {
    q * d == x
  }

  /**
   * x / d, characterised by q * d == x, so that proofs about the fit see
   * products rather than a division by a non-constant.
   */
  function Quotient(x: real, d: real): (q: real)
    requires d > 0.0
    ensures q * d == x
  {
    assert IsQuotient(x / d, x, d);
    var q :| IsQuotient(q, x, d);
    q
  }

  /**
   * The solution of the normal equations
   *   a * sxx + b * sx == sxy  and  a * sx + b * n == sy
   * by Cramer's rule, for a positive determinant.
   */
  function Solve(t: Sums): (l: Line)
    requires t.n > 0.0 && t.Det() > 0.0
    ensures l.slope * t.Det() == t.n * t.sxy - t.sx * t.sy
    ensures l.intercept * t.n == t.sy - l.slope * t.sx
  {
    var a := Quotient(t.n * t.sxy - t.sx * t.sy, t.Det());
    Line(a, Quotient(t.sy - a * t.sx, t.n))
  }

  /** The least-squares line through (i, ys[i]): slope and intercept in closed form. */
  function Fit(ys: seq<real>): (l: Line)
    requires |ys| >= 2
  {
    DetPositive(ys);
    Solve(Totals(ys))
  }

  // ---------------------------------------------------------------------
  // Residuals

  /** The sum of the residuals ys[i] - l(i). */
  function Residual(ys: seq<real>, l: Line): real {
    if |ys| == 0 then 0.0
    else (ys[0] - l.intercept) + Residual(ys[1..], l.Shift())
  }

  /** The sum of i * (ys[i] - l(i)); the first point has weight 0. */
  function WeightedResidual(ys: seq<real>, l: Line): real {
    if |ys| == 0 then 0.0
    else WeightedResidual(ys[1..], l.Shift()) + Residual(ys[1..], l.Shift())
  }

  lemma {:induction false} ResidualExpanded(ys: seq<real>, l: Line)
    ensures var t := Totals(ys);
      Residual(ys, l) == t.ResidualOf(l)
  {
    if |ys| > 0 {
      var t, u := Totals(ys[1..]), Totals(ys);
      var l' := l.Shift();
      ResidualExpanded(ys[1..], l');
      assert u.n == t.n + 1.0 && u.sx == t.sx + t.n && u.sy == t.sy + ys[0];
      ResidualGlue(t, u, ys[0], l, l', Residual(ys[1..], l'), Residual(ys, l));
    }
  }

  /** One step of ResidualExpanded, over the sums. */
  lemma ResidualGlue(t: Sums, u: Sums, y: real, l: Line, l': Line, r: real, r': real)
    requires u.n == t.n + 1.0 && u.sx == t.sx + t.n && u.sy == t.sy + y
    requires l' == l.Shift()
    requires r == t.ResidualOf(l') && r' == (y - l.intercept) + r
    ensures r' == u.ResidualOf(l)
  {
    ResidualStep(t.n, t.sx, t.sy, u.n, u.sx, u.sy, y, l.slope, l.intercept, l'.intercept, r, r');
  }

  lemma ResidualStep(n: real, sx: real, sy: real, n': real, sx': real, sy': real,
                     y: real, a: real, b: real, b': real, r: real, r': real)
    requires n' == n + 1.0 && sx' == sx + n && sy' == sy + y && b' == a + b
    requires r == sy - a * sx - n * b'
    requires r' == (y - b) + r
    ensures r' == sy' - a * sx' - n' * b
  {
  }

  lemma {:induction false} WeightedResidualExpanded(ys: seq<real>, l: Line)
    ensures var t := Totals(ys);
      WeightedResidual(ys, l) == t.WeightedOf(l)
  {
    if |ys| > 0 {
      var t, u := Totals(ys[1..]), Totals(ys);
      var l' := l.Shift();
      ResidualExpanded(ys[1..], l');
      WeightedResidualExpanded(ys[1..], l');
      assert u.sx == t.sx + t.n && u.sxx == t.sxx + 2.0 * t.sx + t.n && u.sxy == t.sxy + t.sy;
      WeightedGlue(t, u, l, l', Residual(ys[1..], l'), WeightedResidual(ys[1..], l'), WeightedResidual(ys, l));
    }
  }

  /** One step of WeightedResidualExpanded, over the sums. */
  lemma WeightedGlue(t: Sums, u: Sums, l: Line, l': Line, r: real, w: real, w': real)
    requires u.sx == t.sx + t.n && u.sxx == t.sxx + 2.0 * t.sx + t.n && u.sxy == t.sxy + t.sy
    requires l' == l.Shift()
    requires r == t.ResidualOf(l') && w == t.WeightedOf(l') && w' == w + r
    ensures w' == u.WeightedOf(l)
  {
    WeightedStep(t.n, t.sx, t.sxx, t.sy, t.sxy, u.sx, u.sxx, u.sxy, l.slope, l.intercept, l'.intercept, r, w, w');
  }

  lemma WeightedStep(n: real, sx: real, sxx: real, sy: real, sxy: real, sx': real, sxx': real, sxy': real,
                     a: real, b: real, b': real, r: real, w: real, w': real)
    requires sx' == sx + n && sxx' == sxx + 2.0 * sx + n && sxy' == sxy + sy && b' == a + b
    requires r == sy - a * sx - n * b'
    requires w == sxy - a * sxx - b' * sx
    requires w' == w + r
    ensures w' == sxy' - a * sxx' - b * sx'
  {
  }

  /** A line satisfies the two normal equations: both residual sums vanish. */
  predicate Normal(ys: seq<real>, l: Line) {
    Residual(ys, l) == 0.0 && WeightedResidual(ys, l) == 0.0
  }

  /** The normal equations written with the sums. */
  predicate SolvesNormal(t: Sums, l: Line) {
    t.ResidualOf(l) == 0.0 && t.WeightedOf(l) == 0.0
  }

  lemma NormalAsSums(ys: seq<real>, l: Line)
    ensures Normal(ys, l) <==> SolvesNormal(Totals(ys), l)
  {
    ResidualExpanded(ys, l);
    WeightedResidualExpanded(ys, l);
  }

  /** The closed form solves the normal equations, and nothing else does. */
  lemma SolveIffNormal(t: Sums, l: Line)
    requires t.n > 0.0 && t.Det() > 0.0
    ensures SolvesNormal(t, l) <==> l == Solve(t)
  {
    var s := Solve(t);
    SolutionSatisfies(t.n, t.sx, t.sxx, t.sy, t.sxy, t.Det(), s.slope, s.intercept);
    if SolvesNormal(t, l) {
      SolutionUnique(t.n, t.sx, t.sxx, t.sy, t.sxy, t.Det(), s.slope, s.intercept, l.slope, l.intercept);
    }
  }

  /** The fitted line satisfies the normal equations. */
  lemma FitIsNormal(ys: seq<real>)
    requires |ys| >= 2
    ensures Normal(ys, Fit(ys))
  {
    DetPositive(ys);
    SolveIffNormal(Totals(ys), Fit(ys));
    NormalAsSums(ys, Fit(ys));
  }

  /** The closed form solves the two normal equations. */
  lemma SolutionSatisfies(n: real, sx: real, sxx: real, sy: real, sxy: real, d: real, a: real, b: real)
    requires n > 0.0 && d == n * sxx - sx * sx
    requires a * d == n * sxy - sx * sy
    requires b * n == sy - a * sx
    ensures sy - a * sx - n * b == 0.0
    ensures sxy - a * sxx - b * sx == 0.0
  {
    var w := sxy - a * sxx - b * sx;
    NormalCombination(n, sx, sxx, sy, sxy, a, b);
    assert n * w == 0.0;
    CancelPositive(w, 0.0, n);
  }

  /** The normal equations have only the closed form as solution. */
  lemma SolutionUnique(n: real, sx: real, sxx: real, sy: real, sxy: real, d: real,
                       a: real, b: real, a': real, b': real)
    requires n > 0.0 && d > 0.0 && d == n * sxx - sx * sx
    requires a * d == n * sxy - sx * sy
    requires b * n == sy - a * sx
    requires sy - a' * sx - n * b' == 0.0
    requires sxy - a' * sxx - b' * sx == 0.0
    ensures a' == a && b' == b
  {
    NormalCombination(n, sx, sxx, sy, sxy, a', b');
    assert a' * d == n * sxy - sx * sy;
    CancelPositive(a', a, d);
    assert n * b' == n * b;
    CancelPositive(b', b, n);
  }

  /** A line satisfying the normal equations is the fitted line. */
  lemma NormalIsFit(ys: seq<real>, l: Line)
    requires |ys| >= 2
    requires Normal(ys, l)
    ensures l == Fit(ys)
  {
    DetPositive(ys);
    NormalAsSums(ys, l);
    SolveIffNormal(Totals(ys), l);
  }

  /** The fitted line satisfies the normal equations, and no other line does. */
  lemma NormalIffFit(ys: seq<real>, l: Line)
    requires |ys| >= 2
    ensures Normal(ys, l) <==> l == Fit(ys)
  {
    FitIsNormal(ys);
    if Normal(ys, l) {
      NormalIsFit(ys, l);
    }
  }

  /** Eliminating the intercept from the two normal equations. */
  lemma NormalCombination(n: real, sx: real, sxx: real, sy: real, sxy: real, a: real, b: real)
    ensures n * (sxy - a * sxx - b * sx) - sx * (sy - a * sx - n * b)
         == (n * sxy - sx * sy) - a * (n * sxx - sx * sx)
  {
  }

  lemma CancelPositive(x: real, y: real, d: real)
    requires d > 0.0 && x * d == y * d
    ensures x == y
  {
    assert (x - y) * d == 0.0;
  }

  // ---------------------------------------------------------------------
  // Least squares

  /** The sum of the squared residuals (ys[i] - l(i))^2. */
  function SquaredError(ys: seq<real>, l: Line): real {
    if |ys| == 0 then 0.0
    else
      var r := ys[0] - l.intercept;
      r * r + SquaredError(ys[1..], l.Shift())
  }

  /** The sum of ys[i]^2. */
  function SquareSum(ys: seq<real>): real {
    if |ys| == 0 then 0.0 else ys[0] * ys[0] + SquareSum(ys[1..])
  }

  lemma {:induction false} SquaredErrorExpanded(ys: seq<real>, l: Line)
    ensures SquaredError(ys, l) == Totals(ys).ErrorOf(SquareSum(ys), l)
  {
    if |ys| > 0 {
      var t, u := Totals(ys[1..]), Totals(ys);
      var l' := l.Shift();
      SquaredErrorExpanded(ys[1..], l');
      SquareStep(t, SquareSum(ys[1..]), u, SquareSum(ys), ys[0], l, l', SquaredError(ys[1..], l'), SquaredError(ys, l));
    }
  }

  lemma SquareStep(t: Sums, syy: real, u: Sums, syy': real, y: real, l: Line, l': Line, e: real, e': real)
    requires u.n == t.n + 1.0 && u.sx == t.sx + t.n && u.sxx == t.sxx + 2.0 * t.sx + t.n
    requires u.sy == t.sy + y && u.sxy == t.sxy + t.sy && syy' == syy + y * y
    requires l'.slope == l.slope && l'.intercept == l.slope + l.intercept
    requires e == t.ErrorOf(syy, l')
    requires e' == (y - l.intercept) * (y - l.intercept) + e
    ensures e' == u.ErrorOf(syy', l)
  {
    ExpandStep(t.n, t.sx, t.sxx, t.sy, t.sxy, syy, u.n, u.sx, u.sxx, u.sy, u.sxy, syy',
               y, l.slope, l'.slope, l.intercept, l'.intercept, e, e');
  }

  lemma ExpandStep(n: real, sx: real, sxx: real, sy: real, sxy: real, syy: real,
                   n': real, sx': real, sxx': real, sy': real, sxy': real, syy': real,
                   y: real, a: real, a': real, b: real, b': real, e: real, e': real)
    requires n' == n + 1.0 && sx' == sx + n && sxx' == sxx + 2.0 * sx + n
    requires sy' == sy + y && sxy' == sxy + sy && syy' == syy + y * y
    requires a' == a && b' == a + b
    requires e == syy - 2.0 * (a' * sxy + b' * sy) + a' * a' * sxx + 2.0 * a' * b' * sx + n * (b' * b')
    requires e' == (y - b) * (y - b) + e
    ensures e' == syy' - 2.0 * (a * sxy' + b * sy') + a * a * sxx' + 2.0 * a * b * sx' + n' * (b * b)
  {
  }

  /**
   * Against a line that solves the normal equations, any other line's error
   * grows by a quadratic form in the differences of slope and intercept,
   * which is zero only when the lines agree.
   */
  lemma ErrorAboveNormal(t: Sums, syy: real, l: Line, c: Line)
    requires t.n > 0.0 && t.Det() > 0.0
    requires SolvesNormal(t, l)
    ensures t.ErrorOf(syy, l) <= t.ErrorOf(syy, c)
    ensures t.ErrorOf(syy, l) == t.ErrorOf(syy, c) ==> c == l
  {
    var p, q := c.slope - l.slope, c.intercept - l.intercept;
    ErrorGap(t.n, t.sx, t.sxx, t.sy, t.sxy, syy, l.slope, l.intercept, c.slope, c.intercept,
             t.ErrorOf(syy, c), t.ErrorOf(syy, l));
    GapDefinite(t.n, t.sx, t.sxx, p, q);
  }

  lemma ErrorGap(n: real, sx: real, sxx: real, sy: real, sxy: real, syy: real,
                 a: real, b: real, c: real, d: real, ec: real, el: real)
    requires sy - a * sx - n * b == 0.0 && sxy - a * sxx - b * sx == 0.0
    requires ec == syy - 2.0 * (c * sxy + d * sy) + c * c * sxx + 2.0 * c * d * sx + n * (d * d)
    requires el == syy - 2.0 * (a * sxy + b * sy) + a * a * sxx + 2.0 * a * b * sx + n * (b * b)
    ensures ec - el == (c - a) * (c - a) * sxx + 2.0 * (c - a) * (d - b) * sx + n * ((d - b) * (d - b))
  {
  }

  /** p^2 sxx + 2 p q sx + n q^2 is positive definite when n and the determinant are. */
  lemma GapDefinite(n: real, sx: real, sxx: real, p: real, q: real)
    requires n > 0.0 && n * sxx - sx * sx > 0.0
    ensures p * p * sxx + 2.0 * p * q * sx + n * (q * q) >= 0.0
    ensures p * p * sxx + 2.0 * p * q * sx + n * (q * q) == 0.0 ==> p == 0.0 && q == 0.0
  {
    var d := n * sxx - sx * sx;
    var v := p * p * sxx + 2.0 * p * q * sx + n * (q * q);
    var u := n * q + sx * p;
    assert n * v == u * u + d * (p * p);
    Stats.SquareNonNegative(u);
    Stats.SquareNonNegative(p);
    PositiveScale(d, p * p);
    PositiveScale(n, v);
    if v == 0.0 {
      assert d * (p * p) == 0.0;
      ZeroProduct(d, p * p);
      ZeroProduct(p, p);
      ZeroProduct(u, u);
      ZeroProduct(n, q);
    }
  }

  lemma PositiveScale(x: real, y: real)
    requires x > 0.0
    ensures y >= 0.0 <==> x * y >= 0.0
  {
    if y < 0.0 {
      assert x * (-y) > 0.0;
    }
  }

  lemma ZeroProduct(x: real, y: real)
    requires x * y == 0.0
    ensures x == 0.0 || y == 0.0
  {
    if x != 0.0 {
      assert y == x * y / x;
    }
  }

  /**
   * No line has a smaller sum of squared residuals than the fitted one, and
   * any line with the same sum is the fitted one.
   */
  lemma FitIsLeastSquares(ys: seq<real>, c: Line)
    requires |ys| >= 2
    ensures SquaredError(ys, Fit(ys)) <= SquaredError(ys, c)
    ensures SquaredError(ys, Fit(ys)) == SquaredError(ys, c) ==> c == Fit(ys)
  {
    var t, f := Totals(ys), Fit(ys);
    DetPositive(ys);
    SolveIffNormal(t, f);
    ErrorAboveNormal(t, SquareSum(ys), f, c);
    SquaredErrorExpanded(ys, f);
    SquaredErrorExpanded(ys, c);
  }

  /** Points on a line give back that line. */
  lemma FitOfLine(ys: seq<real>, l: Line)
    requires |ys| >= 2
    requires forall i :: 0 <= i < |ys| ==> ys[i] == l.At(i as real)
    ensures Fit(ys) == l
  {
    ExactResiduals(ys, l);
    NormalIsFit(ys, l);
  }

  lemma {:induction false} ExactResiduals(ys: seq<real>, l: Line)
    requires forall i :: 0 <= i < |ys| ==> ys[i] == l.At(i as real)
    ensures Residual(ys, l) == 0.0 && WeightedResidual(ys, l) == 0.0
  {
    if |ys| > 0 {
      var rest := ys[1..];
      forall i | 0 <= i < |rest|
        ensures rest[i] == l.Shift().At(i as real)
      {
        assert rest[i] == ys[i + 1];
        ShiftAt(l, i as real, (i + 1) as real);
      }
      ExactResiduals(rest, l.Shift());
    }
  }

  /** The prices 100, 102, 104, 106, 108 fit slope 2 and intercept 100. */
  lemma FitExample(ys: seq<real>)
    requires ys == [100.0, 102.0, 104.0, 106.0, 108.0]
    ensures Fit(ys) == Line(2.0, 100.0)
  {
    FitOfLine(ys, Line(2.0, 100.0));
  }
}
