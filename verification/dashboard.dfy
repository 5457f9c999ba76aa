/**
 * The dashboard's data logic: the table it loads, the per-state price
 * ranking behind the state comparison chart, and the seven-day linear price
 * forecast behind the prediction chart. Figures and layout are left out;
 * each callback's result is the data its figure would show.
 */
module Dashboard {
  import opened Wrappers
  import opened Records
  import Sorting
  import Seqs
  import Text
  import Stats
  import Ranking
  import Regression

  /** One row of the featured table as the dashboard reads it. */
  datatype DashRow = DashRow(
    commodity: string,
    state: Option<string>,
    date: Option<int>,
    modalPrice: Option<real>)

  /** A row that survived the load filter: both its date and its price are present. */
  datatype Point = Point(commodity: string, state: Option<string>, date: int, price: real)

  // ---------------------------------------------------------------------
  // Loading

  /** The only row a point can come from: the same fields, date and price present. */
  function Source(p: Point): (row: DashRow)
    ensures row.date.Some? && row.modalPrice.Some?
  {
    DashRow(p.commodity, p.state, Some(p.date), Some(p.price))
  }

  /**
   * The load filter: the rows with both a date and a price, in table order,
   * each as often as it occurs in the table.
   */
  function Present(rows: seq<DashRow>): (r: seq<Point>)
    ensures |r| <= |rows|
    ensures forall p :: p in r <==>
      exists row :: row in rows && row.date == Some(p.date) && row.modalPrice == Some(p.price)
        && row.commodity == p.commodity && row.state == p.state
  {
    if |rows| == 0 then []
    else
      var rest := Present(rows[1..]);
      var row := rows[0];
      assert forall x :: x in rows <==> x == row || x in rows[1..];
      if row.date.Some? && row.modalPrice.Some? then
        [Point(row.commodity, row.state, row.date.value, row.modalPrice.value)] + rest
      else rest
  }

  predicate HasDateAndPrice(row: DashRow) {
    row.date.Some? && row.modalPrice.Some?
  }

  /** The point a row with a date and a price becomes. */
  function ToPoint(row: DashRow): (p: Point)
    requires HasDateAndPrice(row)
    ensures Source(p) == row
  {
    Point(row.commodity, row.state, row.date.value, row.modalPrice.value)
  }

  /** `r` holds the point of each row of `kept`, one per row and in order. */
  predicate PointsOf(r: seq<Point>, kept: seq<DashRow>)
    requires forall i :: 0 <= i < |kept| ==> HasDateAndPrice(kept[i])
  {
    |r| == |kept| && forall i :: 0 <= i < |r| ==> r[i] == ToPoint(kept[i])
  }

  lemma PointsCons(row: DashRow, kept: seq<DashRow>, r: seq<Point>)
    requires HasDateAndPrice(row) && forall i :: 0 <= i < |kept| ==> HasDateAndPrice(kept[i])
    requires PointsOf(r, kept)
    ensures PointsOf([ToPoint(row)] + r, [row] + kept)
  {
  }

  /**
   * The loaded points are those of the rows with a date and a price, one
   * per row and in table order; with Seqs.Filter's contract this fixes the
   * order the sort starts from.
   */
  lemma {:induction false} PresentIsImage(rows: seq<DashRow>)
    ensures PointsOf(Present(rows), Seqs.Filter(rows, HasDateAndPrice))
  {
    if |rows| > 0 {
      PresentIsImage(rows[1..]);
      Seqs.FilterStep(rows, HasDateAndPrice);
      if HasDateAndPrice(rows[0]) {
        PointsCons(rows[0], Seqs.Filter(rows[1..], HasDateAndPrice), Present(rows[1..]));
      }
    }
  }

  /** A point is loaded as often as its source row occurs in the table. */
  lemma {:induction false} PresentCounts(rows: seq<DashRow>, p: Point)
    ensures multiset(Present(rows))[p] == multiset(rows)[Source(p)]
  {
    if |rows| > 0 {
      var row := rows[0];
      PresentCounts(rows[1..], p);
      Seqs.CountStep(rows, Source(p));
      if row.date.Some? && row.modalPrice.Some? {
        Seqs.ConsCount(Point(row.commodity, row.state, row.date.value, row.modalPrice.value), Present(rows[1..]), p);
      }
    }
  }

  /** Ascending by commodity, then by date. */
  predicate PointLe(a: Point, b: Point) {
    KeyLe(a.commodity, Some(a.date), b.commodity, Some(b.date))
  }

  lemma PointLeIsTotalPreorder()
    ensures Sorting.TotalPreorder(PointLe)
  {
    forall a: Point, b: Point
      ensures PointLe(a, b) || PointLe(b, a)
    {
      KeyLeTotal(a.commodity, Some(a.date), b.commodity, Some(b.date));
    }
    forall a: Point, b: Point, c: Point | PointLe(a, b) && PointLe(b, c)
      ensures PointLe(a, c)
    {
      KeyLeTransitive(a.commodity, Some(a.date), b.commodity, Some(b.date), c.commodity, Some(c.date));
    }
  }

  /**
   * The table the dashboard works on: the rows with a date and a price,
   * sorted by commodity and then date. Nothing else is added or lost.
   */
  function Load(rows: seq<DashRow>): (df: seq<Point>)
    ensures multiset(df) == multiset(Present(rows))
    ensures Sorting.SortedBy(df, PointLe)
  {
    PointLeIsTotalPreorder();
    Sorting.Sort(Present(rows), PointLe)
  }

  /**
   * The load sort is stable: points of the same commodity and date keep the
   * order of the table, so a day's repeated prices reach the forecast in it.
   */
  lemma LoadStable(rows: seq<DashRow>, key: Point)
    ensures Sorting.Class(Load(rows), PointLe, key) == Sorting.Class(Present(rows), PointLe, key)
  {
    PointLeIsTotalPreorder();
    Sorting.SortStable(Present(rows), PointLe, key);
  }

  /** A row appears in the loaded table exactly when it had a date and a price. */
  lemma LoadKeepsExactlyPresent(rows: seq<DashRow>, p: Point)
    ensures p in Load(rows) <==>
      exists row :: row in rows && row.date == Some(p.date) && row.modalPrice == Some(p.price)
        && row.commodity == p.commodity && row.state == p.state
  {
    assert p in Load(rows) <==> p in multiset(Load(rows));
    assert p in Present(rows) <==> p in multiset(Present(rows));
  }

  /** The rows of commodity `c`, in table order, each as often as in the table. */
  function RowsOf(df: seq<Point>, c: string): (r: seq<Point>)
    ensures |r| <= |df|
    ensures Seqs.IsSubsequence(r, df)
    ensures forall p :: p in r <==> p in df && p.commodity == c
  {
    if |df| == 0 then []
    else
      var rest := RowsOf(df[1..], c);
      assert forall x :: x in df <==> x == df[0] || x in df[1..];
      if df[0].commodity == c then [df[0]] + rest else rest
  }

  /** Each row of commodity `c` is selected as often as it occurs in the table. */
  lemma {:induction false} RowsOfCounts(df: seq<Point>, c: string, p: Point)
    ensures multiset(RowsOf(df, c))[p] == if p.commodity == c then multiset(df)[p] else 0
  {
    if |df| > 0 {
      RowsOfCounts(df[1..], c, p);
      Seqs.CountStep(df, p);
      if df[0].commodity == c {
        Seqs.ConsCount(df[0], RowsOf(df[1..], c), p);
      }
    }
  }

  /** Dates never decrease along `w`. */
  predicate DatesInOrder(w: seq<Point>) {
    forall i, j :: 0 <= i < j < |w| ==> w[i].date <= w[j].date
  }

  /** In the loaded table one commodity's rows are in date order. */
  lemma {:induction false} RowsOfSorted(df: seq<Point>, c: string)
    requires Sorting.SortedBy(df, PointLe)
    ensures DatesInOrder(RowsOf(df, c))
  {
    if |df| > 0 {
      assert Sorting.SortedBy(df[1..], PointLe);
      RowsOfSorted(df[1..], c);
      if df[0].commodity == c {
        HeadBeforeRest(df, c);
        ConsInOrder(df[0], RowsOf(df[1..], c));
      }
    }
  }

  /** The first row of a sorted table sorts before every later row of its commodity. */
  lemma HeadBeforeRest(df: seq<Point>, c: string)
    requires Sorting.SortedBy(df, PointLe) && |df| > 0 && df[0].commodity == c
    ensures forall q :: q in RowsOf(df[1..], c) ==> df[0].date <= q.date
  {
    forall q | q in RowsOf(df[1..], c)
      ensures df[0].date <= q.date
    {
      var k :| 0 <= k < |df[1..]| && df[1..][k] == q;
      assert PointLe(df[0], df[k + 1]);
      SameCommodityDateLe(df[0], q);
    }
  }

  lemma ConsInOrder(p: Point, w: seq<Point>)
    requires DatesInOrder(w)
    requires forall q :: q in w ==> p.date <= q.date
    ensures DatesInOrder([p] + w)
  {
    var r := [p] + w;
    forall i, j | 0 <= i < j < |r|
      ensures r[i].date <= r[j].date
    {
      assert r[j] == w[j - 1];
      if i > 0 {
        assert r[i] == w[i - 1];
      } else {
        assert w[j - 1] in w;
      }
    }
  }

  /** The last rows of a date-ordered series are in date order. */
  lemma LastInOrder(rows: seq<Point>, n: nat)
    requires DatesInOrder(rows)
    ensures DatesInOrder(Seqs.Last(rows, n))
  {
    var w := Seqs.Last(rows, n);
    var a := |rows| - |w|;
    forall i, j | 0 <= i < j < |w|
      ensures w[i].date <= w[j].date
    {
      DateOrderAt(rows, a + i, a + j);
    }
  }

  lemma DateOrderAt(rows: seq<Point>, i: int, j: int)
    requires DatesInOrder(rows) && 0 <= i < j < |rows|
    ensures rows[i].date <= rows[j].date
  {
  }

  lemma SameCommodityDateLe(a: Point, b: Point)
    requires a.commodity == b.commodity && PointLe(a, b)
    ensures a.date <= b.date
  {
    Text.LessIrreflexive(a.commodity);
  }

  // ---------------------------------------------------------------------
  // State comparison

  /** How many states the comparison chart lists. */
  const StateCount: nat := 12

  predicate NamesState(p: Point) {
    p.state.Some?
  }

  /** The (state, price) pairs of a commodity's rows that name a state. */
  function StatePrices(rows: seq<Point>): (r: seq<Ranking.Obs>)
    ensures |r| <= |rows|
    ensures forall o :: o in r <==>
      exists p :: p in rows && p.state.Some? && o == Ranking.Obs(p.state.value, p.price)
  {
    if |rows| == 0 then []
    else
      var rest := StatePrices(rows[1..]);
      assert forall x :: x in rows <==> x == rows[0] || x in rows[1..];
      match rows[0].state
      case None => rest
      case Some(s) => [Ranking.Obs(s, rows[0].price)] + rest
  }

  /**
   * The pairs are those of the rows that name a state, one per row and in
   * table order; with Seqs.Filter's contract this fixes how often each
   * (state, price) pair enters its state's mean.
   */
  lemma {:induction false} StatePricesArePairs(rows: seq<Point>)
    ensures PairsOf(StatePrices(rows), Seqs.Filter(rows, NamesState))
  {
    if |rows| > 0 {
      StatePricesArePairs(rows[1..]);
      Seqs.FilterStep(rows, NamesState);
      if rows[0].state.Some? {
        PairsCons(rows[0], Seqs.Filter(rows[1..], NamesState), StatePrices(rows[1..]));
      }
    }
  }

  /** The pairs of `named`, one per row, in order. */
  predicate PairsOf(r: seq<Ranking.Obs>, named: seq<Point>)
    requires forall i :: 0 <= i < |named| ==> named[i].state.Some?
  {
    |r| == |named|
    && forall i :: 0 <= i < |r| ==> r[i] == Ranking.Obs(named[i].state.value, named[i].price)
  }

  lemma PairsCons(p: Point, named: seq<Point>, r: seq<Ranking.Obs>)
    requires p.state.Some? && forall i :: 0 <= i < |named| ==> named[i].state.Some?
    requires PairsOf(r, named)
    ensures PairsOf([Ranking.Obs(p.state.value, p.price)] + r, [p] + named)
  {
  }

  /**
   * The state comparison chart: the mean price of each state over the
   * selected commodity's rows, highest first, the first twelve; None when
   * the table is empty or no commodity is selected.
   */
  function StateComparison(df: seq<Point>, selected: Option<string>): (r: Option<seq<Ranking.Entry>>)
    ensures r.None? <==> |df| == 0 || selected.None? || selected.value == ""
    ensures r.Some? ==> Ranking.Ranks(r.value, StatePrices(RowsOf(df, selected.value)), StateCount)
  {
    if |df| == 0 || selected.None? || selected.value == "" then None
    else Some(Ranking.Top(StatePrices(RowsOf(df, selected.value)), StateCount))
  }

  // ---------------------------------------------------------------------
  // Price forecast

  /** How many of a commodity's latest rows the trend is fitted to. */
  const WindowSize: nat := 30
  /** How many days ahead the forecast reaches. */
  const Horizon: nat := 7

  /** One forecast point: a day number and a price. */
  datatype Prediction = Prediction(date: int, price: real)

  /** What the prediction chart shows, by the branch the callback takes. */
  datatype Forecast =
    | NoData
    | InsufficientData
    | NoRecentData
    | InsufficientPrices
    | Predicted(window: seq<Point>, trend: Regression.Line, points: seq<Prediction>)

  /** The latest date of a non-empty window. */
  function MaxDate(w: seq<Point>): (d: int)
    requires |w| > 0
    ensures exists p :: p in w && p.date == d
    ensures forall p :: p in w ==> p.date <= d
  {
    if |w| == 1 then w[0].date
    else
      var rest := MaxDate(w[1..]);
      assert forall x :: x in w <==> x == w[0] || x in w[1..];
      if w[0].date >= rest then w[0].date else rest
  }

  /** A window in date order ends on its latest date. */
  lemma SortedMaxIsLast(w: seq<Point>)
    requires |w| > 0
    requires DatesInOrder(w)
    ensures MaxDate(w) == w[|w| - 1].date
  {
    assert w[|w| - 1] in w;
    var p :| p in w && p.date == MaxDate(w);
    var k :| 0 <= k < |w| && w[k] == p;
    if k < |w| - 1 {
      assert w[k].date <= w[|w| - 1].date;
    }
  }

  /** The window's prices in window order; every loaded row has one, so none is dropped. */
  function Prices(w: seq<Point>): (ys: seq<real>)
    ensures |ys| == |w|
    ensures forall i :: 0 <= i < |w| ==> ys[i] == w[i].price
  {
    seq(|w|, i requires 0 <= i < |w| => w[i].price)
  }

  function Max0(x: real): (r: real)
    ensures r >= 0.0 && r >= x
    ensures r == x || r == 0.0
  {
    if x >= 0.0 then x else 0.0
  }

  /**
   * Seven points on consecutive days after `last`: point i (from 0) is dated
   * last + i + 1 and priced at the trend's value at position first + i,
   * floored at 0.
   */
  function PointsFrom(trend: Regression.Line, first: real, last: int): (ps: seq<Prediction>)
    ensures |ps| == Horizon
    ensures forall i :: 0 <= i < Horizon ==>
      ps[i] == Prediction(last + i + 1, Max0(trend.At(first + i as real)))
  {
    seq(Horizon, i requires 0 <= i < Horizon => Prediction(last + i + 1, Max0(trend.At(first + i as real))))
  }

  /**
   * The forecast as the callback computes it: for i = 1 .. 7 the price is
   * the trend at position m + i, where the window's m prices sit at
   * positions 0 .. m - 1.
   */
  function AsWrittenPoints(trend: Regression.Line, m: nat, last: int): (ps: seq<Prediction>)
    ensures |ps| == Horizon
    ensures forall i :: 0 <= i < Horizon ==>
      ps[i] == Prediction(last + i + 1, Max0(trend.At((m + 1 + i) as real)))
  {
    PointsFrom(trend, (m + 1) as real, last)
  }

  /**
   * The forecast the dates call for: the day after the last observation is
   * position m, so the price for day last + i is the trend at m - 1 + i.
   */
  function IntendedPoints(trend: Regression.Line, m: nat, last: int): (ps: seq<Prediction>)
    ensures |ps| == Horizon
    ensures forall i :: 0 <= i < Horizon ==>
      ps[i] == Prediction(last + i + 1, Max0(trend.At((m + i) as real)))
  {
    PointsFrom(trend, m as real, last)
  }

  /**
   * The fitted branch of `update_prediction`: the line through the window's
   * prices and seven predictions dated after the window's latest date, each
   * read off the line at the position that date takes after the window
   * (the callback itself reads one position further; see AsWrittenPoints).
   */
  function Predict(window: seq<Point>): (r: Forecast)
    requires |window| >= 2
    ensures r.Predicted? && r.window == window
    ensures r.trend == Regression.Fit(Prices(window))
    ensures |r.points| == Horizon
    ensures forall i :: 0 <= i < Horizon ==>
      r.points[i] == Prediction(MaxDate(window) + i + 1, Max0(r.trend.At((|window| + i) as real)))
    ensures forall i :: 0 <= i < Horizon ==> r.points[i].price >= 0.0
    ensures forall p :: p in window ==> p.date < r.points[0].date
    ensures forall i :: 0 <= i < Horizon - 1 ==> r.points[i + 1].date == r.points[i].date + 1
  {
    var last := MaxDate(window);
    var trend := Regression.Fit(Prices(window));
    Predicted(window, trend, IntendedPoints(trend, |window|, last))
  }

  /**
   * `update_prediction`: the last 30 rows of the selected commodity, the
   * least-squares line through their prices and seven floored predictions.
   */
  function UpdatePrediction(df: seq<Point>, selected: Option<string>): (r: Forecast)
    ensures r == NoData <==> |df| == 0 || selected.None? || selected.value == ""
    ensures r == InsufficientData <==>
      !(|df| == 0 || selected.None? || selected.value == "") && |RowsOf(df, selected.value)| < 2
    ensures !r.NoRecentData? && !r.InsufficientPrices?
    ensures r.Predicted? ==>
      var rows := RowsOf(df, selected.value);
      && r.window == Seqs.Last(rows, WindowSize)
      && 2 <= |r.window| <= WindowSize
      && r == Predict(r.window)
      && (|rows| >= WindowSize ==> |r.window| == WindowSize)
      && (forall p :: p in r.window ==> p in df && p.commodity == selected.value)
  {
    if |df| == 0 || selected.None? || selected.value == "" then NoData
    else
      var rows := RowsOf(df, selected.value);
      if |rows| < 2 then InsufficientData
      else
        var window := Seqs.Last(rows, WindowSize);
        if |window| == 0 then NoRecentData
        else if |Prices(window)| < 2 then InsufficientPrices
        else Predict(window)
  }

  /** The trend is the least-squares line through the window's prices. */
  lemma PredictionIsLeastSquares(df: seq<Point>, selected: Option<string>, c: Regression.Line)
    requires UpdatePrediction(df, selected).Predicted?
    ensures var r := UpdatePrediction(df, selected);
      |Prices(r.window)| >= 2
      && Regression.SquaredError(Prices(r.window), r.trend) <= Regression.SquaredError(Prices(r.window), c)
      && (Regression.SquaredError(Prices(r.window), r.trend) == Regression.SquaredError(Prices(r.window), c)
          ==> c == r.trend)
  {
    var r := UpdatePrediction(df, selected);
    Regression.FitIsLeastSquares(Prices(r.window), c);
  }

  /**
   * The loaded table is sorted by commodity and date, so the forecast starts
   * the day after the window's last row.
   */
  lemma ForecastStartsAfterLastRow(df: seq<Point>, selected: Option<string>)
    requires Sorting.SortedBy(df, PointLe)
    requires UpdatePrediction(df, selected).Predicted?
    ensures var r := UpdatePrediction(df, selected);
      r.points[0].date == r.window[|r.window| - 1].date + 1
  {
    var r := UpdatePrediction(df, selected);
    RowsOfSorted(df, selected.value);
    WindowStartsAfterLast(RowsOf(df, selected.value), r);
  }

  /** A forecast over the last rows of a date-ordered series starts after them. */
  lemma WindowStartsAfterLast(rows: seq<Point>, r: Forecast)
    requires DatesInOrder(rows)
    requires r.Predicted? && r.window == Seqs.Last(rows, WindowSize) && |r.window| >= 2
    requires r == Predict(r.window)
    ensures r.points[0].date == r.window[|r.window| - 1].date + 1
  {
    LastInOrder(rows, WindowSize);
    PredictStartsAfterLast(r.window);
  }

  /** The table as loaded meets the order the forecast relies on. */
  lemma LoadedForecastStartsAfterLastRow(rows: seq<DashRow>, selected: Option<string>)
    requires UpdatePrediction(Load(rows), selected).Predicted?
    ensures var r := UpdatePrediction(Load(rows), selected);
      r.points[0].date == r.window[|r.window| - 1].date + 1
  {
    var df := Load(rows);
    assert Sorting.SortedBy(df, PointLe);
    ForecastStartsAfterLastRow(df, selected);
  }

  /** A date-ordered window is forecast from the day after its last row. */
  lemma PredictStartsAfterLast(window: seq<Point>)
    requires |window| >= 2 && DatesInOrder(window)
    ensures Predict(window).points[0].date == window[|window| - 1].date + 1
  {
    SortedMaxIsLast(window);
  }

  /**
   * Prices on a line come back as that line, so the as-written forecast
   * skips position m: on 100, 102, 104, 106, 108 it starts at 112 where the
   * first forecast day lies at 110.
   */
  lemma AsWrittenSkipsOneDay(ys: seq<real>)
    requires ys == [100.0, 102.0, 104.0, 106.0, 108.0]
    ensures AsWrittenPoints(Regression.Fit(ys), |ys|, 0)[0].price == 112.0
    ensures Regression.Line(2.0, 100.0).At(|ys| as real) == 110.0
  {
    Regression.FitExample(ys);
  }

  /**
   * With the intended positions, prices on a line are forecast exactly: the
   * price for day last + i + 1 is the line's value there, when that value is
   * not negative.
   */
  lemma IntendedContinuesLine(ys: seq<real>, l: Regression.Line, last: int, i: nat)
    requires |ys| >= 2
    requires forall k :: 0 <= k < |ys| ==> ys[k] == l.At(k as real)
    requires i < Horizon && l.At((|ys| + i) as real) >= 0.0
    ensures IntendedPoints(Regression.Fit(ys), |ys|, last)[i]
      == Prediction(last + i + 1, l.At((|ys| + i) as real))
  {
    Regression.FitOfLine(ys, l);
    assert |ys| as real + i as real == (|ys| + i) as real;
  }

  /**
   * A window whose prices lie on a line is forecast along that line: the
   * price for the i-th day after the window is the line's value at position
   * |window| + i, when that value is not negative.
   */
  lemma PredictOfLine(window: seq<Point>, l: Regression.Line, i: nat)
    requires |window| >= 2
    requires forall k :: 0 <= k < |window| ==> window[k].price == l.At(k as real)
    requires i < Horizon && l.At((|window| + i) as real) >= 0.0
    ensures Predict(window).points[i].price == l.At((|window| + i) as real)
  {
    IntendedContinuesLine(Prices(window), l, MaxDate(window), i);
  }

  /** The intended forecast of 100, 102, 104, 106, 108 starts at 110. */
  lemma IntendedExample(ys: seq<real>)
    requires ys == [100.0, 102.0, 104.0, 106.0, 108.0]
    ensures IntendedPoints(Regression.Fit(ys), |ys|, 0)[0].price == 110.0
  {
    Regression.FitExample(ys);
  }

  // ---------------------------------------------------------------------
  // The forecast as the callback computes it

  /**
   * The fitted branch with the callback's own positions: the same window,
   * line and dates as Predict, but the price for the i-th day after the
   * window is read one position further along the line, so each price is
   * the one Predict gives the following day.
   */
  function PredictAsWritten(window: seq<Point>): (r: Forecast)
    requires |window| >= 2
    ensures r.Predicted? && r.window == window && r.trend == Predict(window).trend
    ensures |r.points| == Horizon
    ensures forall i :: 0 <= i < Horizon ==> r.points[i].date == Predict(window).points[i].date
    ensures forall i :: 0 <= i < Horizon - 1 ==> r.points[i].price == Predict(window).points[i + 1].price
    ensures r.points[Horizon - 1].price == Max0(r.trend.At((|window| + Horizon) as real))
  {
    var p := Predict(window);
    AsWrittenShift(p.trend, |window|, MaxDate(window), p.points);
    Predicted(window, p.trend, AsWrittenPoints(p.trend, |window|, MaxDate(window)))
  }

  /** The callback's positions are the corrected ones moved on by one day. */
  lemma AsWrittenShift(trend: Regression.Line, m: nat, last: int, ps: seq<Prediction>)
    requires ps == IntendedPoints(trend, m, last)
    ensures var qs := AsWrittenPoints(trend, m, last);
      && (forall i :: 0 <= i < Horizon ==> qs[i].date == ps[i].date)
      && (forall i :: 0 <= i < Horizon - 1 ==> qs[i].price == ps[i + 1].price)
      && qs[Horizon - 1].price == Max0(trend.At((m + Horizon) as real))
  {
    var qs := AsWrittenPoints(trend, m, last);
    forall i | 0 <= i < Horizon - 1
      ensures qs[i].price == ps[i + 1].price
    {
      assert (m + 1 + i) as real == (m + (i + 1)) as real;
    }
  }

  /**
   * The prediction callback with the callback's own positions: every branch
   * as in UpdatePrediction, and in the fitted branch the same window, line
   * and dates, with the price for each day the price UpdatePrediction gives
   * the day after it and the seventh read at position m + 7.
   */
  function UpdatePredictionAsWritten(df: seq<Point>, selected: Option<string>): (r: Forecast)
    ensures r.Predicted? <==> UpdatePrediction(df, selected).Predicted?
    ensures !r.Predicted? ==> r == UpdatePrediction(df, selected)
    ensures r.Predicted? ==> 2 <= |r.window| && r == PredictAsWritten(r.window)
    ensures r.Predicted? ==>
      var u := UpdatePrediction(df, selected);
      && r.window == u.window && r.trend == u.trend && |r.points| == Horizon
      && (forall i :: 0 <= i < Horizon ==> r.points[i].date == u.points[i].date)
      && (forall i :: 0 <= i < Horizon - 1 ==> r.points[i].price == u.points[i + 1].price)
      && r.points[Horizon - 1].price == Max0(r.trend.At((|r.window| + Horizon) as real))
  {
    AsWrittenOf(UpdatePrediction(df, selected))
  }

  /**
   * A corrected outcome turned into the callback's: other outcomes pass
   * through, a forecast is refitted with the callback's positions.
   */
  function AsWrittenOf(u: Forecast): (r: Forecast)
    requires u.Predicted? ==> 2 <= |u.window| && u == Predict(u.window)
    ensures r.Predicted? <==> u.Predicted?
    ensures !r.Predicted? ==> r == u
    ensures r.Predicted? ==> 2 <= |r.window| && r == PredictAsWritten(r.window)
    ensures r.Predicted? ==>
      && r.window == u.window && r.trend == u.trend && |r.points| == Horizon
      && (forall i :: 0 <= i < Horizon ==> r.points[i].date == u.points[i].date)
      && (forall i :: 0 <= i < Horizon - 1 ==> r.points[i].price == u.points[i + 1].price)
      && r.points[Horizon - 1].price == Max0(r.trend.At((|r.window| + Horizon) as real))
  {
    if u.Predicted? then PredictAsWritten(u.window) else u
  }

  /**
   * The callback as written, on a window whose prices lie on a line: the
   * price for the i-th day after the window is the line's value at position
   * |window| + i + 1, one day beyond the day it is shown for.
   */
  lemma AsWrittenOfLine(window: seq<Point>, l: Regression.Line, i: nat)
    requires |window| >= 2
    requires forall k :: 0 <= k < |window| ==> window[k].price == l.At(k as real)
    requires i < Horizon && l.At((|window| + i + 1) as real) >= 0.0
    ensures PredictAsWritten(window).points[i].price == l.At((|window| + i + 1) as real)
  {
    Regression.FitOfLine(Prices(window), l);
    assert (|window| + 1) as real + i as real == (|window| + i + 1) as real;
  }
}
