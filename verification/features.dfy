/**
 * AgriSenseDataManager.create_features: sort by (commodity, date), then
 * derive for every row, from the prices of its own commodity up to and
 * including that row, the 7- and 30-row trailing means, the lag-1 percent
 * change, the 30-row sample standard deviation, the deviations from the two
 * means, the calendar fields and a three-way trend label.
 *
 * The standard deviation goes through `Stats.Sqrt`, which is ghost, so the
 * functions that produce feature records are ghost too.
 */
module Features {
  import opened Wrappers
  import opened Records
  import Stats
  import Seqs
  import Sorting
  import Calendar

  const ShortWindow: nat := 7
  const LongWindow: nat := 30
  /** A change above this many percent is Rising, below its negation Falling. */
  const TrendThreshold: real := 2.0

  predicate Positive(g: seq<real>) {
    forall k :: 0 <= k < |g| ==> g[k] > 0.0
  }

  predicate PositivePrices(rows: seq<PriceRecord>) {
    forall r :: r in rows ==> r.modalPrice > 0.0
  }

  // ---------------------------------------------------------------------
  // One commodity's price series (its group when the table is grouped by commodity)

  /** The prices of the rows of commodity `c`, in table order. */
  function GroupPrices(rows: seq<PriceRecord>, c: string): (ps: seq<real>)
    ensures |ps| <= |rows|
    ensures PositivePrices(rows) ==> Positive(ps)
  {
    if |rows| == 0 then []
    else
      var last := rows[|rows| - 1];
      var front := rows[..|rows| - 1];
      assert forall r :: r in front ==> r in rows;
      GroupPrices(front, c) + (if last.commodity == c then [last.modalPrice] else [])
  }

  /** The position of row `i` within its commodity's series. */
  function GroupIndex(rows: seq<PriceRecord>, i: nat): nat
    requires i < |rows|
  {
    |GroupPrices(rows[..i], rows[i].commodity)|
  }

  /** The prices of row `i`'s commodity up to and including row `i`. */
  function History(rows: seq<PriceRecord>, i: nat): (h: seq<real>)
    requires i < |rows|
    ensures |h| == GroupIndex(rows, i) + 1
    ensures h[|h| - 1] == rows[i].modalPrice
    ensures PositivePrices(rows) ==> Positive(h)
  {
    assert rows[..i + 1][..i] == rows[..i];
    assert forall r :: r in rows[..i + 1] ==> r in rows;
    GroupPrices(rows[..i + 1], rows[i].commodity)
  }

  /** The series of a prefix of the table is a prefix of the whole series. */
  lemma {:induction false} GroupPricesPrefix(rows: seq<PriceRecord>, i: nat, c: string)
    requires i <= |rows|
    ensures var a, b := GroupPrices(rows[..i], c), GroupPrices(rows, c);
      |a| <= |b| && b[..|a|] == a
    decreases |rows| - i
  {
    if i < |rows| {
      var front := rows[..|rows| - 1];
      assert front[..i] == rows[..i];
      GroupPricesPrefix(front, i, c);
    } else {
      assert rows[..i] == rows;
    }
  }

  /**
   * Row `i`'s history is the first GroupIndex + 1 entries of its commodity's
   * whole series, the last of which is row `i`'s price.
   */
  lemma HistoryIsSeriesPrefix(rows: seq<PriceRecord>, i: nat)
    requires i < |rows|
    ensures var g, j := GroupPrices(rows, rows[i].commodity), GroupIndex(rows, i);
      j < |g| && g[j] == rows[i].modalPrice && History(rows, i) == g[..j + 1]
  {
    var h := History(rows, i);
    assert h == GroupPrices(rows[..i + 1], rows[i].commodity);
    GroupPricesPrefix(rows, i + 1, rows[i].commodity);
  }

  // ---------------------------------------------------------------------
  // Features of position `j` of a series `g`: what the per-commodity
  // transforms compute for one row

  /** The trailing window of width `w` at position `j`: shorter near the start of the series. */
  function Window(g: seq<real>, w: nat, j: nat): (win: seq<real>)
    requires j < |g| && w >= 1
    ensures |win| == if w < j + 1 then w else j + 1
    ensures win[|win| - 1] == g[j]
    ensures forall k :: 0 <= k < |win| ==> win[k] == g[j + 1 - |win| + k]
  {
    Seqs.Last(g[..j + 1], w)
  }

  /** The trailing average of width `w` at position `j`, over however many values the window has. */
  function RollingMean(g: seq<real>, w: nat, j: nat): (m: real)
    requires j < |g| && w >= 1
    ensures j == 0 ==> m == g[0]
    ensures Positive(g) ==> m > 0.0
  {
    var win := Window(g, w, j);
    if j == 0 then
      FirstWindow(g, w);
      Stats.MeanSingleton(g[0]);
      Stats.Mean(win)
    else if Positive(g) then
      WindowPositive(g, w, j);
      Stats.MeanPositive(win);
      Stats.Mean(win)
    else
      Stats.Mean(win)
  }

  /** At the first position the window holds the first price alone. */
  lemma FirstWindow(g: seq<real>, w: nat)
    requires 0 < |g| && w >= 1
    ensures Window(g, w, 0) == [g[0]]
  {
  }

  lemma WindowPositive(g: seq<real>, w: nat, j: nat)
    requires j < |g| && w >= 1 && Positive(g)
    ensures forall x :: x in Window(g, w, j) ==> x > 0.0
  {
    var win := Window(g, w, j);
    forall x | x in win
      ensures x > 0.0
    {
      var k :| 0 <= k < |win| && win[k] == x;
    }
  }

  /** A rolling mean lies between the smallest and largest price of its window. */
  lemma RollingMeanWithinWindow(g: seq<real>, w: nat, j: nat)
    requires j < |g| && w >= 1
    ensures Stats.Min(Window(g, w, j)) <= RollingMean(g, w, j) <= Stats.Max(Window(g, w, j))
  {
    Stats.MeanBounds(Window(g, w, j));
  }

  /** The percent change from the previous price of the series; 0 at the first position, which has none. */
  function PctChange(g: seq<real>, j: nat): (r: real)
    requires j < |g| && Positive(g)
    ensures j == 0 ==> r == 0.0
    ensures j > 0 ==> r * g[j - 1] == (g[j] - g[j - 1]) * 100.0
    ensures j > 0 ==> (r > 0.0 <==> g[j] > g[j - 1]) && (r < 0.0 <==> g[j] < g[j - 1])
  {
    if j == 0 then 0.0 else (g[j] - g[j - 1]) / g[j - 1] * 100.0
  }

  /**
   * The 30-row trailing volatility: the sample standard deviation of the
   * window, and 0 while the window has a single value (the missing value is
   * filled with 0).
   */
  ghost function RollingStd(g: seq<real>, j: nat): (r: real)
    requires j < |g|
    ensures r >= 0.0
    ensures j == 0 ==> r == 0.0
    ensures j > 0 ==> r == Stats.Sqrt(Stats.SampleVariance(Window(g, LongWindow, j)))
  {
    var win := Window(g, LongWindow, j);
    if |win| < 2 then 0.0 else Stats.Sqrt(Stats.SampleVariance(win))
  }

  /** A constant window has no volatility. */
  lemma FlatWindowHasNoVolatility(g: seq<real>, j: nat)
    requires j < |g|
    requires forall k :: 0 <= k <= j ==> g[k] == g[j]
    ensures RollingStd(g, j) == 0.0
  {
    var win := Window(g, LongWindow, j);
    if |win| >= 2 {
      forall x | x in win
        ensures x == win[0]
      {
        var k :| 0 <= k < |win| && win[k] == x;
      }
      Stats.ConstantHasZeroVariance(win);
    }
  }

  /** The percent by which the price `x` exceeds the average `avg`. */
  function Deviation(x: real, avg: real): (r: real)
    requires avg > 0.0
    ensures r * avg == (x - avg) * 100.0
    ensures r > 0.0 <==> x > avg
    ensures r == 0.0 <==> x == avg
  {
    (x - avg) / avg * 100.0
  }

  /** The three-way trend label of a percent change. */
  function Classify(pct: real): (t: Trend)
    ensures t == Rising <==> pct > TrendThreshold
    ensures t == Falling <==> pct < -TrendThreshold
    ensures t == Stable <==> -TrendThreshold <= pct <= TrendThreshold
  {
    if pct > TrendThreshold then Rising
    else if pct < -TrendThreshold then Falling
    else Stable
  }

  /** A calendar field of a date, NaN (None) for NaT. */
  function Field(date: Option<int>, f: int -> int): Option<int> {
    match date
    case None => None
    case Some(n) => Some(f(n))
  }

  /** The feature record of `p`, standing at position `j` of its series `g`. */
  ghost function SeriesFeatures(p: PriceRecord, g: seq<real>, j: nat): (f: FeatureRecord)
    requires j < |g| && Positive(g) && g[j] == p.modalPrice
    ensures f.record == p
    ensures f.trend == Classify(f.pctChange)
    ensures f.volatility >= 0.0
  {
    var avg7 := RollingMean(g, ShortWindow, j);
    var avg30 := RollingMean(g, LongWindow, j);
    var pct := PctChange(g, j);
    FeatureRecord(
      p, avg7, avg30, pct,
      Field(p.date, Calendar.Month), Field(p.date, Calendar.Quarter), Field(p.date, Calendar.DayOfYear),
      RollingStd(g, j),
      Deviation(p.modalPrice, avg7), Deviation(p.modalPrice, avg30),
      Classify(pct))
  }

  /** The features look back only: entries after position `j` do not matter. */
  lemma SeriesFeaturesTrailing(p: PriceRecord, g: seq<real>, j: nat, k: nat)
    requires j < k <= |g| && Positive(g) && g[j] == p.modalPrice
    ensures SeriesFeatures(p, g[..k], j) == SeriesFeatures(p, g, j)
  {
    var g' := g[..k];
    assert g'[..j + 1] == g[..j + 1];
    assert Window(g', ShortWindow, j) == Window(g, ShortWindow, j);
    assert Window(g', LongWindow, j) == Window(g, LongWindow, j);
    assert RollingMean(g', ShortWindow, j) == RollingMean(g, ShortWindow, j);
    assert RollingMean(g', LongWindow, j) == RollingMean(g, LongWindow, j);
    assert PctChange(g', j) == PctChange(g, j);
    assert RollingStd(g', j) == RollingStd(g, j);
  }

  /** The first entry of a series: both means are the price and nothing has moved. */
  lemma SeriesStart(p: PriceRecord, g: seq<real>)
    requires |g| > 0 && Positive(g) && g[0] == p.modalPrice
    ensures var f := SeriesFeatures(p, g, 0);
      && f.avg7 == p.modalPrice && f.avg30 == p.modalPrice
      && f.pctChange == 0.0 && f.volatility == 0.0
      && f.vsAvg7 == 0.0 && f.vsAvg30 == 0.0
      && f.trend == Stable
  {
  }

  // ---------------------------------------------------------------------
  // The table

  /** The features of row `i` of a table sorted by (commodity, date). */
  ghost function FeaturesAt(rows: seq<PriceRecord>, i: nat): (f: FeatureRecord)
    requires i < |rows| && PositivePrices(rows)
    ensures f.record == rows[i]
  {
    var h := History(rows, i);
    SeriesFeatures(rows[i], h, |h| - 1)
  }

  /**
   * The per-commodity transform: row `i`'s features are those of its
   * commodity's whole series at the row's position within it.
   */
  lemma FeaturesAtIsGroupTransform(rows: seq<PriceRecord>, i: nat)
    requires i < |rows| && PositivePrices(rows)
    ensures var g := GroupPrices(rows, rows[i].commodity);
      && GroupIndex(rows, i) < |g| && g[GroupIndex(rows, i)] == rows[i].modalPrice
      && FeaturesAt(rows, i) == SeriesFeatures(rows[i], g, GroupIndex(rows, i))
  {
    HistoryIsSeriesPrefix(rows, i);
    var g := GroupPrices(rows, rows[i].commodity);
    SeriesFeaturesTrailing(rows[i], g, GroupIndex(rows, i), GroupIndex(rows, i) + 1);
  }

  function RecordsOf(fs: seq<FeatureRecord>): (rs: seq<PriceRecord>)
    ensures |rs| == |fs|
    ensures forall i :: 0 <= i < |fs| ==> rs[i] == fs[i].record
  {
    if |fs| == 0 then [] else [fs[0].record] + RecordsOf(fs[1..])
  }

  /** Every feature column over a table already in (commodity, date) order. */
  ghost function FeatureTable(rows: seq<PriceRecord>): (r: seq<FeatureRecord>)
    requires PositivePrices(rows)
    ensures |r| == |rows| && RecordsOf(r) == rows
    ensures forall i :: 0 <= i < |r| ==> r[i] == FeaturesAt(rows, i)
  {
    var r := seq(|rows|, i requires 0 <= i < |rows| => FeaturesAt(rows, i));
    assert RecordsOf(r) == rows;
    r
  }

  lemma SortKeepsPrices(recs: seq<PriceRecord>)
    requires PositivePrices(recs)
    ensures PositivePrices(Sorting.Sort(recs, RecordLe))
  {
    var sorted := Sorting.Sort(recs, RecordLe);
    forall x | x in sorted
      ensures x.modalPrice > 0.0
    {
      assert x in multiset(sorted);
    }
  }

  /** The table sorted by commodity and then date, every row given its feature columns. */
  ghost function CreateFeatures(recs: seq<PriceRecord>): (r: seq<FeatureRecord>)
    requires PositivePrices(recs)
    ensures |r| == |recs|
    ensures multiset(RecordsOf(r)) == multiset(recs)
    ensures Sorting.SortedBy(RecordsOf(r), RecordLe)
    ensures PositivePrices(RecordsOf(r))
    ensures forall i :: 0 <= i < |r| ==> r[i] == FeaturesAt(RecordsOf(r), i)
  {
    RecordLeIsTotalPreorder();
    SortKeepsPrices(recs);
    FeatureTable(Sorting.Sort(recs, RecordLe))
  }

  /** Rows of the same (commodity, date) key keep their input order. */
  lemma CreateFeaturesStable(recs: seq<PriceRecord>, key: PriceRecord)
    requires PositivePrices(recs)
    ensures Sorting.Class(RecordsOf(CreateFeatures(recs)), RecordLe, key)
         == Sorting.Class(recs, RecordLe, key)
  {
    RecordLeIsTotalPreorder();
    Sorting.SortStable(recs, RecordLe, key);
  }

  /** A commodity absent from a table has an empty series. */
  lemma {:induction false} GroupPricesAbsent(rows: seq<PriceRecord>, c: string)
    requires forall k :: 0 <= k < |rows| ==> rows[k].commodity != c
    ensures GroupPrices(rows, c) == []
  {
    if |rows| > 0 {
      GroupPricesAbsent(rows[..|rows| - 1], c);
    }
  }

  /** Rows of other commodities add nothing to a series. */
  lemma {:induction false} GroupPricesSkip(rows: seq<PriceRecord>, k: nat, i: nat, c: string)
    requires k <= i <= |rows|
    requires forall m :: k <= m < i ==> rows[m].commodity != c
    ensures GroupPrices(rows[..i], c) == GroupPrices(rows[..k], c)
    decreases i - k
  {
    if k < i {
      GroupPricesSnoc(rows, i - 1, i, c);
      GroupPricesSkip(rows, k, i - 1, c);
    }
  }

  /** One more row of the table adds its price when it is of commodity `c`. */
  lemma GroupPricesSnoc(rows: seq<PriceRecord>, j: nat, i: nat, c: string)
    requires j + 1 == i <= |rows|
    ensures GroupPrices(rows[..i], c)
         == GroupPrices(rows[..j], c) + (if rows[j].commodity == c then [rows[j].modalPrice] else [])
  {
    assert rows[..i][..j] == rows[..j];
  }

  /**
   * At the first row of its commodity both averages equal the price, the
   * percent change, volatility and deviations are 0 and the trend is Stable.
   */
  lemma FirstRowOfCommodity(rows: seq<PriceRecord>, i: nat)
    requires i < |rows| && PositivePrices(rows)
    requires forall k :: 0 <= k < i ==> rows[k].commodity != rows[i].commodity
    ensures var f := FeaturesAt(rows, i);
      && f.avg7 == rows[i].modalPrice && f.avg30 == rows[i].modalPrice
      && f.pctChange == 0.0 && f.volatility == 0.0
      && f.vsAvg7 == 0.0 && f.vsAvg30 == 0.0
      && f.trend == Stable
  {
    GroupPricesAbsent(rows[..i], rows[i].commodity);
    SeriesStart(rows[i], History(rows, i));
  }

  lemma PctChangeOfLast(g: seq<real>, a: real, b: real)
    requires |g| >= 2 && Positive(g)
    requires g[|g| - 2] == a && g[|g| - 1] == b
    ensures PctChange(g, |g| - 1) == (b - a) / a * 100.0
  {
  }

  lemma HistoryExtends(rows: seq<PriceRecord>, k: nat, i: nat)
    requires k < i < |rows|
    requires rows[k].commodity == rows[i].commodity
    requires GroupPrices(rows[..i], rows[i].commodity) == GroupPrices(rows[..k + 1], rows[i].commodity)
    ensures History(rows, i) == History(rows, k) + [rows[i].modalPrice]
  {
    HistorySnoc(rows, i);
    HistoryAt(rows, k);
  }

  /** A row's history is the series before it with its own price added. */
  lemma HistorySnoc(rows: seq<PriceRecord>, i: nat)
    requires i < |rows|
    ensures History(rows, i) == GroupPrices(rows[..i], rows[i].commodity) + [rows[i].modalPrice]
  {
    GroupPricesSnoc(rows, i, i + 1, rows[i].commodity);
  }

  lemma HistoryAt(rows: seq<PriceRecord>, k: nat)
    requires k < |rows|
    ensures History(rows, k) == GroupPrices(rows[..k + 1], rows[k].commodity)
  {
  }

  /**
   * Away from the first row the percent change is measured against the
   * nearest earlier row of the same commodity, whatever lies in between.
   */
  lemma PctChangeAgainstPreviousRow(rows: seq<PriceRecord>, k: nat, i: nat)
    requires k < i < |rows| && PositivePrices(rows)
    requires rows[k].commodity == rows[i].commodity
    requires forall m :: k < m < i ==> rows[m].commodity != rows[i].commodity
    ensures FeaturesAt(rows, i).pctChange
         == (rows[i].modalPrice - rows[k].modalPrice) / rows[k].modalPrice * 100.0
  {
    var c := rows[i].commodity;
    GroupPricesSkip(rows, k + 1, i, c);
    HistoryExtends(rows, k, i);
    var g := History(rows, i);
    var a, b := rows[k].modalPrice, rows[i].modalPrice;
    assert g[|g| - 2] == a && g[|g| - 1] == b;
    PctChangeOfLast(g, a, b);
    FeaturePctIsHistoryPct(rows, i);
  }

  lemma FeaturePctIsHistoryPct(rows: seq<PriceRecord>, i: nat)
    requires i < |rows| && PositivePrices(rows)
    ensures FeaturesAt(rows, i).pctChange == PctChange(History(rows, i), |History(rows, i)| - 1)
  {
  }

  /**
   * Row `i`'s averages are means of the last min(7, j + 1) and min(30, j + 1)
   * prices of its commodity up to its own position `j`, and each lies
   * between the smallest and largest price of its window.
   */
  lemma AveragesOfRow(rows: seq<PriceRecord>, i: nat)
    requires i < |rows| && PositivePrices(rows)
    ensures var g, j := GroupPrices(rows, rows[i].commodity), GroupIndex(rows, i);
      var f := FeaturesAt(rows, i);
      && j < |g|
      && f.avg7 == Stats.Mean(Window(g, ShortWindow, j))
      && f.avg30 == Stats.Mean(Window(g, LongWindow, j))
      && Stats.Min(Window(g, ShortWindow, j)) <= f.avg7 <= Stats.Max(Window(g, ShortWindow, j))
      && Stats.Min(Window(g, LongWindow, j)) <= f.avg30 <= Stats.Max(Window(g, LongWindow, j))
  {
    FeaturesAtIsGroupTransform(rows, i);
    var g, j := GroupPrices(rows, rows[i].commodity), GroupIndex(rows, i);
    RollingMeanWithinWindow(g, ShortWindow, j);
    RollingMeanWithinWindow(g, LongWindow, j);
  }
}
