/**
 * AgriSenseDataManager.clean_commodity_data: drop incomplete rows, coerce
 * the modal price to a number, reject outliers by Tukey's interquartile
 * rule over the whole table, and normalise the `state` and `commodity`
 * labels. Rows are never added or reordered.
 */
module Cleaner {
  import opened Wrappers
  import opened Records
  import Text
  import Stats
  import Seqs

  /** Tukey's fence factor. */
  const Fence: real := 1.5

  // ---------------------------------------------------------------------
  // Step 1: rows missing the commodity, the market or the price are dropped

  predicate HasRequired(r: RawRow) {
    r.commodity.Some? && r.market.Some? && !r.price.Blank?
  }

  function DropMissing(rows: seq<RawRow>): (r: seq<RawRow>)
    ensures |r| <= |rows|
    ensures forall x :: x in r <==> x in rows && HasRequired(x)
    ensures Seqs.IsSubsequence(r, rows)
  {
    if |rows| == 0 then []
    else
      var rest := DropMissing(rows[1..]);
      assert forall x :: x in rows <==> x == rows[0] || x in rows[1..];
      if HasRequired(rows[0]) then [rows[0]] + rest else rest
  }

  /** Each complete row is kept as often as it occurs; no other row is kept. */
  lemma {:induction false} DropMissingCounts(rows: seq<RawRow>, x: RawRow)
    ensures multiset(DropMissing(rows))[x] == if HasRequired(x) then multiset(rows)[x] else 0
  {
    if |rows| > 0 {
      DropMissingCounts(rows[1..], x);
      Seqs.CountStep(rows, x);
      if HasRequired(rows[0]) {
        Seqs.ConsCount(rows[0], DropMissing(rows[1..]), x);
      }
    }
  }

  // ---------------------------------------------------------------------
  // Steps 2-3: the date arrives parsed (a day number or None); a modal price
  // that does not parse as a number becomes missing, and such rows are dropped

  /** A row that survives the first three steps. */
  predicate Usable(r: RawRow) {
    HasRequired(r) && r.modalPrice.Number?
  }

  /** The typed record of a usable row, before its labels are normalised. */
  function ToRecord(r: RawRow): (p: PriceRecord)
    requires Usable(r)
    ensures p.modalPrice == r.modalPrice.value && p.date == r.arrivalDate
  {
    PriceRecord(r.commodity.value, r.state, r.market.value, r.arrivalDate, r.modalPrice.value)
  }

  function CoercePrices(rows: seq<RawRow>): (r: seq<PriceRecord>)
    requires forall x :: x in rows ==> HasRequired(x)
    ensures |r| <= |rows|
    ensures forall x :: x in rows && Usable(x) ==> ToRecord(x) in r
  {
    if |rows| == 0 then []
    else
      var rest := CoercePrices(rows[1..]);
      assert forall x :: x in rows <==> x == rows[0] || x in rows[1..];
      if rows[0].modalPrice.Number? then [ToRecord(rows[0])] + rest else rest
  }

  // ---------------------------------------------------------------------
  // Step 4: outliers by the interquartile range

  function Prices(recs: seq<PriceRecord>): (ps: seq<real>)
    ensures |ps| == |recs|
    ensures forall i :: 0 <= i < |recs| ==> ps[i] == recs[i].modalPrice
  {
    if |recs| == 0 then [] else [recs[0].modalPrice] + Prices(recs[1..])
  }

  /** The acceptance interval [Q1 - 1.5 IQR, Q3 + 1.5 IQR]. */
  datatype Interval = Interval(lo: real, hi: real) {
    predicate Contains(x: real) { lo <= x <= hi }
  }

  function Q1(ps: seq<real>): real requires |ps| > 0 { Stats.Quantile(ps, 0.25) }
  function Q3(ps: seq<real>): real requires |ps| > 0 { Stats.Quantile(ps, 0.75) }

  /**
   * The interval outside which prices are rejected, or None when the step
   * is skipped: an empty table has NaN quartiles, and a non-positive IQR
   * fails the `IQR > 0` test.
   */
  function Fences(ps: seq<real>): (b: Option<Interval>)
    ensures b.Some? <==> |ps| > 0 && Q3(ps) - Q1(ps) > 0.0
    ensures b.Some? ==> b.value.lo < Q1(ps) <= Q3(ps) < b.value.hi
  {
    if |ps| == 0 then None
    else
      var q1, q3 := Q1(ps), Q3(ps);
      var iqr := q3 - q1;
      if iqr > 0.0 then Some(Interval(q1 - Fence * iqr, q3 + Fence * iqr)) else None
  }

  /** The quartiles are ordered, so an IQR that is not positive is zero. */
  lemma InterquartileRangeNonNegative(ps: seq<real>)
    requires |ps| > 0
    ensures Q3(ps) - Q1(ps) >= 0.0
  {
    Stats.QuantileMonotone(ps, 0.25, 0.75);
  }

  predicate Retained(p: PriceRecord, b: Option<Interval>) {
    b.None? || b.value.Contains(p.modalPrice)
  }

  function Within(recs: seq<PriceRecord>, b: Option<Interval>): (r: seq<PriceRecord>)
    ensures forall p :: p in r <==> p in recs && Retained(p, b)
    ensures Seqs.IsSubsequence(r, recs)
  {
    if |recs| == 0 then []
    else
      var rest := Within(recs[1..], b);
      assert forall x :: x in recs <==> x == recs[0] || x in recs[1..];
      if Retained(recs[0], b) then [recs[0]] + rest else rest
  }

  lemma {:induction false} WithinCounts(recs: seq<PriceRecord>, b: Option<Interval>, p: PriceRecord)
    ensures multiset(Within(recs, b))[p] == if Retained(p, b) then multiset(recs)[p] else 0
  {
    if |recs| > 0 {
      WithinCounts(recs[1..], b, p);
      Seqs.CountStep(recs, p);
      if Retained(recs[0], b) {
        Seqs.ConsCount(recs[0], Within(recs[1..], b), p);
      }
    }
  }

  /**
   * Drops every record outside the fences. With IQR > 0 exactly the
   * records inside [Q1 - 1.5 IQR, Q3 + 1.5 IQR] stay; otherwise all stay.
   */
  function RejectOutliers(recs: seq<PriceRecord>): (r: seq<PriceRecord>)
    ensures Seqs.IsSubsequence(r, recs)
    ensures Fences(Prices(recs)).None? ==> r == recs
    ensures Fences(Prices(recs)).Some? ==>
      var b := Fences(Prices(recs)).value;
      forall p :: p in r <==> p in recs && b.lo <= p.modalPrice <= b.hi
  {
    var b := Fences(Prices(recs));
    WithinNone(recs);
    Within(recs, b)
  }

  /**
   * A record inside the fences in force (all records, when the step is
   * skipped) is kept as often as it occurs; a record outside them is not kept.
   */
  lemma RejectOutliersCounts(recs: seq<PriceRecord>, p: PriceRecord)
    ensures multiset(RejectOutliers(recs))[p]
         == if Retained(p, Fences(Prices(recs))) then multiset(recs)[p] else 0
  {
    WithinCounts(recs, Fences(Prices(recs)), p);
  }

  lemma {:induction false} WithinNone(recs: seq<PriceRecord>)
    ensures Within(recs, None) == recs
  {
    if |recs| > 0 {
      WithinNone(recs[1..]);
    }
  }

  // ---------------------------------------------------------------------
  // Step 5: the state and commodity labels are stripped of surrounding
  // whitespace and then title-cased

  function NormalizeRecord(p: PriceRecord): (q: PriceRecord)
    ensures q.market == p.market && q.date == p.date && q.modalPrice == p.modalPrice
    ensures q.commodity == Text.Title(Text.Strip(p.commodity))
    ensures p.state.Some? ==> q.state == Some(Text.Title(Text.Strip(p.state.value)))
    ensures Text.Normalize(q.commodity) == q.commodity
    ensures q.state.Some? <==> p.state.Some?
    ensures q.state.Some? ==> Text.Normalize(q.state.value) == q.state.value
  {
    Text.NormalizeIdempotent(p.commodity);
    if p.state.Some? then Text.NormalizeIdempotent(p.state.value); p.(commodity := Text.Normalize(p.commodity), state := Some(Text.Normalize(p.state.value)))
    else p.(commodity := Text.Normalize(p.commodity))
  }

  function NormalizeAll(recs: seq<PriceRecord>): (r: seq<PriceRecord>)
    ensures |r| == |recs|
    ensures forall i :: 0 <= i < |recs| ==> r[i] == NormalizeRecord(recs[i])
  {
    if |recs| == 0 then [] else [NormalizeRecord(recs[0])] + NormalizeAll(recs[1..])
  }

  /** A record whose labels are already normalised. */
  predicate IsNormalized(p: PriceRecord) {
    Text.Normalize(p.commodity) == p.commodity
    && (p.state.Some? ==> Text.Normalize(p.state.value) == p.state.value)
  }

  // ---------------------------------------------------------------------
  // The whole cleaner

  /** The interval the cleaner applies to a raw table. */
  function TableFences(rows: seq<RawRow>): Option<Interval> {
    Fences(Prices(CoercePrices(DropMissing(rows))))
  }

  /**
   * clean_commodity_data on an in-memory table. Never longer than its
   * input, every label normalised, every price inside the fences in force.
   */
  function Clean(rows: seq<RawRow>): (r: seq<PriceRecord>)
    ensures |r| <= |rows|
    ensures forall i :: 0 <= i < |r| ==> IsNormalized(r[i])
    ensures TableFences(rows).Some? ==>
      forall i :: 0 <= i < |r| ==> TableFences(rows).value.Contains(r[i].modalPrice)
  {
    var complete := DropMissing(rows);
    var typed := CoercePrices(complete);
    var kept := RejectOutliers(typed);
    SubsequenceLength(kept, typed);
    var r := NormalizeAll(kept);
    forall i | 0 <= i < |r| && TableFences(rows).Some?
      ensures TableFences(rows).value.Contains(r[i].modalPrice)
    {
      assert kept[i] in kept;
    }
    r
  }

  lemma {:induction false} SubsequenceLength<T>(a: seq<T>, b: seq<T>)
    requires Seqs.IsSubsequence(a, b)
    ensures |a| <= |b|
    decreases |a| + |b|
  {
    if |a| > 0 {
      if a[0] == b[0] && Seqs.IsSubsequence(a[1..], b[1..]) {
        SubsequenceLength(a[1..], b[1..]);
      } else {
        SubsequenceLength(a, b[1..]);
      }
    }
  }

  // ---------------------------------------------------------------------
  // The cleaner as one pass

  /** Whether the cleaner keeps a raw row, given the fences in force. */
  predicate Keeps(x: RawRow, b: Option<Interval>) {
    Usable(x) && (b.None? || b.value.Contains(x.modalPrice.value))
  }

  /** The raw rows the cleaner keeps, in input order. */
  function KeptRows(rows: seq<RawRow>, b: Option<Interval>): (r: seq<RawRow>)
    ensures Seqs.IsSubsequence(r, rows)
    ensures forall x :: x in r <==> x in rows && Keeps(x, b)
  {
    if |rows| == 0 then []
    else
      var rest := KeptRows(rows[1..], b);
      assert forall x :: x in rows <==> x == rows[0] || x in rows[1..];
      if Keeps(rows[0], b) then [rows[0]] + rest else rest
  }

  lemma {:induction false} KeptRowsCounts(rows: seq<RawRow>, b: Option<Interval>, x: RawRow)
    ensures multiset(KeptRows(rows, b))[x] == if Keeps(x, b) then multiset(rows)[x] else 0
  {
    if |rows| > 0 {
      KeptRowsCounts(rows[1..], b, x);
      Seqs.CountStep(rows, x);
      if Keeps(rows[0], b) {
        Seqs.ConsCount(rows[0], KeptRows(rows[1..], b), x);
      }
    }
  }

  /** What the cleaner makes of a kept row. */
  function Tidy(x: RawRow): PriceRecord
    requires Usable(x)
  {
    NormalizeRecord(ToRecord(x))
  }

  function TidyAll(rows: seq<RawRow>): (r: seq<PriceRecord>)
    requires forall x :: x in rows ==> Usable(x)
    ensures |r| == |rows|
    ensures forall i :: 0 <= i < |rows| ==> r[i] == Tidy(rows[i])
  {
    if |rows| == 0 then [] else [Tidy(rows[0])] + TidyAll(rows[1..])
  }

  lemma {:induction false} StagesAsOnePass(rows: seq<RawRow>, b: Option<Interval>)
    ensures NormalizeAll(Within(CoercePrices(DropMissing(rows)), b)) == TidyAll(KeptRows(rows, b))
  {
    if |rows| > 0 {
      var x, rest := rows[0], rows[1..];
      StagesAsOnePass(rest, b);
      var d := DropMissing(rest);
      if HasRequired(x) {
        assert DropMissing(rows) == [x] + d;
        CoerceCons(x, d);
        if x.modalPrice.Number? {
          var c := CoercePrices(d);
          WithinCons(ToRecord(x), c, b);
          if Retained(ToRecord(x), b) {
            NormalizeAllCons(ToRecord(x), Within(c, b));
            TidyAllCons(x, KeptRows(rest, b));
          }
        }
      }
    }
  }

  lemma CoerceCons(x: RawRow, d: seq<RawRow>)
    requires HasRequired(x) && forall y :: y in d ==> HasRequired(y)
    ensures CoercePrices([x] + d)
         == (if x.modalPrice.Number? then [ToRecord(x)] else []) + CoercePrices(d)
  {
    assert ([x] + d)[1..] == d;
  }

  lemma WithinCons(p: PriceRecord, recs: seq<PriceRecord>, b: Option<Interval>)
    ensures Within([p] + recs, b) == (if Retained(p, b) then [p] else []) + Within(recs, b)
  {
    assert ([p] + recs)[1..] == recs;
  }

  lemma NormalizeAllCons(p: PriceRecord, recs: seq<PriceRecord>)
    ensures NormalizeAll([p] + recs) == [NormalizeRecord(p)] + NormalizeAll(recs)
  {
    assert ([p] + recs)[1..] == recs;
  }

  lemma TidyAllCons(x: RawRow, rows: seq<RawRow>)
    requires Usable(x) && forall y :: y in rows ==> Usable(y)
    ensures TidyAll([x] + rows) == [Tidy(x)] + TidyAll(rows)
  {
    assert ([x] + rows)[1..] == rows;
  }

  /**
   * The cleaner neither adds nor reorders rows: its output is the tidied
   * image of the subsequence of input rows that have every required field,
   * a numeric modal price, and a price inside the fences.
   */
  lemma CleanIsTidiedSubsequence(rows: seq<RawRow>)
    ensures var kept := KeptRows(rows, TableFences(rows));
      && Seqs.IsSubsequence(kept, rows)
      && (forall x :: x in kept <==> x in rows && Keeps(x, TableFences(rows)))
      && Clean(rows) == TidyAll(kept)
  {
    var b := TableFences(rows);
    var typed := CoercePrices(DropMissing(rows));
    WithinNone(typed);
    StagesAsOnePass(rows, b);
  }

  // ---------------------------------------------------------------------
  // Worked examples

  lemma SpikeQuartiles(ps: seq<real>)
    requires ps == [10.0, 10.0, 10.0, 10.0, 1000.0]
    ensures Q1(ps) == 10.0 && Q3(ps) == 10.0
  {
    QuartileExample(ps, 0.25, 1);
    QuartileExample(ps, 0.75, 3);
  }

  /** A quantile of an ascending table whose position is a whole number `k`. */
  lemma QuartileExample(s: seq<real>, q: real, k: nat)
    requires 0.0 <= q <= 1.0 && k < |s|
    requires forall i, j :: 0 <= i < j < |s| ==> s[i] <= s[j]
    requires q * (|s| - 1) as real == k as real
    ensures Stats.Quantile(s, q) == s[k]
  {
    Stats.QuantileOfAscending(s, q, k);
  }

  /**
   * One spike among equal prices is not rejected: both quartiles of
   * 10, 10, 10, 10, 1000 are 10, the IQR is 0 and the step is skipped.
   */
  lemma SpikeAmongEqualPricesIsKept(recs: seq<PriceRecord>)
    requires Prices(recs) == [10.0, 10.0, 10.0, 10.0, 1000.0]
    ensures RejectOutliers(recs) == recs
  {
    SpikeQuartiles(Prices(recs));
  }

  /** The table 10, 10, 10, 11, 13, one price at a time. */
  predicate IsFivePrices(ps: seq<real>) {
    |ps| == 5 && ps[0] == 10.0 && ps[1] == 10.0 && ps[2] == 10.0 && ps[3] == 11.0 && ps[4] == 13.0
  }

  /** The table 10, 10, 10, 11, one price at a time. */
  predicate IsFourPrices(ps: seq<real>) {
    |ps| == 4 && ps[0] == 10.0 && ps[1] == 10.0 && ps[2] == 10.0 && ps[3] == 11.0
  }

  lemma FiveFences(ps: seq<real>)
    requires IsFivePrices(ps)
    ensures Fences(ps) == Some(Interval(8.5, 12.5))
  {
    Stats.QuantileOfAscending(ps, 0.25, 1);
    Stats.QuantileOfAscending(ps, 0.75, 3);
  }

  lemma FourFences(ps: seq<real>)
    requires IsFourPrices(ps)
    ensures Fences(ps) == Some(Interval(9.625, 10.625))
  {
    Stats.QuantileOfAscending(ps, 0.25, 0);
    Stats.QuantileOfAscending(ps, 0.75, 2);
  }

  /** On 10, 10, 10, 11, 13 the fences are 8.5 and 12.5: only 13 is dropped. */
  lemma FirstPassDropsTheSpike(recs: seq<PriceRecord>)
    requires IsFivePrices(Prices(recs))
    ensures RejectOutliers(recs) == recs[..4]
    ensures IsFourPrices(Prices(RejectOutliers(recs)))
  {
    var ps := Prices(recs);
    FiveFences(ps);
    WithinExample(recs, Interval(8.5, 12.5), 4);
    PricesPrefix(recs, 4);
  }

  /** On 10, 10, 10, 11 the fences are 9.625 and 10.625: 11 is dropped. */
  lemma SecondPassDropsMore(recs: seq<PriceRecord>)
    requires IsFourPrices(Prices(recs))
    ensures RejectOutliers(recs) == recs[..3]
  {
    var ps := Prices(recs);
    FourFences(ps);
    WithinExample(recs, Interval(9.625, 10.625), 3);
  }

  /**
   * The outlier step is not idempotent: applied to its own output it can
   * drop more, because the quartiles move once the extreme row is gone.
   */
  lemma RejectOutliersNotIdempotent(recs: seq<PriceRecord>)
    requires IsFivePrices(Prices(recs))
    ensures RejectOutliers(RejectOutliers(recs)) != RejectOutliers(recs)
  {
    var once := RejectOutliers(recs);
    FirstPassDropsTheSpike(recs);
    SecondPassDropsMore(once);
    assert |RejectOutliers(once)| == 3 && |once| == 4;
  }

  lemma PricesPrefix(recs: seq<PriceRecord>, k: nat)
    requires k <= |recs|
    ensures Prices(recs[..k]) == Prices(recs)[..k]
  {
  }

  /** Filtering a table whose first `k` prices are in the interval and the rest are not. */
  lemma {:induction false} WithinExample(recs: seq<PriceRecord>, b: Interval, k: nat)
    requires k <= |recs|
    requires forall i :: 0 <= i < k ==> b.Contains(recs[i].modalPrice)
    requires forall i :: k <= i < |recs| ==> !b.Contains(recs[i].modalPrice)
    ensures Within(recs, Some(b)) == recs[..k]
  {
    if |recs| > 0 {
      var rest := recs[1..];
      WithinExample(rest, b, if k == 0 then 0 else k - 1);
      assert recs == [recs[0]] + rest;
      WithinCons(recs[0], rest, Some(b));
      if k > 0 {
        assert recs[..k] == [recs[0]] + rest[..k - 1];
      }
    }
  }
}
