/**
 * AgriSenseDataManager.generate_insights over a featured table: the five
 * commodities with the highest mean price, the five with the highest mean
 * volatility, the five states with the highest mean price, and the three
 * commodities with the highest mean percent change over the last seven
 * days of data. The printing is left out; the lists are the result.
 */
module Insights {
  import opened Wrappers
  import opened Records
  import opened Ranking
  import Seqs
  import Stats

  const TopCount: nat := 5
  const TrendCount: nat := 3
  /** The recent view reaches this many days back from the latest date. */
  const RecentDays: int := 7

  function PriceObs(fs: seq<FeatureRecord>): (r: seq<Obs>)
    ensures |r| == |fs|
    ensures forall i :: 0 <= i < |fs| ==> r[i] == Obs(fs[i].record.commodity, fs[i].record.modalPrice)
  {
    if |fs| == 0 then [] else [Obs(fs[0].record.commodity, fs[0].record.modalPrice)] + PriceObs(fs[1..])
  }

  function VolatilityObs(fs: seq<FeatureRecord>): (r: seq<Obs>)
    ensures |r| == |fs|
    ensures forall i :: 0 <= i < |fs| ==> r[i] == Obs(fs[i].record.commodity, fs[i].volatility)
  {
    if |fs| == 0 then [] else [Obs(fs[0].record.commodity, fs[0].volatility)] + VolatilityObs(fs[1..])
  }

  function ChangeObs(fs: seq<FeatureRecord>): (r: seq<Obs>)
    ensures |r| == |fs|
    ensures forall i :: 0 <= i < |fs| ==> r[i] == Obs(fs[i].record.commodity, fs[i].pctChange)
  {
    if |fs| == 0 then [] else [Obs(fs[0].record.commodity, fs[0].pctChange)] + ChangeObs(fs[1..])
  }

  /** Grouping by state leaves out the rows whose state is missing. */
  function StateObs(fs: seq<FeatureRecord>): (r: seq<Obs>)
    ensures |r| <= |fs|
    ensures forall o :: o in r <==>
      (exists f :: f in fs && f.record.state.Some? && o == Obs(f.record.state.value, f.record.modalPrice))
  {
    if |fs| == 0 then []
    else
      var rest := StateObs(fs[1..]);
      assert forall f :: f in fs <==> f == fs[0] || f in fs[1..];
      match fs[0].record.state
      case None => rest
      case Some(s) => [Obs(s, fs[0].record.modalPrice)] + rest
  }

  predicate NamesState(f: FeatureRecord) {
    f.record.state.Some?
  }

  /** The (state, price) pairs of `named`, one per row, in order. */
  predicate StatePairsOf(r: seq<Obs>, named: seq<FeatureRecord>)
    requires forall i :: 0 <= i < |named| ==> named[i].record.state.Some?
  {
    |r| == |named|
    && forall i :: 0 <= i < |r| ==> r[i] == Obs(named[i].record.state.value, named[i].record.modalPrice)
  }

  lemma StatePairsCons(f: FeatureRecord, named: seq<FeatureRecord>, r: seq<Obs>)
    requires f.record.state.Some? && forall i :: 0 <= i < |named| ==> named[i].record.state.Some?
    requires StatePairsOf(r, named)
    ensures StatePairsOf([Obs(f.record.state.value, f.record.modalPrice)] + r, [f] + named)
  {
  }

  /**
   * The pairs are those of the rows that name a state, one per row and in
   * table order; with Seqs.Filter's contract this fixes how often each
   * (state, price) pair enters its state's mean.
   */
  lemma {:induction false} StateObsArePairs(fs: seq<FeatureRecord>)
    ensures StatePairsOf(StateObs(fs), Seqs.Filter(fs, NamesState))
  {
    if |fs| > 0 {
      StateObsArePairs(fs[1..]);
      Seqs.FilterStep(fs, NamesState);
      if fs[0].record.state.Some? {
        StatePairsCons(fs[0], Seqs.Filter(fs[1..], NamesState), StateObs(fs[1..]));
      }
    }
  }

  // ---------------------------------------------------------------------
  // The recent window

  /** The latest date of the table; NaT (None) when no row has one. */
  function MaxDate(fs: seq<FeatureRecord>): (m: Option<int>)
    ensures m.None? <==> forall f :: f in fs ==> f.record.date.None?
    ensures m.Some? ==> exists f :: f in fs && f.record.date == m
    ensures m.Some? ==> forall f :: f in fs && f.record.date.Some? ==> f.record.date.value <= m.value
  {
    if |fs| == 0 then None
    else
      var rest := MaxDate(fs[1..]);
      assert forall f :: f in fs <==> f == fs[0] || f in fs[1..];
      match (fs[0].record.date, rest)
      case (None, _) => rest
      case (Some(d), None) => Some(d)
      case (Some(d), Some(e)) => if d >= e then Some(d) else Some(e)
  }

  /** Dated no earlier than seven days before the latest date; any comparison with NaT is false. */
  predicate IsRecent(f: FeatureRecord, latest: Option<int>) {
    f.record.date.Some? && latest.Some? && f.record.date.value >= latest.value - RecentDays
  }

  function RecentFrom(fs: seq<FeatureRecord>, latest: Option<int>): (r: seq<FeatureRecord>)
    ensures Seqs.IsSubsequence(r, fs)
    ensures forall f :: f in r <==> f in fs && IsRecent(f, latest)
  {
    if |fs| == 0 then []
    else
      var rest := RecentFrom(fs[1..], latest);
      assert forall f :: f in fs <==> f == fs[0] || f in fs[1..];
      if IsRecent(fs[0], latest) then [fs[0]] + rest else rest
  }

  /** A recent row is kept as often as it occurs; no other row is kept. */
  lemma {:induction false} RecentFromCounts(fs: seq<FeatureRecord>, latest: Option<int>, f: FeatureRecord)
    ensures multiset(RecentFrom(fs, latest))[f] == if IsRecent(f, latest) then multiset(fs)[f] else 0
  {
    if |fs| > 0 {
      RecentFromCounts(fs[1..], latest, f);
      Seqs.CountStep(fs, f);
      if IsRecent(fs[0], latest) {
        Seqs.ConsCount(fs[0], RecentFrom(fs[1..], latest), f);
      }
    }
  }

  /**
   * The rows of the last seven days: exactly the rows dated no earlier than
   * seven days before the latest date, in table order.
   */
  function Recent(fs: seq<FeatureRecord>): (r: seq<FeatureRecord>)
    ensures Seqs.IsSubsequence(r, fs)
    ensures forall f :: f in r <==>
      (f in fs && f.record.date.Some? && MaxDate(fs).Some?
       && MaxDate(fs).value - RecentDays <= f.record.date.value <= MaxDate(fs).value)
  {
    RecentFrom(fs, MaxDate(fs))
  }

  /** Each row of the last seven days appears in the recent view as often as in the table. */
  lemma RecentCounts(fs: seq<FeatureRecord>, f: FeatureRecord)
    ensures multiset(Recent(fs))[f] == if IsRecent(f, MaxDate(fs)) then multiset(fs)[f] else 0
  {
    RecentFromCounts(fs, MaxDate(fs), f);
  }

  /** A row seven days before the latest is recent, one eight days before is not. */
  lemma RecentBoundary(fs: seq<FeatureRecord>, f: FeatureRecord, g: FeatureRecord)
    requires f in fs && g in fs
    requires MaxDate(fs).Some?
    requires f.record.date == Some(MaxDate(fs).value - 7)
    requires g.record.date == Some(MaxDate(fs).value - 8)
    ensures f in Recent(fs) && g !in Recent(fs)
  {
  }

  // ---------------------------------------------------------------------
  // The report

  datatype Report = Report(
    topPrices: seq<Entry>,
    topVolatility: seq<Entry>,
    topStates: seq<Entry>,
    recentTrends: seq<Entry>)

  /**
   * The four lists: commodities by mean price and by mean volatility, states
   * by mean price (five each), and commodities by mean percent change over
   * the recent rows (three).
   */
  function GenerateInsights(fs: seq<FeatureRecord>): (r: Report)
    ensures Ranks(r.topPrices, PriceObs(fs), TopCount)
    ensures Ranks(r.topVolatility, VolatilityObs(fs), TopCount)
    ensures Ranks(r.topStates, StateObs(fs), TopCount)
    ensures Ranks(r.recentTrends, ChangeObs(Recent(fs)), TrendCount)
  {
    Report(
      Top(PriceObs(fs), TopCount),
      Top(VolatilityObs(fs), TopCount),
      Top(StateObs(fs), TopCount),
      Top(ChangeObs(Recent(fs)), TrendCount))
  }
}
