/**
 * The rows of the price tables. A date is a day number (days since
 * 1970-01-01); a date that is missing or failed to parse (NaT) is None.
 */
module Records {
  import opened Wrappers
  import Text
  import Sorting

  /**
   * A raw CSV cell as pandas reads it: empty, a number (a numeric string
   * included), or text that is not a number.
   */
  datatype Cell = Blank | Number(value: real) | Word(text: string)

  /** One row of the raw commodity price file. */
  datatype RawRow = RawRow(
    commodity: Option<string>,
    state: Option<string>,
    market: Option<string>,
    arrivalDate: Option<int>,
    modalPrice: Cell,
    price: Cell)

  /** A cleaned price record. */
  datatype PriceRecord = PriceRecord(
    commodity: string,
    state: Option<string>,
    market: string,
    date: Option<int>,
    modalPrice: real)

  datatype Trend = Rising | Falling | Stable

  /** A price record extended with the engineered features. */
  datatype FeatureRecord = FeatureRecord(
    record: PriceRecord,
    avg7: real,
    avg30: real,
    pctChange: real,
    month: Option<int>,
    quarter: Option<int>,
    dayOfYear: Option<int>,
    volatility: real,
    vsAvg7: real,
    vsAvg30: real,
    trend: Trend)

  // ---------------------------------------------------------------------
  // The (commodity, date) sort order

  /** Ascending dates with NaT last, where pandas puts missing values by default. */
  predicate DateLe(a: Option<int>, b: Option<int>) {
    match (a, b)
    case (Some(x), Some(y)) => x <= y
    case (_, None) => true
    case (None, Some(_)) => false
  }

  /** Ascending by commodity, then by date. */
  predicate KeyLe(c1: string, d1: Option<int>, c2: string, d2: Option<int>) {
    Text.Less(c1, c2) || (c1 == c2 && DateLe(d1, d2))
  }

  predicate RecordLe(a: PriceRecord, b: PriceRecord) {
    KeyLe(a.commodity, a.date, b.commodity, b.date)
  }

  lemma KeyLeTotal(c1: string, d1: Option<int>, c2: string, d2: Option<int>)
    ensures KeyLe(c1, d1, c2, d2) || KeyLe(c2, d2, c1, d1)
  {
    Text.LessTrichotomy(c1, c2);
  }

  lemma KeyLeTransitive(c1: string, d1: Option<int>, c2: string, d2: Option<int>,
                        c3: string, d3: Option<int>)
    requires KeyLe(c1, d1, c2, d2) && KeyLe(c2, d2, c3, d3)
    ensures KeyLe(c1, d1, c3, d3)
  {
    if Text.Less(c1, c2) && Text.Less(c2, c3) {
      Text.LessTransitive(c1, c2, c3);
    }
  }

  lemma RecordLeIsTotalPreorder()
    ensures Sorting.TotalPreorder(RecordLe)
  {
    forall a, b
      ensures RecordLe(a, b) || RecordLe(b, a)
    {
      KeyLeTotal(a.commodity, a.date, b.commodity, b.date);
    }
    forall a, b, c | RecordLe(a, b) && RecordLe(b, c)
      ensures RecordLe(a, c)
    {
      KeyLeTransitive(a.commodity, a.date, b.commodity, b.date, c.commodity, c.date);
    }
  }

  /** Two records sort as equals exactly when commodity and date agree. */
  lemma RecordEquivIsSameKey(a: PriceRecord, b: PriceRecord)
    ensures Sorting.Equiv(RecordLe, a, b) <==> a.commodity == b.commodity && a.date == b.date
  {
    if Text.Less(a.commodity, b.commodity) {
      Text.LessAsymmetric(a.commodity, b.commodity);
      Text.LessIrreflexive(a.commodity);
    }
    if Text.Less(b.commodity, a.commodity) {
      Text.LessAsymmetric(b.commodity, a.commodity);
      Text.LessIrreflexive(a.commodity);
    }
  }
}
