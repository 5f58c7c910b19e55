/** The value model: series kinds and granularities, stock values, company
    information and per-ticker coverage statistics (src/opa/core/financial_data.py). */
module FinancialData {
  import opened Wrappers

  /** Sampling density of a series. */
  datatype Granularity = Fine | Coarse {
    /** The enum member's value. */
    function Value(): string {
      match this
      case Fine => "fine"
      case Coarse => "coarse"
    }
  }

  /** `StockValueSerieGranularity(s)`: look an enum member up by its value. */
  function GranularityOf(s: string): (g: Option<Granularity>)
    ensures g.Some? <==> s == "fine" || s == "coarse"
    ensures g.Some? ==> g.value.Value() == s
  {
    if s == "fine" then Some(Fine)
    else if s == "coarse" then Some(Coarse)
    else None
  }

  /** Shape of a quote: close only, or open/low/high/close/volume. */
  datatype Kind = Simple | Ohlc {
    /** The enum member's value. */
    function Value(): string {
      match this
      case Simple => "simple"
      case Ohlc => "ohlc"
    }
  }

  /** `StockValueKind(s)`: look an enum member up by its value. */
  function KindOf(s: string): (k: Option<Kind>)
    ensures k.Some? <==> s == "simple" || s == "ohlc"
    ensures k.Some? ==> k.value.Value() == s
  {
    if s == "simple" then Some(Simple)
    else if s == "ohlc" then Some(Ohlc)
    else None
  }

  /** Each enum is exactly its two members, told apart by their values. */
  lemma EnumValuesIdentifyMembers(k: Kind, g: Granularity)
    ensures KindOf(k.Value()) == Some(k) && GranularityOf(g.Value()) == Some(g)
    ensures Simple.Value() != Ohlc.Value() && Fine.Value() != Coarse.Value()
  {
  }

  /** Prices are floats in the system; the model only copies them. */
  type Price = real

  /** Instants are seconds on a single time line; calendar days are day numbers. */
  type Instant = int

  /** One observed quote of one ticker. */
  datatype StockValue = StockValue(
    ticker: string,
    date: Instant,
    close: Price,
    interval: int,
    open: Option<Price>,
    low: Option<Price>,
    high: Option<Price>,
    volume: Option<int>)

  /** True when none of the optional OHLC fields is set. */
  predicate IsCloseOnly(v: StockValue) {
    v.open.None? && v.low.None? && v.high.None? && v.volume.None?
  }

  /** `StockValue(ticker=, date=, close=, interval=)`: the optional fields take their
      default, absent. */
  function NewStockValue(ticker: string, date: Instant, close: Price, interval: int): (v: StockValue)
    ensures v.ticker == ticker && v.date == date && v.close == close && v.interval == interval
    ensures IsCloseOnly(v)
  {
    StockValue(ticker, date, close, interval, None, None, None, None)
  }

  /** Descriptive metadata of a listed company. */
  datatype CompanyInfo = CompanyInfo(
    symbol: string,
    name: string,
    currency: string,
    website: string,
    description: string,
    sector: string,
    country: string,
    image: string,
    ipoDate: Instant,
    address: string,
    city: string)

  /** Coverage of one ticker's stored series. */
  datatype StockCollectionStats = StockCollectionStats(latest: Instant, oldest: Instant, count: int)

  /** The most recent date of a non-empty series. */
  function LatestDate(values: seq<StockValue>): (d: Instant)
    requires values != []
    ensures exists i :: 0 <= i < |values| && values[i].date == d
    ensures forall i :: 0 <= i < |values| ==> values[i].date <= d
    decreases |values|
  {
    if |values| == 1 then values[0].date
    else
      var rest := LatestDate(values[1..]);
      if values[0].date >= rest then values[0].date else rest
  }

  /** The oldest date of a non-empty series. */
  function OldestDate(values: seq<StockValue>): (d: Instant)
    requires values != []
    ensures exists i :: 0 <= i < |values| && values[i].date == d
    ensures forall i :: 0 <= i < |values| ==> d <= values[i].date
    decreases |values|
  {
    if |values| == 1 then values[0].date
    else
      var rest := OldestDate(values[1..]);
      if values[0].date <= rest then values[0].date else rest
  }

  /** The statistics of a non-empty series: its latest and oldest dates and its size. */
  function StatsOf(values: seq<StockValue>): (s: StockCollectionStats)
    requires values != []
    ensures s.oldest <= s.latest
    ensures s.count == |values| >= 1
    ensures forall i :: 0 <= i < |values| ==> s.oldest <= values[i].date <= s.latest
    ensures exists i :: 0 <= i < |values| && values[i].date == s.latest
    ensures exists i :: 0 <= i < |values| && values[i].date == s.oldest
  {
    StockCollectionStats(LatestDate(values), OldestDate(values), |values|)
  }
}
