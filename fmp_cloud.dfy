/** The FMP Cloud provider: the rows its API returns, their conversion to the
    system's records, the routing of series requests and the building of requests.
    The HTTP exchange itself is a parameter. */
module FmpCloud {
  import opened Wrappers
  import opened FinancialData
  import opened Providers
  import StringOrder

  const BASE_URL: string := "https://fmpcloud.io/api/v3/"
  const SECONDS_PER_DAY: int := 24 * 60 * 60
  /** Interval of a daily close-only value. */
  const DAILY_INTERVAL: int := 24 * 60 * 60
  /** Interval of a 15-minute OHLC value. */
  const QUARTER_HOUR_INTERVAL: int := 15 * 60

  /** A calendar date, as a number of days. */
  type Day = int

  /** `datetime.combine(day, time.min)`: the first instant of a day. */
  function Midnight(day: Day): (t: Instant)
    ensures t % SECONDS_PER_DAY == 0
    ensures t / SECONDS_PER_DAY == day
  {
    day * SECONDS_PER_DAY
  }

  // ---------------------------------------------------------------------------
  // Rows of the API

  /** One entry of `historical` in a daily series. */
  datatype SimpleRow = SimpleRow(date: Day, close: Price)

  /** The object returned for a daily series. */
  datatype SimpleData = SimpleData(symbol: string, historical: seq<SimpleRow>)

  /** One entry of a 15-minute series. */
  datatype OhlcRow = OhlcRow(date: Instant, open: Price, close: Price, low: Price, high: Price, volume: int)

  /** One entry of a company profile list. */
  datatype CompanyRow = CompanyRow(
    symbol: string,
    companyName: string,
    currency: string,
    website: string,
    description: string,
    sector: string,
    country: string,
    image: string,
    ipoDate: Day,
    address: string,
    city: string)

  /** An element of a JSON list, as far as the rows above can validate it. */
  datatype Item = OhlcItem(ohlc: OhlcRow) | ProfileItem(profile: CompanyRow) | OtherItem

  /** A decoded JSON body, as far as the rows above can validate it. */
  datatype Json = SimpleDataObject(data: SimpleData) | List(items: seq<Item>) | OtherJson

  /** A validated row of a series. */
  datatype SerieRow = DailyRow(daily: SimpleRow) | QuarterHourRow(quarterHour: OhlcRow)

  // ---------------------------------------------------------------------------
  // Conversions

  /** `FmpCloudSimpleValue.as_stock_value(ticker=)`: the close at midnight of the day,
      with a daily interval and no OHLC fields. Nothing of the row is lost. */
  function SimpleAsStockValue(row: SimpleRow, ticker: string): (v: StockValue)
    ensures v.ticker == ticker && v.interval == DAILY_INTERVAL && IsCloseOnly(v)
    ensures v.date % SECONDS_PER_DAY == 0
    ensures SimpleRow(v.date / SECONDS_PER_DAY, v.close) == row
  {
    NewStockValue(ticker, Midnight(row.date), row.close, DAILY_INTERVAL)
  }

  /** `FmpCloudOhlcValue.as_stock_value(ticker=)`: every field of the row, with a
      15-minute interval. Nothing of the row is lost. */
  function OhlcAsStockValue(row: OhlcRow, ticker: string): (v: StockValue)
    ensures v.ticker == ticker && v.interval == QUARTER_HOUR_INTERVAL
    ensures v.open.Some? && v.low.Some? && v.high.Some? && v.volume.Some?
    ensures OhlcRow(v.date, v.open.value, v.close, v.low.value, v.high.value, v.volume.value) == row
  {
    StockValue(ticker, row.date, row.close, QUARTER_HOUR_INTERVAL,
               Some(row.open), Some(row.low), Some(row.high), Some(row.volume))
  }

  /** The conversion of a validated row of either series. */
  function AsStockValue(row: SerieRow, ticker: string): StockValue {
    match row
    case DailyRow(r) => SimpleAsStockValue(r, ticker)
    case QuarterHourRow(r) => OhlcAsStockValue(r, ticker)
  }

  /** `FmpCloudCompanyInfo.as_company_info()`: `companyName` becomes `name`, the IPO day
      becomes its midnight, every other field is copied. Nothing of the row is lost. */
  function AsCompanyInfo(row: CompanyRow): (info: CompanyInfo)
    ensures info.symbol == row.symbol
    ensures CompanyRow(info.symbol, info.name, info.currency, info.website, info.description,
                       info.sector, info.country, info.image, info.ipoDate / SECONDS_PER_DAY,
                       info.address, info.city) == row
    ensures info.ipoDate % SECONDS_PER_DAY == 0
  {
    CompanyInfo(row.symbol, row.companyName, row.currency, row.website, row.description,
                row.sector, row.country, row.image, Midnight(row.ipoDate), row.address, row.city)
  }

  // ---------------------------------------------------------------------------
  // Requests

  /** A GET request: a URL and its query parameters. */
  datatype Request = Request(url: string, params: map<string, string>)

  /** An HTTP response with a decoded JSON body. */
  datatype Response = Response(status: int, body: Json)

  /** `get_json_data`: any status of 300 or more is an error; otherwise the body. */
  function GetJsonData(http: Request -> Response, request: Request): (r: Result<Json, ProviderError>)
    ensures r.Failure? <==> http(request).status >= 300
    ensures r.Failure? ==> r.error == HttpStatus(http(request).status)
    ensures r.Success? ==> r.value == http(request).body
  {
    var response := http(request);
    if response.status >= 300 then Failure(HttpStatus(response.status)) else Success(response.body)
  }

  /** One leading `/` of a path dropped, so that the path is relative to the base URL. */
  function StripLeadingSlash(path: string): (r: string)
    ensures |path| > 0 && path[0] == '/' ==> "/" + r == path
    ensures !(|path| > 0 && path[0] == '/') ==> r == path
  {
    if |path| > 0 && path[0] == '/' then path[1..] else path
  }

  /** The URL of an API path. */
  function Url(path: string): string {
    BASE_URL + StripLeadingSlash(path)
  }

  /** A path and the same path with one leading `/` name the same URL; only one `/`
      is dropped. */
  lemma UrlIgnoresOneLeadingSlash(path: string)
    ensures Url("/" + path) == BASE_URL + path
    ensures !(|path| > 0 && path[0] == '/') ==> Url(path) == Url("/" + path)
  {
    assert ("/" + path)[1..] == path;
  }

  /** `_get_json_data(path, **params)`: the request for an API path, with the access key
      as `apikey`, which replaces any `apikey` among the parameters. */
  function JsonRequest(accessKey: string, path: string, params: map<string, string>): (r: Request)
    ensures r.url == Url(path)
    ensures "apikey" in r.params && r.params["apikey"] == accessKey
    ensures forall k :: k != "apikey" ==> (k in r.params <==> k in params)
    ensures forall k :: k != "apikey" && k in params ==> r.params[k] == params[k]
  {
    Request(Url(path), params["apikey" := accessKey])
  }

  /** The series this provider serves: daily close-only and 15-minute OHLC. */
  predicate Supported(kind: Kind, granularity: Granularity) {
    (kind == Simple && granularity == Coarse) || (kind == Ohlc && granularity == Fine)
  }

  /** The request for the daily close-only series of a ticker. */
  function DailySerieRequest(accessKey: string, ticker: string): (r: Request)
    ensures r.url == BASE_URL + "historical-price-full/" + ticker
    ensures r.params == map["serietype" := "line", "apikey" := accessKey]
  {
    var path := "/historical-price-full/" + ticker;
    assert path[1..] == "historical-price-full/" + ticker;
    JsonRequest(accessKey, path, map["serietype" := "line"])
  }

  /** The request for the 15-minute OHLC series of a ticker. */
  function QuarterHourSerieRequest(accessKey: string, ticker: string): (r: Request)
    ensures r.url == BASE_URL + "historical-chart/15min/" + ticker
    ensures r.params == map["apikey" := accessKey]
  {
    var path := "/historical-chart/15min/" + ticker;
    assert path[1..] == "historical-chart/15min/" + ticker;
    JsonRequest(accessKey, path, map[])
  }

  /** The request of `get_raw_stock_values`; unsupported series raise TypeError. */
  function RawStockValuesRequest(accessKey: string, ticker: string, kind: Kind,
                                 granularity: Granularity): (r: Result<Request, ProviderError>)
    ensures r.Failure? <==> !Supported(kind, granularity)
    ensures r.Failure? ==> r.error == UnsupportedSeries(kind, granularity)
    ensures r.Success? && kind == Simple ==> r.value == DailySerieRequest(accessKey, ticker)
    ensures r.Success? && kind == Ohlc ==> r.value == QuarterHourSerieRequest(accessKey, ticker)
  {
    if kind == Simple && granularity == Coarse then Success(DailySerieRequest(accessKey, ticker))
    else if kind == Ohlc && granularity == Fine then Success(QuarterHourSerieRequest(accessKey, ticker))
    else Failure(UnsupportedSeries(kind, granularity))
  }

  /** `get_raw_stock_values(ticker, kind, granularity)`. */
  function GetRawStockValues(accessKey: string, http: Request -> Response, ticker: string,
                             kind: Kind, granularity: Granularity): (r: Result<Json, ProviderError>)
    ensures !Supported(kind, granularity) ==> r == Failure(UnsupportedSeries(kind, granularity))
    ensures Supported(kind, granularity) ==>
      r == GetJsonData(http, RawStockValuesRequest(accessKey, ticker, kind, granularity).value)
  {
    match RawStockValuesRequest(accessKey, ticker, kind, granularity)
    case Failure(e) => Failure(e)
    case Success(request) => GetJsonData(http, request)
  }

  /** The rows of a list when every element is an OHLC row. */
  function OhlcRows(items: seq<Item>): (r: Result<seq<SerieRow>, ProviderError>)
    ensures r.Success? <==> forall i :: 0 <= i < |items| ==> items[i].OhlcItem?
    ensures r.Failure? ==> r.error == InvalidResponse
    ensures r.Success? ==> (|r.value| == |items| &&
      forall i :: 0 <= i < |items| ==> r.value[i] == QuarterHourRow(items[i].ohlc))
    decreases |items|
  {
    if items == [] then Success([])
    else
      var n := |items| - 1;
      match OhlcRows(items[..n])
      case Failure(e) =>
        assert !items[..n][FirstNonOhlc(items[..n])].OhlcItem?;
        Failure(e)
      case Success(rows) =>
        if items[n].OhlcItem? then Success(rows + [QuarterHourRow(items[n].ohlc)])
        else Failure(InvalidResponse)
  }

  /** The index of an element of a list that is not an OHLC row. */
  function FirstNonOhlc(items: seq<Item>): (i: nat)
    requires exists i :: 0 <= i < |items| && !items[i].OhlcItem?
    ensures i < |items| && !items[i].OhlcItem?
  {
    if !items[0].OhlcItem? then 0
    else
      assert exists i :: 0 <= i < |items[1..]| && !items[1..][i].OhlcItem? by {
        var i :| 0 <= i < |items| && !items[i].OhlcItem?;
        assert items[1..][i - 1] == items[i];
      }
      1 + FirstNonOhlc(items[1..])
  }

  /** `_as_validated_list_of_values(json, kind, granularity)`: a daily series is the
      `historical` of an object, a 15-minute series a list of OHLC rows; any other
      shape is invalid, and any other series raises TypeError. */
  function ValidatedRows(json: Json, kind: Kind, granularity: Granularity): (r: Result<seq<SerieRow>, ProviderError>)
    ensures !Supported(kind, granularity) ==> r == Failure(UnsupportedSeries(kind, granularity))
    ensures Supported(kind, granularity) && r.Failure? ==> r.error == InvalidResponse
    ensures kind == Simple && granularity == Coarse ==>
      (r.Success? <==> json.SimpleDataObject?)
    ensures kind == Simple && granularity == Coarse && r.Success? ==>
      |r.value| == |json.data.historical| &&
      forall i :: 0 <= i < |r.value| ==> r.value[i] == DailyRow(json.data.historical[i])
    ensures kind == Ohlc && granularity == Fine ==>
      (r.Success? <==> json.List? && forall i :: 0 <= i < |json.items| ==> json.items[i].OhlcItem?)
    ensures kind == Ohlc && granularity == Fine && r.Success? ==>
      |r.value| == |json.items| &&
      forall i :: 0 <= i < |r.value| ==> r.value[i] == QuarterHourRow(json.items[i].ohlc)
  {
    if kind == Simple && granularity == Coarse then
      if json.SimpleDataObject? then
        var h := json.data.historical;
        Success(seq(|h|, i requires 0 <= i < |h| => DailyRow(h[i])))
      else Failure(InvalidResponse)
    else if kind == Ohlc && granularity == Fine then
      if json.List? then OhlcRows(json.items) else Failure(InvalidResponse)
    else
      Failure(UnsupportedSeries(kind, granularity))
  }

  /** `get_stock_values(ticker, kind, granularity)`: every validated row converted with
      the requested ticker, in the order and number the API returned them. */
  function GetStockValues(accessKey: string, http: Request -> Response, ticker: string,
                          kind: Kind, granularity: Granularity): (r: Result<seq<StockValue>, ProviderError>)
    ensures !Supported(kind, granularity) ==> r == Failure(UnsupportedSeries(kind, granularity))
    ensures var json := GetRawStockValues(accessKey, http, ticker, kind, granularity);
      && (r.Success? <==> json.Success? && ValidatedRows(json.value, kind, granularity).Success?)
      && (json.Failure? ==> r == Failure(json.error))
      && (json.Success? && ValidatedRows(json.value, kind, granularity).Failure? ==>
            r == Failure(ValidatedRows(json.value, kind, granularity).error))
    ensures r.Success? ==>
      var json := GetRawStockValues(accessKey, http, ticker, kind, granularity);
      && json.Success?
      && var rows := ValidatedRows(json.value, kind, granularity);
      && rows.Success?
      && |r.value| == |rows.value|
      && forall i :: 0 <= i < |r.value| ==> r.value[i] == AsStockValue(rows.value[i], ticker)
    ensures r.Success? ==> forall i :: 0 <= i < |r.value| ==> r.value[i].ticker == ticker
    ensures r.Success? && kind == Simple ==> forall i :: 0 <= i < |r.value| ==>
      r.value[i].interval == DAILY_INTERVAL && IsCloseOnly(r.value[i]) && r.value[i].date % SECONDS_PER_DAY == 0
    ensures r.Success? && kind == Ohlc ==> forall i :: 0 <= i < |r.value| ==>
      r.value[i].interval == QUARTER_HOUR_INTERVAL && r.value[i].open.Some? && r.value[i].volume.Some?
  {
    match GetRawStockValues(accessKey, http, ticker, kind, granularity)
    case Failure(e) => Failure(e)
    case Success(json) =>
      match ValidatedRows(json, kind, granularity)
      case Failure(e) => Failure(e)
      case Success(rows) =>
        Success(seq(|rows|, i requires 0 <= i < |rows| => AsStockValue(rows[i], ticker)))
  }

  // ---------------------------------------------------------------------------
  // Company information

  /** `",".join(parts)`. */
  function Join(sep: string, parts: seq<string>): string {
    if parts == [] then ""
    else if |parts| == 1 then parts[0]
    else parts[0] + sep + Join(sep, parts[1..])
  }

  /** `s.split(sep)` for a one-character separator. */
  function Split(s: string, sep: char): (r: seq<string>)
    ensures |r| >= 1
  {
    if s == [] then [""]
    else
      var rest := Split(s[1..], sep);
      if s[0] == sep then [""] + rest else [[s[0]] + rest[0]] + rest[1..]
  }

  lemma {:induction false} SplitWithoutSeparator(s: string, sep: char)
    requires sep !in s
    ensures Split(s, sep) == [s]
  {
    if s != [] {
      SplitWithoutSeparator(s[1..], sep);
      assert [s[0]] + s[1..] == s;
    }
  }

  lemma {:induction false} SplitAfterPart(part: string, sep: char, rest: string)
    requires sep !in part
    ensures Split(part + [sep] + rest, sep) == [part] + Split(rest, sep)
  {
    if part == [] {
      assert part + [sep] + rest == [sep] + rest;
      assert ([sep] + rest)[1..] == rest;
    } else {
      var whole := part + [sep] + rest;
      assert whole[1..] == part[1..] + [sep] + rest;
      SplitAfterPart(part[1..], sep, rest);
      assert [part[0]] + part[1..] == part;
    }
  }

  /** Tickers joined with `,` can be split back into the same list, as long as no
      ticker contains a comma. */
  lemma {:induction false} SplitJoin(parts: seq<string>)
    requires |parts| >= 1
    requires forall i :: 0 <= i < |parts| ==> ',' !in parts[i]
    ensures Split(Join(",", parts), ',') == parts
  {
    if |parts| == 1 {
      SplitWithoutSeparator(parts[0], ',');
    } else {
      SplitJoin(parts[1..]);
      SplitAfterPart(parts[0], ',', Join(",", parts[1..]));
      assert [parts[0]] + parts[1..] == parts;
    }
  }

  const PROFILE_PATH: string := "/profile/"

  /** The path of `get_company_info(tickers)`: the tickers sorted and joined with `,`. */
  function CompanyInfoPath(tickers: seq<string>): (path: string)
    ensures |PROFILE_PATH| <= |path| && path[..|PROFILE_PATH|] == PROFILE_PATH
    ensures tickers != [] && (forall i :: 0 <= i < |tickers| ==> ',' !in tickers[i]) ==>
      multiset(Split(path[|PROFILE_PATH|..], ',')) == multiset(tickers)
  {
    var sorted := StringOrder.Sort(tickers);
    var path := PROFILE_PATH + Join(",", sorted);
    if tickers != [] && forall i :: 0 <= i < |tickers| ==> ',' !in tickers[i] then
      assert |sorted| >= 1 by { assert |multiset(sorted)| == |multiset(tickers)|; }
      forall i | 0 <= i < |sorted| ensures ',' !in sorted[i] {
        assert sorted[i] in multiset(tickers);
      }
      SplitJoin(sorted);
      assert path[|PROFILE_PATH|..] == Join(",", sorted);
      path
    else
      path
  }

  /** The request of `get_company_info(tickers)`. Sorting first makes it independent of
      the order of the tickers, so that a response cache sees one request. */
  lemma CompanyInfoPathIgnoresOrder(tickers: seq<string>, others: seq<string>)
    requires multiset(tickers) == multiset(others)
    ensures CompanyInfoPath(tickers) == CompanyInfoPath(others)
  {
    StringOrder.SortIgnoresOrder(tickers, others);
  }

  /** The rows of a list when every element is a company profile. */
  function ProfileRows(items: seq<Item>): (r: Result<seq<CompanyRow>, ProviderError>)
    ensures r.Success? <==> forall i :: 0 <= i < |items| ==> items[i].ProfileItem?
    ensures r.Failure? ==> r.error == InvalidResponse
    ensures r.Success? ==> (|r.value| == |items| &&
      forall i :: 0 <= i < |items| ==> r.value[i] == items[i].profile)
    decreases |items|
  {
    if items == [] then Success([])
    else
      var n := |items| - 1;
      match ProfileRows(items[..n])
      case Failure(e) =>
        assert !items[..n][FirstNonProfile(items[..n])].ProfileItem?;
        Failure(e)
      case Success(rows) =>
        if items[n].ProfileItem? then Success(rows + [items[n].profile])
        else Failure(InvalidResponse)
  }

  /** The index of an element of a list that is not a company profile. */
  function FirstNonProfile(items: seq<Item>): (i: nat)
    requires exists i :: 0 <= i < |items| && !items[i].ProfileItem?
    ensures i < |items| && !items[i].ProfileItem?
  {
    if !items[0].ProfileItem? then 0
    else
      assert exists i :: 0 <= i < |items[1..]| && !items[1..][i].ProfileItem? by {
        var i :| 0 <= i < |items| && !items[i].ProfileItem?;
        assert items[1..][i - 1] == items[i];
      }
      1 + FirstNonProfile(items[1..])
  }

  /** `get_company_info(tickers)`: one request for all tickers; every profile returned is
      converted, in order. */
  function GetCompanyInfo(accessKey: string, http: Request -> Response, tickers: seq<string>): (r: Result<seq<CompanyInfo>, ProviderError>)
    ensures var json := GetJsonData(http, JsonRequest(accessKey, CompanyInfoPath(tickers), map[]));
      r.Success? <==> json.Success? && json.value.List? && ProfileRows(json.value.items).Success?
    ensures r.Success? ==>
      var items := http(JsonRequest(accessKey, CompanyInfoPath(tickers), map[])).body.items;
      |r.value| == |items| && forall i :: 0 <= i < |items| ==> r.value[i] == AsCompanyInfo(items[i].profile)
  {
    var json := GetJsonData(http, JsonRequest(accessKey, CompanyInfoPath(tickers), map[]));
    match json
    case Failure(e) => Failure(e)
    case Success(body) =>
      if !body.List? then Failure(InvalidResponse)
      else
        match ProfileRows(body.items)
        case Failure(e) => Failure(e)
        case Success(rows) => Success(seq(|rows|, i requires 0 <= i < |rows| => AsCompanyInfo(rows[i])))
  }

  /** `FmpCloud()` with its access key, talking to the API through `http`. */
  function FmpCloudProvider(accessKey: string, http: Request -> Response): (p: Provider)
    ensures forall t, k, g :: !Supported(k, g) ==> p.getStockValues(t, k, g) == Failure(UnsupportedSeries(k, g))
    ensures forall t, k, g :: p.getStockValues(t, k, g) == GetStockValues(accessKey, http, t, k, g)
    ensures forall ts :: p.getCompanyInfo(ts) == GetCompanyInfo(accessKey, http, ts)
  {
    Provider((t, k, g) => GetStockValues(accessKey, http, t, k, g),
             ts => GetCompanyInfo(accessKey, http, ts))
  }

  /** The company information of a list of tickers does not depend on their order. */
  lemma CompanyInfoIgnoresOrder(accessKey: string, http: Request -> Response, tickers: seq<string>, others: seq<string>)
    requires multiset(tickers) == multiset(others)
    ensures GetCompanyInfo(accessKey, http, tickers) == GetCompanyInfo(accessKey, http, others)
  {
    CompanyInfoPathIgnoresOrder(tickers, others);
  }
}
