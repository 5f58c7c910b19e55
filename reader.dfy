/** `FinancialDataReader`: imports company information and stock values from a
    provider into the storage, skipping values whose date lies within the span the
    storage already covers for their ticker. */
module Reader {
  import opened Wrappers
  import opened FinancialData
  import opened Providers
  import opened MongoDb
  import SeqUtil
  import BulkWrite
  import FmpCloud

  /** An exception escaping the reader: from the provider or from the storage. */
  datatype ReaderError = ProviderFailed(cause: ProviderError) | StorageFailed(failure: StorageError)

  /** The database after one step of the reader, and what the step returned or raised. */
  datatype Step<T> = Step(after: Collections, result: Result<T, ReaderError>)

  // ---------------------------------------------------------------------------
  // Fetching and filtering

  /** The call for `tickers[i]` fails and every call before it succeeds. */
  predicate FirstFailure(provider: Provider, tickers: seq<string>, kind: Kind, granularity: Granularity, i: int)
    requires 0 <= i < |tickers|
  {
    && provider.getStockValues(tickers[i], kind, granularity).Failure?
    && forall j :: 0 <= j < i ==> provider.getStockValues(tickers[j], kind, granularity).Success?
  }

  /** `{ticker: provider.get_stock_values(ticker, kind, granularity) for ticker in tickers}`:
      one call per ticker, in order; the first failure propagates. */
  function FetchAll(provider: Provider, tickers: seq<string>, kind: Kind, granularity: Granularity)
    : (r: Result<map<string, seq<StockValue>>, ProviderError>)
    ensures r.Success? <==> forall i :: 0 <= i < |tickers| ==> provider.getStockValues(tickers[i], kind, granularity).Success?
    ensures r.Success? ==> forall t :: t in r.value <==> t in tickers
    ensures r.Success? ==> forall t :: t in r.value ==> r.value[t] == provider.getStockValues(t, kind, granularity).value
    ensures r.Failure? ==> exists i :: 0 <= i < |tickers| && FirstFailure(provider, tickers, kind, granularity, i)
                                       && provider.getStockValues(tickers[i], kind, granularity) == Failure(r.error)
    decreases |tickers|
  {
    if tickers == [] then Success(map[])
    else
      var n := |tickers| - 1;
      var init := tickers[..n];
      assert tickers == init + [tickers[n]];
      match FetchAll(provider, init, kind, granularity)
      case Failure(e) =>
        var i :| 0 <= i < |init| && FirstFailure(provider, init, kind, granularity, i)
                 && provider.getStockValues(init[i], kind, granularity) == Failure(e);
        assert tickers[i] == init[i];
        assert FirstFailure(provider, tickers, kind, granularity, i) by {
          forall j | 0 <= j < i ensures provider.getStockValues(tickers[j], kind, granularity).Success? {
            assert tickers[j] == init[j];
          }
        }
        Failure(e)
      case Success(fetched) =>
        match provider.getStockValues(tickers[n], kind, granularity)
        case Failure(e) =>
          assert FirstFailure(provider, tickers, kind, granularity, n) by {
            forall j | 0 <= j < n ensures provider.getStockValues(tickers[j], kind, granularity).Success? {
              assert tickers[j] == init[j];
            }
          }
          Failure(e)
        case Success(values) => Success(fetched[tickers[n] := values])
  }

  /** A fetched value of `ticker` is kept when the storage has no value of that ticker,
      or when its date lies strictly after the latest or before the oldest stored one. */
  predicate Keep(v: StockValue, ticker: string, stats: map<string, StockCollectionStats>) {
    ticker !in stats || v.date > stats[ticker].latest || v.date < stats[ticker].oldest
  }

  /** The kept values of one ticker, in order. */
  function Filter(values: seq<StockValue>, ticker: string, stats: map<string, StockCollectionStats>)
    : (r: seq<StockValue>)
    ensures forall v :: v in r <==> v in values && Keep(v, ticker, stats)
    ensures |r| <= |values|
    decreases |values|
  {
    if values == [] then []
    else
      var n := |values| - 1;
      assert values == values[..n] + [values[n]];
      Filter(values[..n], ticker, stats) + (if Keep(values[n], ticker, stats) then [values[n]] else [])
  }

  /** The filter keeps every repeat of a kept value and none of a dropped one. */
  lemma {:induction false} FilterCounts(values: seq<StockValue>, ticker: string, stats: map<string, StockCollectionStats>)
    ensures forall v :: multiset(Filter(values, ticker, stats))[v] == if Keep(v, ticker, stats) then multiset(values)[v] else 0
    decreases |values|
  {
    if values != [] {
      var n := |values| - 1;
      FilterCounts(values[..n], ticker, stats);
      assert values == values[..n] + [values[n]];
    }
  }

  /** The positions of the values of one ticker that the filter drops. */
  function Dropped(values: seq<StockValue>, ticker: string, stats: map<string, StockCollectionStats>): set<nat> {
    set i: nat | i < |values| && !Keep(values[i], ticker, stats)
  }

  /** The filter keeps the order of the fetched values: it is the fetched list without
      the dropped positions. */
  lemma {:induction false} FilterKeepsOrder(values: seq<StockValue>, ticker: string,
                                            stats: map<string, StockCollectionStats>)
    ensures Filter(values, ticker, stats) == BulkWrite.Unreported(values, Dropped(values, ticker, stats))
    decreases |values|
  {
    if values != [] {
      var n := |values| - 1;
      FilterKeepsOrder(values[..n], ticker, stats);
      forall i: nat | i < n ensures i in Dropped(values[..n], ticker, stats) <==> i in Dropped(values, ticker, stats) {
        assert values[..n][i] == values[i];
      }
      BulkWrite.UnreportedAgrees(values[..n], Dropped(values[..n], ticker, stats), Dropped(values, ticker, stats));
    }
  }

  /** Every fetched value, ticker after ticker. */
  function AllValues(order: seq<string>, fetched: map<string, seq<StockValue>>): seq<StockValue>
    requires forall i :: 0 <= i < |order| ==> order[i] in fetched
    decreases |order|
  {
    if order == [] then []
    else
      var n := |order| - 1;
      AllValues(order[..n], fetched) + fetched[order[n]]
  }

  /** How often `v` is kept over all the tickers of `order`: for each ticker whose
      filter keeps `v`, the number of times the ticker's values hold it. */
  function KeptCount(order: seq<string>, fetched: map<string, seq<StockValue>>,
                     stats: map<string, StockCollectionStats>, v: StockValue): nat
    requires forall i :: 0 <= i < |order| ==> order[i] in fetched
    decreases |order|
  {
    if order == [] then 0
    else
      var n := |order| - 1;
      KeptCount(order[..n], fetched, stats, v)
      + (if Keep(v, order[n], stats) then multiset(fetched[order[n]])[v] else 0)
  }

  /** The kept values, ticker after ticker: the flattened filter of the reader. */
  function NewValues(order: seq<string>, fetched: map<string, seq<StockValue>>,
                     stats: map<string, StockCollectionStats>): (r: seq<StockValue>)
    requires forall i :: 0 <= i < |order| ==> order[i] in fetched
    ensures forall v :: v in r <==> exists i :: 0 <= i < |order| && v in fetched[order[i]] && Keep(v, order[i], stats)
    ensures |r| <= |AllValues(order, fetched)|
    decreases |order|
  {
    if order == [] then []
    else
      var n := |order| - 1;
      var init := order[..n];
      var prev := NewValues(init, fetched, stats);
      var last := Filter(fetched[order[n]], order[n], stats);
      KeptMembersSnoc(order, fetched, stats, prev, last);
      prev + last
  }

  /** The flattened list holds each value as often as the tickers that keep it hold it,
      in total. */
  lemma {:induction false} NewValuesCounts(order: seq<string>, fetched: map<string, seq<StockValue>>,
                                           stats: map<string, StockCollectionStats>)
    requires forall i :: 0 <= i < |order| ==> order[i] in fetched
    ensures forall v :: multiset(NewValues(order, fetched, stats))[v] == KeptCount(order, fetched, stats, v)
    decreases |order|
  {
    if order != [] {
      var n := |order| - 1;
      NewValuesCounts(order[..n], fetched, stats);
      FilterCounts(fetched[order[n]], order[n], stats);
      NewValuesUnfold(order, fetched, stats);
    }
  }

  /** The members of the kept values grow by the kept values of one more ticker. */
  lemma KeptMembersSnoc(order: seq<string>, fetched: map<string, seq<StockValue>>,
                        stats: map<string, StockCollectionStats>, prev: seq<StockValue>, last: seq<StockValue>)
    requires order != [] && forall i :: 0 <= i < |order| ==> order[i] in fetched
    requires var init := order[..|order| - 1];
      forall v :: v in prev <==> exists i :: 0 <= i < |init| && v in fetched[init[i]] && Keep(v, init[i], stats)
    requires forall v :: v in last <==> v in fetched[order[|order| - 1]] && Keep(v, order[|order| - 1], stats)
    ensures forall v :: v in prev + last <==> exists i :: 0 <= i < |order| && v in fetched[order[i]] && Keep(v, order[i], stats)
  {
    var n := |order| - 1;
    var init := order[..n];
    forall v ensures v in prev + last <==> exists i :: 0 <= i < |order| && v in fetched[order[i]] && Keep(v, order[i], stats) {
      if exists i :: 0 <= i < |order| && v in fetched[order[i]] && Keep(v, order[i], stats) {
        var i :| 0 <= i < |order| && v in fetched[order[i]] && Keep(v, order[i], stats);
        if i < n { assert init[i] == order[i]; }
      }
      if v in prev {
        var i :| 0 <= i < |init| && v in fetched[init[i]] && Keep(v, init[i], stats);
        assert order[i] == init[i];
      }
    }
  }

  /** Flattening keeps the ticker order: the kept values of the first tickers come
      before those of the next ones. */
  lemma {:induction false} NewValuesAppend(a: seq<string>, b: seq<string>, fetched: map<string, seq<StockValue>>,
                                           stats: map<string, StockCollectionStats>)
    requires forall i :: 0 <= i < |a| ==> a[i] in fetched
    requires forall i :: 0 <= i < |b| ==> b[i] in fetched
    ensures forall i :: 0 <= i < |a + b| ==> (a + b)[i] in fetched
    ensures NewValues(a + b, fetched, stats) == NewValues(a, fetched, stats) + NewValues(b, fetched, stats)
    decreases |b|
  {
    if b == [] {
      assert a + b == a;
    } else {
      var m := |b| - 1;
      var ab := a + b;
      assert ab[..|ab| - 1] == a + b[..m] && ab[|ab| - 1] == b[m];
      NewValuesAppend(a, b[..m], fetched, stats);
      NewValuesUnfold(ab, fetched, stats);
      NewValuesUnfold(b, fetched, stats);
      ConcatAssociates(NewValues(a, fetched, stats), NewValues(b[..m], fetched, stats),
                       Filter(fetched[b[m]], b[m], stats));
    }
  }

  /** One ticker contributes exactly its filtered list. */
  lemma NewValuesSingle(t: string, fetched: map<string, seq<StockValue>>, stats: map<string, StockCollectionStats>)
    requires t in fetched
    ensures NewValues([t], fetched, stats) == Filter(fetched[t], t, stats)
  {
    NewValuesUnfold([t], fetched, stats);
    assert [t][..0] == [];
  }

  lemma NewValuesUnfold(order: seq<string>, fetched: map<string, seq<StockValue>>, stats: map<string, StockCollectionStats>)
    requires order != [] && forall i :: 0 <= i < |order| ==> order[i] in fetched
    ensures var n := |order| - 1;
      NewValues(order, fetched, stats) == NewValues(order[..n], fetched, stats) + Filter(fetched[order[n]], order[n], stats)
  {
  }

  lemma ConcatAssociates(x: seq<StockValue>, y: seq<StockValue>, z: seq<StockValue>)
    ensures (x + y) + z == x + (y + z)
  {
  }

  /** Without statistics every value is kept. */
  lemma {:induction false} FilterWithoutStats(values: seq<StockValue>, ticker: string)
    ensures Filter(values, ticker, map[]) == values
    decreases |values|
  {
    if values != [] {
      var n := |values| - 1;
      FilterWithoutStats(values[..n], ticker);
      assert values[..n] + [values[n]] == values;
    }
  }

  /** When the storage holds nothing of a kind, every fetched value is kept, in order. */
  lemma {:induction false} NewValuesWithoutStats(order: seq<string>, fetched: map<string, seq<StockValue>>)
    requires forall i :: 0 <= i < |order| ==> order[i] in fetched
    ensures NewValues(order, fetched, map[]) == AllValues(order, fetched)
    decreases |order|
  {
    if order != [] {
      var n := |order| - 1;
      NewValuesWithoutStats(order[..n], fetched);
      FilterWithoutStats(fetched[order[n]], order[n]);
    }
  }

  /** The values of a ticker all within its stored span. */
  predicate Covered(values: seq<StockValue>, ticker: string, stats: map<string, StockCollectionStats>) {
    forall i :: 0 <= i < |values| ==>
      ticker in stats && stats[ticker].oldest <= values[i].date <= stats[ticker].latest
  }

  lemma {:induction false} FilterCovered(values: seq<StockValue>, ticker: string, stats: map<string, StockCollectionStats>)
    requires Covered(values, ticker, stats)
    ensures Filter(values, ticker, stats) == []
    decreases |values|
  {
    if values != [] {
      var n := |values| - 1;
      FilterCovered(values[..n], ticker, stats);
    }
  }

  /** When every fetched value lies within the stored span of its ticker, nothing is kept. */
  lemma {:induction false} NewValuesCovered(order: seq<string>, fetched: map<string, seq<StockValue>>,
                                            stats: map<string, StockCollectionStats>)
    requires forall i :: 0 <= i < |order| ==> order[i] in fetched && Covered(fetched[order[i]], order[i], stats)
    ensures NewValues(order, fetched, stats) == []
    decreases |order|
  {
    if order != [] {
      var n := |order| - 1;
      NewValuesCovered(order[..n], fetched, stats);
      FilterCovered(fetched[order[n]], order[n], stats);
    }
  }

  // ---------------------------------------------------------------------------
  // The steps of the reader, on a snapshot of the database

  /** `import_stock_values(tickers, kind, granularity)`: statistics read once, one
      provider call per ticker, the kept values flattened in the key order of the
      dictionary and inserted in one call when there are any; the kept values are
      returned. */
  function ImportStockValuesSpec(c: Collections, provider: Provider, validator: Document -> bool,
                                 tickers: seq<string>, kind: Kind, granularity: Granularity)
    : (s: Step<seq<StockValue>>)
    ensures s.result.Failure? ==> s.after == c && s.result.error.ProviderFailed?
    ensures s.result.Failure? <==> FetchAll(provider, tickers, kind, granularity).Failure?
    ensures s.result.Success? && s.result.value == [] ==> s.after == c
    ensures s.result.Success? && s.result.value != [] ==> s.after == StoreValues(c, kind, s.result.value, validator)
    ensures s.result.Success? ==> forall v :: v in s.result.value <==>
      exists i :: 0 <= i < |tickers| && v in provider.getStockValues(tickers[i], kind, granularity).value
                  && Keep(v, tickers[i], GetStats(c, kind))
    ensures s.result.Success? ==>
      var fetched := FetchAll(provider, tickers, kind, granularity).value;
      var order := SeqUtil.Distinct(tickers);
      && (forall i :: 0 <= i < |order| ==> order[i] in fetched)
      && forall v :: multiset(s.result.value)[v] == KeptCount(order, fetched, GetStats(c, kind), v)
  {
    var stats := GetStats(c, kind);
    match FetchAll(provider, tickers, kind, granularity)
    case Failure(e) => Step(c, Failure(ProviderFailed(e)))
    case Success(fetched) =>
      var order := SeqUtil.Distinct(tickers);
      var values := NewValues(order, fetched, stats);
      NewValuesCounts(order, fetched, stats);
      KeptFromTickers(provider, tickers, kind, granularity, fetched, stats, values);
      if values == [] then Step(c, Success([]))
      else
        match InsertValuesOutcome(c, kind, values, validator)
        case Failure(e) => Step(c, Failure(StorageFailed(e)))
        case Success(_) => Step(StoreValues(c, kind, values, validator), Success(values))
  }

  /** The kept values, stated over the requested tickers rather than the dictionary keys. */
  lemma KeptFromTickers(provider: Provider, tickers: seq<string>, kind: Kind, granularity: Granularity,
                        fetched: map<string, seq<StockValue>>, stats: map<string, StockCollectionStats>,
                        values: seq<StockValue>)
    requires FetchAll(provider, tickers, kind, granularity) == Success(fetched)
    requires forall i :: 0 <= i < |SeqUtil.Distinct(tickers)| ==> SeqUtil.Distinct(tickers)[i] in fetched
    requires values == NewValues(SeqUtil.Distinct(tickers), fetched, stats)
    ensures forall v :: v in values <==>
      exists i :: 0 <= i < |tickers| && v in provider.getStockValues(tickers[i], kind, granularity).value
                  && Keep(v, tickers[i], stats)
  {
    forall v ensures v in values <==>
      exists i :: 0 <= i < |tickers| && v in provider.getStockValues(tickers[i], kind, granularity).value
                  && Keep(v, tickers[i], stats)
    {
      if v in values {
        KeptFromSomeTicker(provider, tickers, kind, granularity, fetched, stats, v);
      }
      if exists i :: 0 <= i < |tickers| && v in provider.getStockValues(tickers[i], kind, granularity).value
                     && Keep(v, tickers[i], stats) {
        var i :| 0 <= i < |tickers| && v in provider.getStockValues(tickers[i], kind, granularity).value
                 && Keep(v, tickers[i], stats);
        KeptFromKey(provider, tickers, kind, granularity, fetched, stats, v, i);
      }
    }
  }

  lemma KeptFromSomeTicker(provider: Provider, tickers: seq<string>, kind: Kind, granularity: Granularity,
                           fetched: map<string, seq<StockValue>>, stats: map<string, StockCollectionStats>,
                           v: StockValue)
    requires FetchAll(provider, tickers, kind, granularity) == Success(fetched)
    requires forall i :: 0 <= i < |SeqUtil.Distinct(tickers)| ==> SeqUtil.Distinct(tickers)[i] in fetched
    requires v in NewValues(SeqUtil.Distinct(tickers), fetched, stats)
    ensures exists i :: 0 <= i < |tickers| && v in provider.getStockValues(tickers[i], kind, granularity).value
                        && Keep(v, tickers[i], stats)
  {
    var order := SeqUtil.Distinct(tickers);
    var i :| 0 <= i < |order| && v in fetched[order[i]] && Keep(v, order[i], stats);
    var j :| 0 <= j < |tickers| && tickers[j] == order[i];
    assert v in provider.getStockValues(tickers[j], kind, granularity).value;
  }

  lemma KeptFromKey(provider: Provider, tickers: seq<string>, kind: Kind, granularity: Granularity,
                    fetched: map<string, seq<StockValue>>, stats: map<string, StockCollectionStats>,
                    v: StockValue, i: int)
    requires FetchAll(provider, tickers, kind, granularity) == Success(fetched)
    requires forall i :: 0 <= i < |SeqUtil.Distinct(tickers)| ==> SeqUtil.Distinct(tickers)[i] in fetched
    requires 0 <= i < |tickers| && v in provider.getStockValues(tickers[i], kind, granularity).value
    requires Keep(v, tickers[i], stats)
    ensures v in NewValues(SeqUtil.Distinct(tickers), fetched, stats)
  {
    var order := SeqUtil.Distinct(tickers);
    var j :| 0 <= j < |order| && order[j] == tickers[i];
    assert v in fetched[order[j]];
  }

  /** `import_company_info(tickers)`: the provider's answer handed unchanged to
      `insert_company_infos`, whose result is returned. */
  function ImportCompanyInfoSpec(c: Collections, provider: Provider, tickers: seq<string>)
    : (s: Step<Option<nat>>)
    ensures provider.getCompanyInfo(tickers).Failure? ==>
      s == Step(c, Failure(ProviderFailed(provider.getCompanyInfo(tickers).error)))
    ensures provider.getCompanyInfo(tickers).Success? ==>
      var infos := provider.getCompanyInfo(tickers).value;
      && (infos == [] ==> s == Step(c, Failure(StorageFailed(EmptyDocumentList))))
      && (infos != [] ==> s.after == StoreCompanyInfos(c, infos) && s.result.Success?
                          && s.result.value == InsertCompanyInfosOutcome(c, infos).value)
  {
    match provider.getCompanyInfo(tickers)
    case Failure(e) => Step(c, Failure(ProviderFailed(e)))
    case Success(infos) =>
      match InsertCompanyInfosOutcome(c, infos)
      case Failure(e) => Step(c, Failure(StorageFailed(e)))
      case Success(n) => Step(StoreCompanyInfos(c, infos), Success(n))
  }

  /** The database and outcome of `run(tickers)`: company information, then daily
      close-only values, then 15-minute OHLC values, then daily OHLC values; the first
      step that raises ends the run, and what earlier steps wrote stays written. */
  function RunSpec(c: Collections, provider: Provider, validator: Document -> bool, tickers: seq<string>)
    : (s: Step<()>)
    ensures var s1 := ImportCompanyInfoSpec(c, provider, tickers);
      var s2 := ImportStockValuesSpec(s1.after, provider, validator, tickers, Simple, Coarse);
      var s3 := ImportStockValuesSpec(s2.after, provider, validator, tickers, Ohlc, Fine);
      var s4 := ImportStockValuesSpec(s3.after, provider, validator, tickers, Ohlc, Coarse);
      && (s.result.Success? <==> s1.result.Success? && s2.result.Success? && s3.result.Success? && s4.result.Success?)
      && (s.result.Success? ==> s.after == s4.after)
      && (s1.result.Failure? ==> s == Step(s1.after, Failure(s1.result.error)))
      && (s1.result.Success? && s2.result.Failure? ==> s == Step(s2.after, Failure(s2.result.error)))
      && (s1.result.Success? && s2.result.Success? && s3.result.Failure? ==>
            s == Step(s3.after, Failure(s3.result.error)))
      && (s1.result.Success? && s2.result.Success? && s3.result.Success? && s4.result.Failure? ==>
            s == Step(s4.after, Failure(s4.result.error)))
  {
    var s1 := ImportCompanyInfoSpec(c, provider, tickers);
    if s1.result.Failure? then Step(s1.after, Failure(s1.result.error))
    else
      var s2 := ImportStockValuesSpec(s1.after, provider, validator, tickers, Simple, Coarse);
      if s2.result.Failure? then Step(s2.after, Failure(s2.result.error))
      else
        var s3 := ImportStockValuesSpec(s2.after, provider, validator, tickers, Ohlc, Fine);
        if s3.result.Failure? then Step(s3.after, Failure(s3.result.error))
        else
          var s4 := ImportStockValuesSpec(s3.after, provider, validator, tickers, Ohlc, Coarse);
          if s4.result.Failure? then Step(s4.after, Failure(s4.result.error))
          else Step(s4.after, Success(()))
  }

  // ---------------------------------------------------------------------------
  // Properties of the reader

  /** An empty store keeps every fetched value: all of them go to one insert. */
  lemma EmptyStoreKeepsEverything(c: Collections, provider: Provider, validator: Document -> bool,
                                  tickers: seq<string>, kind: Kind, granularity: Granularity)
    requires c.Values(kind) == []
    requires FetchAll(provider, tickers, kind, granularity).Success?
    ensures var fetched := FetchAll(provider, tickers, kind, granularity).value;
      var order := SeqUtil.Distinct(tickers);
      ImportStockValuesSpec(c, provider, validator, tickers, kind, granularity).result
        == Success(AllValues(order, fetched))
  {
    var fetched := FetchAll(provider, tickers, kind, granularity).value;
    var order := SeqUtil.Distinct(tickers);
    assert GetStats(c, kind) == map[] by {
      assert TickersOf(c.Values(kind)) == {};
    }
    NewValuesWithoutStats(order, fetched);
  }

  /** When everything fetched lies within the stored span of its ticker, nothing is
      inserted and nothing is returned. */
  lemma CoveredFetchInsertsNothing(c: Collections, provider: Provider, validator: Document -> bool,
                                   tickers: seq<string>, kind: Kind, granularity: Granularity)
    requires FetchAll(provider, tickers, kind, granularity).Success?
    requires forall i :: 0 <= i < |tickers| ==>
      Covered(provider.getStockValues(tickers[i], kind, granularity).value, tickers[i], GetStats(c, kind))
    ensures ImportStockValuesSpec(c, provider, validator, tickers, kind, granularity) == Step(c, Success([]))
  {
    var fetched := FetchAll(provider, tickers, kind, granularity).value;
    var order := SeqUtil.Distinct(tickers);
    forall i | 0 <= i < |order| ensures order[i] in fetched && Covered(fetched[order[i]], order[i], GetStats(c, kind)) {
      var j :| 0 <= j < |tickers| && tickers[j] == order[i];
    }
    NewValuesCovered(order, fetched, GetStats(c, kind));
  }

  /** The values of each ticker carry that ticker. */
  predicate LabelsValues(provider: Provider, tickers: seq<string>, kind: Kind, granularity: Granularity) {
    forall i :: 0 <= i < |tickers| ==>
      var r := provider.getStockValues(tickers[i], kind, granularity);
      r.Success? ==> forall j :: 0 <= j < |r.value| ==> r.value[j].ticker == tickers[i]
  }

  /** A value whose ticker and date are already stored is never inserted again. */
  lemma StoredKeysNotReimported(c: Collections, provider: Provider, validator: Document -> bool,
                                tickers: seq<string>, kind: Kind, granularity: Granularity, w: StockValue)
    requires LabelsValues(provider, tickers, kind, granularity)
    requires w in c.Values(kind)
    ensures var s := ImportStockValuesSpec(c, provider, validator, tickers, kind, granularity);
      s.result.Success? ==> forall v :: v in s.result.value ==> ValueKey(v) != ValueKey(w)
  {
    var s := ImportStockValuesSpec(c, provider, validator, tickers, kind, granularity);
    var stats := GetStats(c, kind);
    if s.result.Success? {
      assert forall i :: 0 <= i < |tickers| ==> provider.getStockValues(tickers[i], kind, granularity).Success?;
      assert forall v :: v in s.result.value ==> Keep(v, v.ticker, stats) by {
        forall v | v in s.result.value ensures Keep(v, v.ticker, stats) {
          KeptUnderOwnTicker(provider, tickers, kind, granularity, stats, v);
        }
      }
      forall v | v in s.result.value ensures ValueKey(v) != ValueKey(w) {
        KeptValueIsNew(c, kind, v, v.ticker, w);
      }
    }
  }

  /** A value kept for one of the tickers is kept for its own ticker. */
  lemma KeptUnderOwnTicker(provider: Provider, tickers: seq<string>, kind: Kind, granularity: Granularity,
                           stats: map<string, StockCollectionStats>, v: StockValue)
    requires LabelsValues(provider, tickers, kind, granularity)
    requires exists i :: 0 <= i < |tickers| && provider.getStockValues(tickers[i], kind, granularity).Success?
                         && v in provider.getStockValues(tickers[i], kind, granularity).value
                         && Keep(v, tickers[i], stats)
    ensures Keep(v, v.ticker, stats)
  {
    var i :| 0 <= i < |tickers| && provider.getStockValues(tickers[i], kind, granularity).Success?
             && v in provider.getStockValues(tickers[i], kind, granularity).value
             && Keep(v, tickers[i], stats);
    var vs := provider.getStockValues(tickers[i], kind, granularity).value;
    var j :| 0 <= j < |vs| && vs[j] == v;
  }

  /** A kept value of a ticker differs in date from every stored value of that ticker. */
  lemma KeptValueIsNew(c: Collections, kind: Kind, v: StockValue, ticker: string, w: StockValue)
    requires Keep(v, ticker, GetStats(c, kind)) && v.ticker == ticker
    requires w in c.Values(kind)
    ensures ValueKey(v) != ValueKey(w)
  {
    var stats := GetStats(c, kind);
    if v.ticker == w.ticker {
      assert w.ticker in TickersOf(c.Values(kind));
      assert stats[w.ticker].oldest <= w.date <= stats[w.ticker].latest;
    }
  }

  /** `after` holds every value collection of `before` as a prefix: values were only
      appended. */
  predicate Extends(before: Collections, after: Collections) {
    forall k: Kind :: |before.Values(k)| <= |after.Values(k)| && after.Values(k)[..|before.Values(k)|] == before.Values(k)
  }

  /** No step of the reader removes or reorders stored data. */
  lemma ImportIsAppendOnly(c: Collections, provider: Provider, validator: Document -> bool,
                           tickers: seq<string>, kind: Kind, granularity: Granularity)
    ensures var after := ImportStockValuesSpec(c, provider, validator, tickers, kind, granularity).after;
      after.companyInfo == c.companyInfo && Extends(c, after)
  {
  }

  /** Importing company information leaves the stock values alone. */
  lemma ImportCompanyInfoKeepsValues(c: Collections, provider: Provider, tickers: seq<string>)
    ensures var after := ImportCompanyInfoSpec(c, provider, tickers).after;
      after.simple == c.simple && after.ohlc == c.ohlc
  {
  }

  /** `run` leaves every collection extended, never rewritten; in particular the
      15-minute OHLC values imported in the third step are still stored, in place,
      when the daily OHLC values arrive. */
  lemma RunIsAppendOnly(c: Collections, provider: Provider, validator: Document -> bool, tickers: seq<string>)
    ensures Extends(c, RunSpec(c, provider, validator, tickers).after)
    ensures var s1 := ImportCompanyInfoSpec(c, provider, tickers);
      var s2 := ImportStockValuesSpec(s1.after, provider, validator, tickers, Simple, Coarse);
      var s3 := ImportStockValuesSpec(s2.after, provider, validator, tickers, Ohlc, Fine);
      var after := RunSpec(c, provider, validator, tickers).after;
      s1.result.Success? && s2.result.Success? && s3.result.Success? ==>
        |s3.after.ohlc| <= |after.ohlc| && after.ohlc[..|s3.after.ohlc|] == s3.after.ohlc
  {
    var s1 := ImportCompanyInfoSpec(c, provider, tickers);
    var s2 := ImportStockValuesSpec(s1.after, provider, validator, tickers, Simple, Coarse);
    var s3 := ImportStockValuesSpec(s2.after, provider, validator, tickers, Ohlc, Fine);
    var s4 := ImportStockValuesSpec(s3.after, provider, validator, tickers, Ohlc, Coarse);
    ImportCompanyInfoKeepsValues(c, provider, tickers);
    assert Extends(c, s1.after) by {
      forall k: Kind ensures s1.after.Values(k) == c.Values(k) { }
    }
    ImportIsAppendOnly(s1.after, provider, validator, tickers, Simple, Coarse);
    ImportIsAppendOnly(s2.after, provider, validator, tickers, Ohlc, Fine);
    ImportIsAppendOnly(s3.after, provider, validator, tickers, Ohlc, Coarse);
    PrefixChain(c, s1.after, s2.after, s3.after, s4.after);
    RunEndsAfterAStep(c, provider, validator, tickers);
    assert s3.after.ohlc == s3.after.Values(Ohlc) && s4.after.ohlc == s4.after.Values(Ohlc);
  }

  /** `run` ends with the database left by its last step. */
  lemma RunEndsAfterAStep(c: Collections, provider: Provider, validator: Document -> bool, tickers: seq<string>)
    ensures var s1 := ImportCompanyInfoSpec(c, provider, tickers);
      var s2 := ImportStockValuesSpec(s1.after, provider, validator, tickers, Simple, Coarse);
      var s3 := ImportStockValuesSpec(s2.after, provider, validator, tickers, Ohlc, Fine);
      var s4 := ImportStockValuesSpec(s3.after, provider, validator, tickers, Ohlc, Coarse);
      var after := RunSpec(c, provider, validator, tickers).after;
      && after in {s1.after, s2.after, s3.after, s4.after}
      && (s1.result.Success? && s2.result.Success? && s3.result.Success? ==> after == s4.after)
  {
  }

  /** Appending twice is appending. */
  lemma ExtendsTransitive(a: Collections, b: Collections, c: Collections)
    requires Extends(a, b) && Extends(b, c)
    ensures Extends(a, c)
  {
    forall k: Kind ensures |a.Values(k)| <= |c.Values(k)| && c.Values(k)[..|a.Values(k)|] == a.Values(k) {
      assert c.Values(k)[..|b.Values(k)|][..|a.Values(k)|] == c.Values(k)[..|a.Values(k)|];
    }
  }

  lemma PrefixChain(c0: Collections, c1: Collections, c2: Collections, c3: Collections, c4: Collections)
    requires Extends(c0, c1) && Extends(c1, c2) && Extends(c2, c3) && Extends(c3, c4)
    ensures Extends(c0, c2) && Extends(c0, c3) && Extends(c0, c4)
  {
    ExtendsTransitive(c0, c1, c2);
    ExtendsTransitive(c0, c2, c3);
    ExtendsTransitive(c0, c3, c4);
  }

  // ---------------------------------------------------------------------------
  // The reader with the FMP Cloud provider

  /** The FMP Cloud provider has no daily OHLC series: the last step of `run` raises
      TypeError for any non-empty list of tickers, whatever the database holds. */
  lemma FmpCloudCoarseOhlcFails(c: Collections, accessKey: string, http: FmpCloud.Request -> FmpCloud.Response,
                                validator: Document -> bool, tickers: seq<string>)
    requires tickers != []
    ensures ImportStockValuesSpec(c, FmpCloud.FmpCloudProvider(accessKey, http), validator, tickers, Ohlc, Coarse)
      == Step(c, Failure(ProviderFailed(UnsupportedSeries(Ohlc, Coarse))))
  {
    var provider := FmpCloud.FmpCloudProvider(accessKey, http);
    assert !FmpCloud.Supported(Ohlc, Coarse);
    assert provider.getStockValues(tickers[0], Ohlc, Coarse).Failure?;
  }

  /** So `run` with the FMP Cloud provider never completes for a non-empty list of
      tickers: it stops at the first step that raises, at the latest at the fourth. */
  lemma FmpCloudRunNeverCompletes(c: Collections, accessKey: string, http: FmpCloud.Request -> FmpCloud.Response,
                                  validator: Document -> bool, tickers: seq<string>)
    requires tickers != []
    ensures RunSpec(c, FmpCloud.FmpCloudProvider(accessKey, http), validator, tickers).result.Failure?
  {
    var provider := FmpCloud.FmpCloudProvider(accessKey, http);
    var s1 := ImportCompanyInfoSpec(c, provider, tickers);
    var s2 := ImportStockValuesSpec(s1.after, provider, validator, tickers, Simple, Coarse);
    var s3 := ImportStockValuesSpec(s2.after, provider, validator, tickers, Ohlc, Fine);
    FmpCloudCoarseOhlcFails(s3.after, accessKey, http, validator, tickers);
  }

  // ---------------------------------------------------------------------------
  // The reader object

  /** `FinancialDataReader(provider, storage)`. */
  class FinancialDataReader {
    const provider: Provider
    const storage: MongoDbStorage

    constructor (provider: Provider, storage: MongoDbStorage)
      ensures this.provider == provider && this.storage == storage
    {
      this.provider := provider;
      this.storage := storage;
    }

    /** `import_company_info(tickers)`. */
    method ImportCompanyInfo(tickers: seq<string>) returns (r: Result<Option<nat>, ReaderError>)
      requires storage.Valid()
      modifies storage
      ensures storage.Valid()
      ensures var s := ImportCompanyInfoSpec(old(storage.collections), provider, tickers);
        storage.collections == s.after && r == s.result
    {
      var infos := provider.getCompanyInfo(tickers);
      if infos.Failure? {
        return Failure(ProviderFailed(infos.error));
      }
      var inserted := storage.InsertCompanyInfos(infos.value);
      if inserted.Failure? {
        return Failure(StorageFailed(inserted.error));
      }
      r := Success(inserted.value);
    }

    /** `import_stock_values(tickers, kind, granularity)`. */
    method ImportStockValues(tickers: seq<string>, kind: Kind, granularity: Granularity)
      returns (r: Result<seq<StockValue>, ReaderError>)
      requires storage.Valid()
      modifies storage
      ensures storage.Valid()
      ensures var s := ImportStockValuesSpec(old(storage.collections), provider, storage.validator, tickers, kind, granularity);
        storage.collections == s.after && r == s.result
    {
      var stats := GetStats(storage.collections, kind);
      var fetched := FetchAll(provider, tickers, kind, granularity);
      if fetched.Failure? {
        return Failure(ProviderFailed(fetched.error));
      }
      var values := NewValues(SeqUtil.Distinct(tickers), fetched.value, stats);
      if values != [] {
        var inserted := storage.InsertValues(values, kind);
        // A non-empty batch is never refused as a whole.
        assert inserted.Success?;
      }
      r := Success(values);
    }

    /** `run(tickers)`. */
    method Run(tickers: seq<string>) returns (r: Result<(), ReaderError>)
      requires storage.Valid()
      modifies storage
      ensures storage.Valid()
      ensures var s := RunSpec(old(storage.collections), provider, storage.validator, tickers);
        storage.collections == s.after && r == s.result
    {
      var infos := ImportCompanyInfo(tickers);
      if infos.Failure? {
        return Failure(infos.error);
      }
      var daily := ImportStockValues(tickers, Simple, Coarse);
      if daily.Failure? {
        return Failure(daily.error);
      }
      var fine := ImportStockValues(tickers, Ohlc, Fine);
      if fine.Failure? {
        return Failure(fine.error);
      }
      var coarse := ImportStockValues(tickers, Ohlc, Coarse);
      if coarse.Failure? {
        return Failure(coarse.error);
      }
      r := Success(());
    }
  }
}
