/** The MongoDB storage engine (src/opa/storage/mongodb.py): one collection of stock
    values per kind and one collection of company information, bulk inserts whose
    failures are classified from the driver's error report, and the read-only queries. */
module MongoDb {
  import opened Wrappers
  import opened FinancialData
  import opened BulkWrite
  import SeqUtil

  // ---------------------------------------------------------------------------
  // Documents

  /** A field value of a stored document. There is no null: absent fields are omitted. */
  datatype Field = Text(text: string) | Date(instant: Instant) | Float(price: Price) | Integer(number: int)

  type Document = map<string, Field>

  /** The document written for a stock value: its fields, without those that are None. */
  function ToDocument(v: StockValue): (d: Document)
    ensures d.Keys == {"ticker", "date", "close", "interval"}
                      + (if v.open.Some? then {"open"} else {})
                      + (if v.low.Some? then {"low"} else {})
                      + (if v.high.Some? then {"high"} else {})
                      + (if v.volume.Some? then {"volume"} else {})
  {
    var d := map["ticker" := Text(v.ticker), "date" := Date(v.date), "close" := Float(v.close),
                 "interval" := Integer(v.interval)];
    var d := if v.open.Some? then d["open" := Float(v.open.value)] else d;
    var d := if v.low.Some? then d["low" := Float(v.low.value)] else d;
    var d := if v.high.Some? then d["high" := Float(v.high.value)] else d;
    if v.volume.Some? then d["volume" := Integer(v.volume.value)] else d
  }

  function OptionalPrice(d: Document, name: string): Option<Option<Price>> {
    if name !in d then Some(None)
    else if d[name].Float? then Some(Some(d[name].price))
    else None
  }

  /** `StockValue(**d)`: rebuild a stock value from a document; fields it does not know
      (such as the store's `_id`) are ignored, a missing optional field is None, a
      missing or mistyped required field fails validation. */
  function FromDocument(d: Document): (r: Option<StockValue>)
    ensures r.Some? ==> "ticker" in d && d["ticker"] == Text(r.value.ticker)
    ensures r.Some? ==> "date" in d && d["date"] == Date(r.value.date)
  {
    if && "ticker" in d && d["ticker"].Text?
       && "date" in d && d["date"].Date?
       && "close" in d && d["close"].Float?
       && "interval" in d && d["interval"].Integer?
       && OptionalPrice(d, "open").Some?
       && OptionalPrice(d, "low").Some?
       && OptionalPrice(d, "high").Some?
       && ("volume" !in d || d["volume"].Integer?)
    then
      Some(StockValue(d["ticker"].text, d["date"].instant, d["close"].price, d["interval"].number,
                      OptionalPrice(d, "open").value, OptionalPrice(d, "low").value,
                      OptionalPrice(d, "high").value,
                      if "volume" in d then Some(d["volume"].number) else None))
    else None
  }

  /** Reading back a stored document gives the value that was written. */
  lemma DocumentRoundTrip(v: StockValue)
    ensures FromDocument(ToDocument(v)) == Some(v)
  {
    var d := ToDocument(v);
    assert d["ticker"] == Text(v.ticker) && d["date"] == Date(v.date);
    assert d["close"] == Float(v.close) && d["interval"] == Integer(v.interval);
    assert v.open.Some? ==> d["open"] == Float(v.open.value);
    assert v.low.Some? ==> d["low"] == Float(v.low.value);
    assert v.high.Some? ==> d["high"] == Float(v.high.value);
    assert v.volume.Some? ==> d["volume"] == Integer(v.volume.value);
  }

  // ---------------------------------------------------------------------------
  // Collections

  /** The unique key of a stock value document: (ticker, date). */
  function ValueKey(v: StockValue): (string, Instant) {
    (v.ticker, v.date)
  }

  /** The unique key of a company-info document. */
  function Symbol(info: CompanyInfo): string {
    info.symbol
  }

  /** The key pattern the store reports for a duplicate (ticker, date). */
  const TICKER_DATE: set<string> := {"ticker", "date"}
  const SYMBOL: set<string> := {"symbol"}

  /** The company-info collection has no validator in this model. */
  function AnyCompanyInfo(info: CompanyInfo): bool {
    true
  }

  /** The schema validator of the value collections, applied to the written document. */
  function Validates(validator: Document -> bool): StockValue -> bool {
    v => validator(ToDocument(v))
  }

  /** The contents of the database: `self.collections`. */
  datatype Collections = Collections(simple: seq<StockValue>, ohlc: seq<StockValue>, companyInfo: seq<CompanyInfo>) {
    function Values(kind: Kind): seq<StockValue> {
      match kind
      case Simple => simple
      case Ohlc => ohlc
    }

    /** The same database with the collection of `kind` replaced. */
    function WithValues(kind: Kind, values: seq<StockValue>): (c: Collections)
      ensures c.Values(kind) == values && c.companyInfo == companyInfo
      ensures forall other: Kind :: other != kind ==> c.Values(other) == Values(other)
    {
      match kind
      case Simple => this.(simple := values)
      case Ohlc => this.(ohlc := values)
    }

    /** The unique indexes hold. */
    predicate Valid() {
      && UniqueKeys(simple, ValueKey)
      && UniqueKeys(ohlc, ValueKey)
      && UniqueKeys(companyInfo, Symbol)
    }
  }

  // ---------------------------------------------------------------------------
  // Classification of bulk-write errors

  /** `BulkWriteError`: its code and the `nInserted` and `writeErrors` of its details. */
  datatype BulkWriteError = BulkWriteError(code: int, nInserted: nat, writeErrors: seq<WriteError>)

  /** What the handler of a code-65 error computes (and logs). */
  datatype ErrorReport = ErrorReport(nInserted: nat, expectedDuplicates: nat, unexpectedDuplicates: nat, validationErrors: nat)

  /** `Counter(e["code"] for e in write_errors)`. */
  function CodeCounter(errors: seq<WriteError>): multiset<int>
    decreases |errors|
  {
    if errors == [] then multiset{}
    else CodeCounter(errors[..|errors| - 1]) + multiset{errors[|errors| - 1].code}
  }

  /** `Counter(frozenset(e["keyPattern"].keys()) for e in write_errors if e["code"] == 11000)`. */
  function DuplicateCounter(errors: seq<WriteError>): multiset<set<string>>
    decreases |errors|
  {
    if errors == [] then multiset{}
    else
      var e := errors[|errors| - 1];
      DuplicateCounter(errors[..|errors| - 1])
      + (if e.code == DUPLICATE_KEY_ERROR then multiset{e.keyPattern} else multiset{})
  }

  /** The write errors at the indexes satisfying a code (and, for duplicates, a pattern). */
  function IndexesWithCode(errors: seq<WriteError>, code: int): set<nat> {
    set i: nat | i < |errors| && errors[i].code == code
  }

  function DuplicateIndexes(errors: seq<WriteError>, pattern: set<string>): set<nat> {
    set i: nat | i < |errors| && errors[i].code == DUPLICATE_KEY_ERROR && errors[i].keyPattern == pattern
  }

  /** One more write error adds one to the count of its code. */
  lemma CodeCounterSnoc(errors: seq<WriteError>, code: int)
    requires errors != []
    ensures var n := |errors| - 1;
      CodeCounter(errors)[code] == CodeCounter(errors[..n])[code] + (if errors[n].code == code then 1 else 0)
  {
  }

  /** One more write error adds one to the count of its pattern when it is a duplicate. */
  lemma DuplicateCounterSnoc(errors: seq<WriteError>, pattern: set<string>)
    requires errors != []
    ensures var n := |errors| - 1;
      var e := errors[n];
      DuplicateCounter(errors)[pattern]
        == DuplicateCounter(errors[..n])[pattern] + (if e.code == DUPLICATE_KEY_ERROR && e.keyPattern == pattern then 1 else 0)
  {
  }

  /** One more write error adds its own index to the indexes with its code. */
  lemma IndexesWithCodeSnoc(errors: seq<WriteError>, code: int)
    requires errors != []
    ensures var n := |errors| - 1;
      |IndexesWithCode(errors, code)| == |IndexesWithCode(errors[..n], code)| + (if errors[n].code == code then 1 else 0)
  {
    var n := |errors| - 1;
    var prefix := errors[..n];
    var before := IndexesWithCode(prefix, code);
    var added: set<nat> := if errors[n].code == code then {n} else {};
    assert IndexesWithCode(errors, code) == before + added by {
      forall i: nat | i < n ensures errors[i] == prefix[i] { }
    }
    assert n !in before;
  }

  /** The code counter counts, for every code, exactly the write errors with that code. */
  lemma {:induction false} CodeCounterCounts(errors: seq<WriteError>, code: int)
    ensures CodeCounter(errors)[code] == |IndexesWithCode(errors, code)|
    decreases |errors|
  {
    if errors != [] {
      CodeCounterCounts(errors[..|errors| - 1], code);
      CodeCounterSnoc(errors, code);
      IndexesWithCodeSnoc(errors, code);
    }
  }

  /** One more write error adds its own index to the duplicates with its pattern. */
  lemma DuplicateIndexesSnoc(errors: seq<WriteError>, pattern: set<string>)
    requires errors != []
    ensures var n := |errors| - 1;
      var e := errors[n];
      |DuplicateIndexes(errors, pattern)| == |DuplicateIndexes(errors[..n], pattern)|
        + (if e.code == DUPLICATE_KEY_ERROR && e.keyPattern == pattern then 1 else 0)
  {
    var n := |errors| - 1;
    var prefix := errors[..n];
    var before := DuplicateIndexes(prefix, pattern);
    var e := errors[n];
    var added: set<nat> := if e.code == DUPLICATE_KEY_ERROR && e.keyPattern == pattern then {n} else {};
    assert DuplicateIndexes(errors, pattern) == before + added by {
      forall i: nat | i < n ensures errors[i] == prefix[i] { }
    }
    assert n !in before;
  }

  /** The duplicate counter counts, for every pattern, exactly the duplicate-key errors
      reported with that key pattern. */
  lemma {:induction false} DuplicateCounterCounts(errors: seq<WriteError>, pattern: set<string>)
    ensures DuplicateCounter(errors)[pattern] == |DuplicateIndexes(errors, pattern)|
    decreases |errors|
  {
    if errors != [] {
      DuplicateCounterCounts(errors[..|errors| - 1], pattern);
      DuplicateCounterSnoc(errors, pattern);
      DuplicateIndexesSnoc(errors, pattern);
    }
  }

  /** Duplicates with a given key pattern are among the duplicate-key errors, so the
      number of unexpected duplicates is never negative. */
  lemma {:induction false} DuplicatesWithinDuplicateKeyErrors(errors: seq<WriteError>, pattern: set<string>)
    ensures DuplicateCounter(errors)[pattern] <= CodeCounter(errors)[DUPLICATE_KEY_ERROR]
    decreases |errors|
  {
    if errors != [] {
      DuplicatesWithinDuplicateKeyErrors(errors[..|errors| - 1], pattern);
    }
  }

  /** The `except BulkWriteError` handler of `insert_values`: any code other than 65 is
      re-raised; for 65 the report counts the expected duplicates (key pattern
      {ticker, date}), the other duplicates and the validation failures. Write errors
      with any other code are not counted and do not raise. */
  function Classify(err: BulkWriteError): (r: Result<ErrorReport, BulkWriteError>)
    ensures r.Failure? <==> err.code != MULTIPLE_ERRORS_OCCURRED_ERROR
    ensures r.Failure? ==> r.error == err
    ensures r.Success? ==> r.value.nInserted == err.nInserted
    ensures r.Success? ==>
      r.value.expectedDuplicates + r.value.unexpectedDuplicates
      == |IndexesWithCode(err.writeErrors, DUPLICATE_KEY_ERROR)|
    ensures r.Success? ==>
      r.value.expectedDuplicates == |DuplicateIndexes(err.writeErrors, TICKER_DATE)|
    ensures r.Success? ==>
      r.value.validationErrors == |IndexesWithCode(err.writeErrors, DOCUMENT_VALIDATION_FAILURE_ERROR)|
  {
    if err.code != MULTIPLE_ERRORS_OCCURRED_ERROR then Failure(err)
    else
      var codes := CodeCounter(err.writeErrors);
      var duplicates := DuplicateCounter(err.writeErrors);
      DuplicatesWithinDuplicateKeyErrors(err.writeErrors, TICKER_DATE);
      CodeCounterCounts(err.writeErrors, DUPLICATE_KEY_ERROR);
      CodeCounterCounts(err.writeErrors, DOCUMENT_VALIDATION_FAILURE_ERROR);
      DuplicateCounterCounts(err.writeErrors, TICKER_DATE);
      Success(ErrorReport(
        err.nInserted,
        duplicates[TICKER_DATE],
        codes[DUPLICATE_KEY_ERROR] - duplicates[TICKER_DATE],
        codes[DOCUMENT_VALIDATION_FAILURE_ERROR]))
  }

  // ---------------------------------------------------------------------------
  // Inserting stock values

  /** Exceptions that escape a storage call: pymongo's TypeError for an empty batch,
      and a bulk-write error that is re-raised. */
  datatype StorageError = EmptyDocumentList | Raised(err: BulkWriteError)

  /** What a call to `insert_values` yields: the driver's result when every document
      was written, or the report of the handled bulk-write error. */
  datatype InsertSummary = AllInserted(count: nat) | PartiallyInserted(report: ErrorReport)

  /** The store's answer to `insert_many` on the collection of values: key (ticker,
      date), the schema validator applied to the serialised document. */
  function BulkInsertValues(coll: seq<StockValue>, values: seq<StockValue>,
                            validator: Document -> bool): BulkResult<StockValue>
  {
    InsertMany(coll, values, ValueKey, Validates(validator), TICKER_DATE)
  }

  /** The database after `insert_values(values, kind)`; pymongo refuses an empty batch
      before contacting the store. */
  function StoreValues(c: Collections, kind: Kind, values: seq<StockValue>,
                       validator: Document -> bool): (after: Collections)
    ensures c.Valid() ==> after.Valid()
    ensures after.companyInfo == c.companyInfo
    ensures forall k: Kind :: |c.Values(k)| <= |after.Values(k)| && after.Values(k)[..|c.Values(k)|] == c.Values(k)
    ensures forall k: Kind :: k != kind ==> after.Values(k) == c.Values(k)
  {
    if values == [] then c
    else c.WithValues(kind, BulkInsertValues(c.Values(kind), values, validator).stored)
  }

  /** A write error as the store reports them: a validation failure, or a duplicate of
      the collection's unique key. */
  predicate StoreShaped(e: WriteError, pattern: set<string>) {
    || e.code == DOCUMENT_VALIDATION_FAILURE_ERROR
    || (e.code == DUPLICATE_KEY_ERROR && e.keyPattern == pattern)
  }

  /** In a report of the store, each write error is a validation failure or a duplicate
      of the collection's own key, so both kinds together account for every error. */
  lemma {:induction false} StoreErrorsSplit(errors: seq<WriteError>, pattern: set<string>)
    requires forall i :: 0 <= i < |errors| ==> StoreShaped(errors[i], pattern)
    ensures CodeCounter(errors)[DUPLICATE_KEY_ERROR] == DuplicateCounter(errors)[pattern]
    ensures CodeCounter(errors)[DOCUMENT_VALIDATION_FAILURE_ERROR] + DuplicateCounter(errors)[pattern] == |errors|
    decreases |errors|
  {
    if errors != [] {
      var n := |errors| - 1;
      var init := errors[..n];
      assert forall i :: 0 <= i < |init| ==> init[i] == errors[i];
      StoreErrorsSplit(init, pattern);
      assert StoreShaped(errors[n], pattern);
      CodeCounterSnoc(errors, DUPLICATE_KEY_ERROR);
      CodeCounterSnoc(errors, DOCUMENT_VALIDATION_FAILURE_ERROR);
      DuplicateCounterSnoc(errors, pattern);
    }
  }

  /** The outcome of `insert_values(values, kind)`. The driver reports every partial
      failure of `insert_many` with code 65, so a non-empty batch never raises. */
  function InsertValuesOutcome(c: Collections, kind: Kind, values: seq<StockValue>,
                               validator: Document -> bool): (r: Result<InsertSummary, StorageError>)
    ensures r.Failure? <==> values == []
    ensures r.Failure? ==> r.error == EmptyDocumentList
    ensures r.Success? && r.value.AllInserted? ==>
      r.value.count == |values| && StoreValues(c, kind, values, validator).Values(kind) == c.Values(kind) + values
    ensures r.Success? && r.value.PartiallyInserted? ==>
      var report := r.value.report;
      && report.unexpectedDuplicates == 0
      && report.nInserted + report.expectedDuplicates + report.validationErrors == |values|
      && report.nInserted < |values|
      && |StoreValues(c, kind, values, validator).Values(kind)| == |c.Values(kind)| + report.nInserted
  {
    if values == [] then Failure(EmptyDocumentList)
    else
      var w := BulkInsertValues(c.Values(kind), values, validator);
      if w.writeErrors == [] then
        InsertManyWithoutErrors(c.Values(kind), values, ValueKey, Validates(validator), TICKER_DATE);
        Success(AllInserted(w.nInserted))
      else
        assert forall i :: 0 <= i < |w.writeErrors| ==> StoreShaped(w.writeErrors[i], TICKER_DATE) by {
          forall i | 0 <= i < |w.writeErrors| ensures StoreShaped(w.writeErrors[i], TICKER_DATE) {
            assert w.writeErrors[i] in w.writeErrors;
          }
        }
        StoreErrorsSplit(w.writeErrors, TICKER_DATE);
        CodeCounterCounts(w.writeErrors, DUPLICATE_KEY_ERROR);
        CodeCounterCounts(w.writeErrors, DOCUMENT_VALIDATION_FAILURE_ERROR);
        DuplicateCounterCounts(w.writeErrors, TICKER_DATE);
        match Classify(BulkWriteError(MULTIPLE_ERRORS_OCCURRED_ERROR, w.nInserted, w.writeErrors))
        case Success(report) => Success(PartiallyInserted(report))
        case Failure(e) => Failure(Raised(e))
  }

  /** Idempotence: inserting the same values again leaves the database unchanged; the
      store reports every value as an expected duplicate or a validation failure. */
  lemma ReinsertingValuesChangesNothing(c: Collections, kind: Kind, values: seq<StockValue>,
                                        validator: Document -> bool)
    requires values != []
    ensures var once := StoreValues(c, kind, values, validator);
      && StoreValues(once, kind, values, validator) == once
      && InsertValuesOutcome(once, kind, values, validator).Success?
      && InsertValuesOutcome(once, kind, values, validator).value.PartiallyInserted?
      && InsertValuesOutcome(once, kind, values, validator).value.report.nInserted == 0
      && InsertValuesOutcome(once, kind, values, validator).value.report.validationErrors
         == |values| - |Accepted(values, Validates(validator))|
      && InsertValuesOutcome(once, kind, values, validator).value.report.expectedDuplicates
         == |Accepted(values, Validates(validator))|
  {
    var once := StoreValues(c, kind, values, validator);
    var accepts := Validates(validator);
    InsertManyTwice(c.Values(kind), values, ValueKey, accepts, TICKER_DATE);
    assert once.WithValues(kind, once.Values(kind)) == once;
    var errors := BulkInsertValues(once.Values(kind), values, validator).writeErrors;
    ValidationErrorsAreRejections(once.Values(kind), values, ValueKey, accepts, TICKER_DATE);
    CodeCounterCounts(errors, DOCUMENT_VALIDATION_FAILURE_ERROR);
  }

  /** The store reports one validation failure per document the validator rejects. */
  lemma {:induction false} ValidationErrorsAreRejections<T, K>(coll: seq<T>, docs: seq<T>, key: T -> K,
                                                                  accepts: T -> bool, keyPattern: set<string>)
    ensures CodeCounter(InsertMany(coll, docs, key, accepts, keyPattern).writeErrors)[DOCUMENT_VALIDATION_FAILURE_ERROR]
      == |docs| - |Accepted(docs, accepts)|
    decreases |docs|
  {
    if docs != [] {
      var n := |docs| - 1;
      var errors := InsertMany(coll, docs, key, accepts, keyPattern).writeErrors;
      var prev := InsertMany(coll, docs[..n], key, accepts, keyPattern).writeErrors;
      ValidationErrorsAreRejections(coll, docs[..n], key, accepts, keyPattern);
      InsertManyLastError(coll, docs, key, accepts, keyPattern);
      if errors != prev {
        assert errors[..|errors| - 1] == prev;
        CodeCounterSnoc(errors, DOCUMENT_VALIDATION_FAILURE_ERROR);
      }
    }
  }

  // ---------------------------------------------------------------------------
  // Reading stock values

  /** `find({"ticker": ticker})`: the values of one ticker, in the collection's order. */
  function ValuesFor(coll: seq<StockValue>, ticker: string): (r: seq<StockValue>)
    ensures forall v :: v in r <==> v in coll && v.ticker == ticker
    ensures multiset(r) <= multiset(coll)
    decreases |coll|
  {
    if coll == [] then []
    else
      var n := |coll| - 1;
      assert coll == coll[..n] + [coll[n]];
      ValuesFor(coll[..n], ticker) + (if coll[n].ticker == ticker then [coll[n]] else [])
  }

  /** Most recent first. */
  predicate NewestFirst(s: seq<StockValue>) {
    forall i, j :: 0 <= i < j < |s| ==> s[i].date >= s[j].date
  }

  function InsertNewestFirst(v: StockValue, s: seq<StockValue>): (r: seq<StockValue>)
    requires NewestFirst(s)
    ensures NewestFirst(r)
    ensures multiset(r) == multiset(s) + multiset{v}
    ensures |r| == |s| + 1 && (r[0] == v || (s != [] && r[0] == s[0]))
  {
    if s == [] || v.date >= s[0].date then [v] + s
    else
      assert s == [s[0]] + s[1..];
      [s[0]] + InsertNewestFirst(v, s[1..])
  }

  /** `.sort("date", -1)`. */
  function SortNewestFirst(s: seq<StockValue>): (r: seq<StockValue>)
    ensures NewestFirst(r)
    ensures multiset(r) == multiset(s)
  {
    if s == [] then []
    else
      assert s == [s[0]] + s[1..];
      InsertNewestFirst(s[0], SortNewestFirst(s[1..]))
  }

  lemma SameElements(a: seq<StockValue>, b: seq<StockValue>)
    requires multiset(a) == multiset(b)
    ensures |a| == |b|
    ensures forall x :: x in a <==> x in b
  {
    assert |multiset(a)| == |multiset(b)|;
    forall x ensures x in a <==> x in b {
      assert x in a <==> x in multiset(a);
      assert x in b <==> x in multiset(b);
    }
  }

  /** The first `limit` values of a newest-first sequence are at least as recent as
      every value after them. */
  lemma PrefixIsNewest(sorted: seq<StockValue>, limit: nat)
    requires NewestFirst(sorted) && limit <= |sorted|
    ensures forall v :: v in sorted && v !in sorted[..limit] ==>
                        forall w :: w in sorted[..limit] ==> v.date <= w.date
  {
    forall v, w | v in sorted && v !in sorted[..limit] && w in sorted[..limit]
      ensures v.date <= w.date
    {
      var k :| 0 <= k < |sorted| && sorted[k] == v;
      var j :| 0 <= j < limit && sorted[..limit][j] == w;
    }
  }

  /** `get_values(ticker, kind, limit=500)`: the values of the ticker, most recent
      first, at most `limit` of them (a limit of 0 means no limit); those left out are
      not more recent than any returned. */
  function GetValues(c: Collections, ticker: string, kind: Kind, limit: nat := 500): (r: seq<StockValue>)
    ensures forall v :: v in r ==> v in c.Values(kind) && v.ticker == ticker
    ensures NewestFirst(r)
    ensures |r| == if limit == 0 || |ValuesFor(c.Values(kind), ticker)| <= limit
                   then |ValuesFor(c.Values(kind), ticker)| else limit
    ensures forall v :: v in c.Values(kind) && v.ticker == ticker && v !in r ==>
                        forall w :: w in r ==> v.date <= w.date
  {
    var found := ValuesFor(c.Values(kind), ticker);
    var sorted := SortNewestFirst(found);
    SameElements(sorted, found);
    if limit == 0 || |sorted| <= limit then sorted
    else
      PrefixIsNewest(sorted, limit);
      sorted[..limit]
  }

  // ---------------------------------------------------------------------------
  // Coverage statistics

  /** The tickers with at least one value in a collection. */
  function TickersOf(coll: seq<StockValue>): set<string> {
    set v | v in coll :: v.ticker
  }

  /** `s` describes the values of ticker `t` in `coll`: their latest and oldest dates
      and their number. */
  predicate Describes(s: StockCollectionStats, coll: seq<StockValue>, t: string) {
    && s.oldest <= s.latest
    && s.count == |ValuesFor(coll, t)| >= 1
    && (forall v :: v in coll && v.ticker == t ==> s.oldest <= v.date <= s.latest)
    && (exists v :: v in coll && v.ticker == t && v.date == s.latest)
    && (exists v :: v in coll && v.ticker == t && v.date == s.oldest)
  }

  lemma StatsOfTicker(coll: seq<StockValue>, t: string)
    requires t in TickersOf(coll)
    ensures ValuesFor(coll, t) != []
    ensures Describes(StatsOf(ValuesFor(coll, t)), coll, t)
  {
    var found := ValuesFor(coll, t);
    var w :| w in coll && w.ticker == t;
    assert w in found;
    var s := StatsOf(found);
    forall v | v in coll && v.ticker == t ensures s.oldest <= v.date <= s.latest {
      assert v in found;
    }
    var i :| 0 <= i < |found| && found[i].date == s.latest;
    assert found[i] in found;
    var j :| 0 <= j < |found| && found[j].date == s.oldest;
    assert found[j] in found;
  }

  /** Every ticker present in a collection has values. */
  lemma TickersHaveValues(coll: seq<StockValue>)
    ensures forall t :: t in TickersOf(coll) ==> ValuesFor(coll, t) != []
  {
    forall t | t in TickersOf(coll) ensures ValuesFor(coll, t) != [] {
      var v :| v in coll && v.ticker == t;
      assert v in ValuesFor(coll, t);
    }
  }

  /** The `$group` stage: per ticker, the statistics of its values. */
  function GroupByTicker(coll: seq<StockValue>): map<string, StockCollectionStats> {
    TickersHaveValues(coll);
    map t | t in TickersOf(coll) :: StatsOf(ValuesFor(coll, t))
  }

  lemma GroupByTickerDescribes(coll: seq<StockValue>)
    ensures GroupByTicker(coll).Keys == TickersOf(coll)
    ensures forall t :: t in GroupByTicker(coll) ==> Describes(GroupByTicker(coll)[t], coll, t)
  {
    var m := GroupByTicker(coll);
    forall t | t in m ensures Describes(m[t], coll, t) {
      StatsOfTicker(coll, t);
    }
  }

  /** `get_stats(kind)`: group the values by ticker into (latest, oldest, count). A
      ticker with no value has no entry. */
  function GetStats(c: Collections, kind: Kind): (r: map<string, StockCollectionStats>)
    ensures r.Keys == TickersOf(c.Values(kind))
    ensures forall t :: t in r ==> Describes(r[t], c.Values(kind), t)
  {
    GroupByTickerDescribes(c.Values(kind));
    GroupByTicker(c.Values(kind))
  }

  lemma {:induction false} ValuesForSingleTicker(serie: seq<StockValue>, ticker: string)
    requires forall i :: 0 <= i < |serie| ==> serie[i].ticker == ticker
    ensures ValuesFor(serie, ticker) == serie
    decreases |serie|
  {
    if serie != [] {
      var n := |serie| - 1;
      var init := serie[..n];
      assert serie == init + [serie[n]];
      ValuesForSingleTicker(init, ticker);
      assert ValuesFor(serie, ticker) == ValuesFor(init, ticker) + [serie[n]];
    }
  }

  /** The value collection that receives a series of one ticker is that series. */
  lemma SerieStored(c: Collections, kind: Kind, serie: seq<StockValue>, validator: Document -> bool)
    requires c.Values(kind) == [] && serie != []
    requires forall i :: 0 <= i < |serie| ==> validator(ToDocument(serie[i]))
    requires forall i, j :: 0 <= i < j < |serie| ==> ValueKey(serie[i]) != ValueKey(serie[j])
    ensures StoreValues(c, kind, serie, validator).Values(kind) == serie
  {
    var accepts := Validates(validator);
    AcceptedAll(serie, accepts);
    InsertManyIsolatesFailures([], serie, ValueKey, accepts, TICKER_DATE);
  }

  /** A series of one ticker inserted into an empty collection reads back as its
      statistics (oldest = min date, latest = max date, count = size) and, when it
      has at most `limit` values, as the whole series newest first. */
  lemma InsertedSerieReadsBack(c: Collections, kind: Kind, ticker: string, serie: seq<StockValue>,
                               validator: Document -> bool, limit: nat)
    requires c.Values(kind) == [] && serie != []
    requires forall i :: 0 <= i < |serie| ==> serie[i].ticker == ticker && validator(ToDocument(serie[i]))
    requires forall i, j :: 0 <= i < j < |serie| ==> serie[i].date != serie[j].date
    requires limit == 0 || |serie| <= limit
    ensures GetStats(StoreValues(c, kind, serie, validator), kind).Keys == {ticker}
    ensures GetStats(StoreValues(c, kind, serie, validator), kind)[ticker] == StatsOf(serie)
    ensures GetValues(StoreValues(c, kind, serie, validator), ticker, kind, limit) == SortNewestFirst(serie)
  {
    SerieStored(c, kind, serie, validator);
    SerieReadsBack(StoreValues(c, kind, serie, validator), kind, ticker, serie, limit);
  }

  lemma SerieReadsBack(c: Collections, kind: Kind, ticker: string, serie: seq<StockValue>, limit: nat)
    requires c.Values(kind) == serie && serie != []
    requires forall i :: 0 <= i < |serie| ==> serie[i].ticker == ticker
    requires limit == 0 || |serie| <= limit
    ensures GetStats(c, kind).Keys == {ticker}
    ensures GetStats(c, kind)[ticker] == StatsOf(serie)
    ensures GetValues(c, ticker, kind, limit) == SortNewestFirst(serie)
  {
    SingleTicker(serie, ticker);
    StatsOfOnlyTicker(c, kind, ticker);
    GetValuesWithinLimit(c, ticker, kind, limit);
  }

  lemma SingleTicker(serie: seq<StockValue>, ticker: string)
    requires serie != []
    requires forall i :: 0 <= i < |serie| ==> serie[i].ticker == ticker
    ensures ValuesFor(serie, ticker) == serie
    ensures TickersOf(serie) == {ticker}
  {
    ValuesForSingleTicker(serie, ticker);
    assert serie[0] in serie;
  }

  lemma GetValuesWithinLimit(c: Collections, ticker: string, kind: Kind, limit: nat)
    requires limit == 0 || |ValuesFor(c.Values(kind), ticker)| <= limit
    ensures GetValues(c, ticker, kind, limit) == SortNewestFirst(ValuesFor(c.Values(kind), ticker))
  {
    var found := ValuesFor(c.Values(kind), ticker);
    SameElements(SortNewestFirst(found), found);
  }

  lemma StatsOfOnlyTicker(c: Collections, kind: Kind, ticker: string)
    requires TickersOf(c.Values(kind)) == {ticker}
    requires ValuesFor(c.Values(kind), ticker) == c.Values(kind)
    ensures GetStats(c, kind).Keys == {ticker}
    ensures GetStats(c, kind)[ticker] == StatsOf(c.Values(kind))
  {
  }

  /** Two distinct values of a collection under the unique index differ in key. */
  lemma DistinctValuesDistinctKeys(coll: seq<StockValue>, x: StockValue, y: StockValue)
    requires UniqueKeys(coll, ValueKey)
    requires x in coll && y in coll && x != y
    ensures ValueKey(x) != ValueKey(y)
  {
    var p :| 0 <= p < |coll| && coll[p] == x;
    var q :| 0 <= q < |coll| && coll[q] == y;
    assert p < q || q < p;
  }

  lemma UniqueKeysOccurOnce(coll: seq<StockValue>, x: StockValue)
    requires UniqueKeys(coll, ValueKey)
    ensures multiset(coll)[x] <= 1
  {
    if coll != [] {
      var n := |coll| - 1;
      var init := coll[..n];
      assert coll == init + [coll[n]];
      assert UniqueKeys(init, ValueKey);
      UniqueKeysOccurOnce(init, x);
      if coll[n] == x {
        forall i | 0 <= i < n ensures init[i] != x {
          assert ValueKey(coll[i]) != ValueKey(coll[n]);
        }
        assert x !in init;
      }
    }
  }

  /** An element that occurs at most once in a sequence is not repeated at a later index. */
  lemma OccursOnce<T>(s: seq<T>, i: int, j: int)
    requires 0 <= i < j < |s| && multiset(s)[s[i]] <= 1
    ensures s[i] != s[j]
  {
    var x := s[i];
    assert s == s[..j] + [s[j]] + s[j+1..];
    assert x in multiset(s[..j]) by { assert s[..j][i] == x; }
    assert multiset(s)[x] == multiset(s[..j])[x] + multiset([s[j]])[x] + multiset(s[j+1..])[x];
  }

  /** Most recent first, with no two values on the same date. */
  predicate StrictlyNewestFirst(s: seq<StockValue>) {
    forall i, j :: 0 <= i < j < |s| ==> s[i].date > s[j].date
  }

  /** Under the unique index, the values returned for one ticker have distinct dates:
      the order of `get_values` is strict and so fully determined. */
  lemma GetValuesStrictlyNewestFirst(c: Collections, ticker: string, kind: Kind, limit: nat)
    requires c.Valid()
    ensures StrictlyNewestFirst(GetValues(c, ticker, kind, limit))
  {
    var coll := c.Values(kind);
    assert UniqueKeys(coll, ValueKey) by { assert kind == Simple || kind == Ohlc; }
    SortedValuesStrict(coll, ticker);
    GetValuesIsSortedPrefix(c, ticker, kind, limit);
  }

  /** `get_values` is a prefix of the values of the ticker, sorted newest first. */
  lemma GetValuesIsSortedPrefix(c: Collections, ticker: string, kind: Kind, limit: nat)
    ensures var sorted := SortNewestFirst(ValuesFor(c.Values(kind), ticker));
      var r := GetValues(c, ticker, kind, limit);
      |r| <= |sorted| && r == sorted[..|r|]
  {
  }

  /** The sorted values of one ticker under the unique index are strictly ordered. */
  lemma SortedValuesStrict(coll: seq<StockValue>, ticker: string)
    requires UniqueKeys(coll, ValueKey)
    ensures StrictlyNewestFirst(SortNewestFirst(ValuesFor(coll, ticker)))
  {
    var found := ValuesFor(coll, ticker);
    var sorted := SortNewestFirst(found);
    assert forall i :: 0 <= i < |sorted| ==> sorted[i].ticker == ticker by {
      SameElements(sorted, found);
      forall i | 0 <= i < |sorted| ensures sorted[i].ticker == ticker {
        assert sorted[i] in found;
      }
    }
    SortedOneTickerIsStrict(coll, sorted, ticker);
  }

  /** Values of one ticker drawn from a collection under the unique index, sorted
      newest first, have strictly decreasing dates. */
  lemma SortedOneTickerIsStrict(coll: seq<StockValue>, sorted: seq<StockValue>, ticker: string)
    requires UniqueKeys(coll, ValueKey)
    requires multiset(sorted) <= multiset(coll)
    requires NewestFirst(sorted)
    requires forall i :: 0 <= i < |sorted| ==> sorted[i].ticker == ticker
    ensures StrictlyNewestFirst(sorted)
  {
    forall i, j | 0 <= i < j < |sorted| ensures sorted[i].date > sorted[j].date {
      var x, y := sorted[i], sorted[j];
      UniqueKeysOccurOnce(coll, x);
      OccursOnce(sorted, i, j);
      assert x in multiset(coll) && y in multiset(coll) by {
        assert x in multiset(sorted) && y in multiset(sorted);
      }
      DistinctValuesDistinctKeys(coll, x, y);
    }
  }

  // ---------------------------------------------------------------------------
  // Company information

  /** The database after `insert_company_infos(infos)`: unordered insert under the
      unique index on `symbol`; pymongo refuses an empty batch. */
  function StoreCompanyInfos(c: Collections, infos: seq<CompanyInfo>): (after: Collections)
    ensures c.Valid() ==> after.Valid()
    ensures after.simple == c.simple && after.ohlc == c.ohlc
    ensures |c.companyInfo| <= |after.companyInfo| && after.companyInfo[..|c.companyInfo|] == c.companyInfo
    ensures infos != [] ==>
      KeySet(after.companyInfo, Symbol) == KeySet(c.companyInfo, Symbol) + KeySet(infos, Symbol)
  {
    if infos == [] then c
    else
      var w := InsertMany(c.companyInfo, infos, Symbol, AnyCompanyInfo, SYMBOL);
      assert AcceptedKeys(infos, Symbol, AnyCompanyInfo) == KeySet(infos, Symbol);
      c.(companyInfo := w.stored)
  }

  /** No symbol of the batch is repeated in it or already stored. */
  predicate FreshSymbols(c: Collections, infos: seq<CompanyInfo>) {
    UniqueKeys(infos, Symbol) && KeySet(infos, Symbol) !! KeySet(c.companyInfo, Symbol)
  }

  /** The outcome of `insert_company_infos(infos)`: the number of documents written when
      the store reports no error, nothing when it reports a bulk-write error (which is
      swallowed whatever its code); an empty batch raises. */
  function InsertCompanyInfosOutcome(c: Collections, infos: seq<CompanyInfo>): (r: Result<Option<nat>, StorageError>)
    ensures r.Failure? <==> infos == []
    ensures r.Failure? ==> r.error == EmptyDocumentList
    ensures r.Success? && r.value.Some? ==> r.value.value == |infos|
    ensures r.Success? && r.value.Some? ==> StoreCompanyInfos(c, infos).companyInfo == c.companyInfo + infos
    ensures r.Success? ==> (r.value.None? <==> !FreshSymbols(c, infos))
  {
    if infos == [] then Failure(EmptyDocumentList)
    else
      var w := InsertMany(c.companyInfo, infos, Symbol, AnyCompanyInfo, SYMBOL);
      InsertManyErrorFree(c.companyInfo, infos, Symbol, AnyCompanyInfo, SYMBOL);
      if w.writeErrors == [] then
        InsertManyWithoutErrors(c.companyInfo, infos, Symbol, AnyCompanyInfo, SYMBOL);
        Success(Some(w.nInserted))
      else Success(None)
  }

  /** `get_all_tickers()`: the distinct symbols of the stored company information. */
  function GetAllTickers(c: Collections): (r: seq<string>)
    ensures SeqUtil.NoDuplicates(r)
    ensures forall s :: s in r <==> s in KeySet(c.companyInfo, Symbol)
  {
    var infos := c.companyInfo;
    var symbols := Symbols(infos);
    var r := SeqUtil.Distinct(symbols);
    assert forall s :: s in r <==> s in KeySet(infos, Symbol) by {
      forall s ensures s in r <==> s in KeySet(infos, Symbol) {
        if s in KeySet(infos, Symbol) {
          var i :| 0 <= i < |infos| && infos[i].symbol == s;
          assert symbols[i] == s;
        }
        if s in r {
          var i :| 0 <= i < |symbols| && symbols[i] == s;
          assert infos[i].symbol == s;
        }
      }
    }
    r
  }

  /** The last stored company information with a symbol. */
  function LastWithSymbol(infos: seq<CompanyInfo>, symbol: string): (r: CompanyInfo)
    requires symbol in KeySet(infos, Symbol)
    ensures r in infos && r.symbol == symbol
    decreases |infos|
  {
    var n := |infos| - 1;
    if infos[n].symbol == symbol then infos[n]
    else
      assert symbol in KeySet(infos[..n], Symbol) by {
        var i :| 0 <= i < |infos| && infos[i].symbol == symbol;
        assert infos[..n][i] == infos[i];
      }
      LastWithSymbol(infos[..n], symbol)
  }

  /** `get_company_infos(tickers)`: the stored company information of the requested
      tickers, by symbol; tickers without information have no entry. */
  function GetCompanyInfos(c: Collections, tickers: seq<string>): (r: map<string, CompanyInfo>)
    ensures forall s :: s in r <==> s in tickers && s in KeySet(c.companyInfo, Symbol)
    ensures forall s :: s in r ==> r[s].symbol == s && r[s] in c.companyInfo
  {
    map s | s in KeySet(c.companyInfo, Symbol) && s in tickers :: LastWithSymbol(c.companyInfo, s)
  }

  /** Under the unique index on `symbol`, the information found for a symbol is the one
      stored with it. */
  lemma {:induction false} LastWithUniqueSymbol(infos: seq<CompanyInfo>, i: int)
    requires 0 <= i < |infos| && UniqueKeys(infos, Symbol)
    ensures LastWithSymbol(infos, infos[i].symbol) == infos[i]
    decreases |infos|
  {
    var n := |infos| - 1;
    if i < n {
      assert infos[n].symbol != infos[i].symbol;
      var init := infos[..n];
      assert init[i] == infos[i];
      assert UniqueKeys(init, Symbol);
      LastWithUniqueSymbol(init, i);
    }
  }

  /** The symbols of a list of company information, in order. */
  function Symbols(infos: seq<CompanyInfo>): (r: seq<string>)
    ensures |r| == |infos| && forall i :: 0 <= i < |infos| ==> r[i] == infos[i].symbol
  {
    seq(|infos|, i requires 0 <= i < |infos| => infos[i].symbol)
  }

  lemma CompanyInfosStored(c: Collections, infos: seq<CompanyInfo>)
    requires c.companyInfo == [] && infos != [] && UniqueKeys(infos, Symbol)
    ensures StoreCompanyInfos(c, infos).companyInfo == infos
  {
    AcceptedAll(infos, AnyCompanyInfo);
    InsertManyIsolatesFailures([], infos, Symbol, AnyCompanyInfo, SYMBOL);
  }

  /** Company information with distinct symbols inserted into an empty collection is
      found again by symbol, and its symbols are all the tickers. */
  lemma InsertedCompanyInfosReadBack(c: Collections, infos: seq<CompanyInfo>)
    requires c.companyInfo == [] && infos != [] && UniqueKeys(infos, Symbol)
    ensures var found := GetCompanyInfos(StoreCompanyInfos(c, infos), Symbols(infos));
      && (forall s :: s in found <==> s in Symbols(infos))
      && (forall i :: 0 <= i < |infos| ==> infos[i].symbol in found && found[infos[i].symbol] == infos[i])
    ensures forall s :: s in GetAllTickers(StoreCompanyInfos(c, infos)) <==> s in Symbols(infos)
  {
    CompanyInfosStored(c, infos);
    CompanyInfosReadBack(StoreCompanyInfos(c, infos), infos);
  }

  lemma CompanyInfosReadBack(c: Collections, infos: seq<CompanyInfo>)
    requires c.companyInfo == infos && UniqueKeys(infos, Symbol)
    ensures var found := GetCompanyInfos(c, Symbols(infos));
      && (forall s :: s in found <==> s in Symbols(infos))
      && (forall i :: 0 <= i < |infos| ==> infos[i].symbol in found && found[infos[i].symbol] == infos[i])
    ensures forall s :: s in GetAllTickers(c) <==> s in Symbols(infos)
  {
    var symbols := Symbols(infos);
    forall s ensures s in KeySet(infos, Symbol) <==> s in symbols {
      if s in symbols {
        var i :| 0 <= i < |symbols| && symbols[i] == s;
        assert Symbol(infos[i]) == s;
      }
    }
    forall i | 0 <= i < |infos| ensures LastWithSymbol(infos, infos[i].symbol) == infos[i] {
      LastWithUniqueSymbol(infos, i);
    }
  }

  // ---------------------------------------------------------------------------
  // The storage object

  /** `MongoDbStorage`: the database behind `self.collections`, with the schema
      validator configured on the value collections. */
  class MongoDbStorage {
    const validator: Document -> bool
    var collections: Collections

    predicate Valid()
      reads this
    {
      collections.Valid()
    }

    /** A storage over the collections the database already holds; its unique indexes
        guarantee that they are valid. */
    constructor (validator: Document -> bool, existing: Collections)
      requires existing.Valid()
      ensures Valid()
      ensures this.validator == validator && collections == existing
    {
      this.validator := validator;
      collections := existing;
    }

    /** `insert_values(values, kind)`. */
    method InsertValues(values: seq<StockValue>, kind: Kind) returns (r: Result<InsertSummary, StorageError>)
      requires Valid()
      modifies this
      ensures Valid()
      ensures collections == StoreValues(old(collections), kind, values, validator)
      ensures r == InsertValuesOutcome(old(collections), kind, values, validator)
    {
      if values == [] {
        return Failure(EmptyDocumentList);
      }
      var outcome := InsertValuesOutcome(collections, kind, values, validator);
      var written := BulkInsertValues(collections.Values(kind), values, validator);
      collections := collections.WithValues(kind, written.stored);
      r := outcome;
    }

    /** `insert_company_infos(infos)`. */
    method InsertCompanyInfos(infos: seq<CompanyInfo>) returns (r: Result<Option<nat>, StorageError>)
      requires Valid()
      modifies this
      ensures Valid()
      ensures collections == StoreCompanyInfos(old(collections), infos)
      ensures r == InsertCompanyInfosOutcome(old(collections), infos)
    {
      if infos == [] {
        return Failure(EmptyDocumentList);
      }
      r := InsertCompanyInfosOutcome(collections, infos);
      var written := InsertMany(collections.companyInfo, infos, Symbol, AnyCompanyInfo, SYMBOL);
      collections := collections.(companyInfo := written.stored);
    }
  }
}
