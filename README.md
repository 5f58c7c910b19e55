# Stock-market data ingestion: a Dafny model

This project models the core of a system that ingests stock quotes and company
metadata and stores them. It has five parts.

- **Value model** (`FinancialData`):
  - series kinds (`simple`, `ohlc`) and granularities (`fine`, `coarse`);
  - stock values, whose open, low, high and volume are optional;
  - company information;
  - per-ticker coverage statistics (latest date, oldest date, count).
- **MongoDB storage** (`BulkWrite`, `MongoDb`):
  - one collection of stock values per kind, unique on (ticker, date), with a schema validator;
  - one collection of company information, unique on `symbol`;
  - the unordered bulk insert, which stores what it can and reports the rest as write errors;
  - the handler that classifies a bulk-write error from its error counters;
  - the queries `get_values`, `get_stats`, `get_all_tickers` and `get_company_infos`;
  - the storage object `MongoDbStorage`, whose insert methods update its collections.
- **FMP Cloud provider** (`FmpCloud`, over the provider interface in `Providers`):
  - conversion of API rows into stock values and company information;
  - the routing table of supported series: daily close-only and 15-minute OHLC;
  - construction of requests: base URL, one leading `/` stripped, the `apikey` parameter, and the sorted comma-joined ticker list of the profile request.

  The HTTP exchange is a parameter.
- **Coverage-aware reader** (`Reader`):
  - `import_stock_values` reads the statistics once and calls the provider once per ticker;
  - it keeps only values strictly outside the stored `[oldest, latest]` span of their ticker;
  - it flattens them and issues one insert, or none;
  - `import_company_info` hands the provider's answer to the storage;
  - `run` imports company information, then daily close-only values, then 15-minute OHLC values, then daily OHLC values.

  The class `FinancialDataReader` drives a `MongoDbStorage`. Each method is proved equal to a step function over a snapshot of the database.
- **Authenticator** (`Auth`): adding, removing and authenticating users over a map from user name to stored password hash.
  - The password hasher is a pair of functions, `hash` and `verify`.
  - The only assumption about it is that a password verifies against its own hash.

Behaviour the model makes explicit:

- **FMP Cloud never completes `run`.** FMP Cloud has no daily OHLC series, and `run` asks for that series last. With this provider, `run` therefore never completes for a non-empty ticker list (`Reader.FmpCloudRunNeverCompletes`).
- **An empty batch always raises.** pymongo refuses an empty batch before it reaches the server, so `insert_company_infos([])` raises. `import_company_info`, and with it `run`, stops there when the provider returns no company information (`Reader.ImportCompanyInfoSpec`).
- **Mismatched `insert_values` signatures.** The reader calls `insert_values(values)` with one argument, as the abstract storage interface declares it. `MongoDbStorage.insert_values` also takes the collection, keyed by a name `StockValueType` that the value model does not define. The model keeps one collection per kind, and the reader passes its kind to the insert.
- **Write errors with other codes are swallowed.** The handler of a bulk-write error with code 65 only counts and logs. A write error with a code other than 11000 or 121 is silently dropped, and the model follows the code here.

## Model

| member | source | states |
|---|---|---|
| FinancialData.Granularity.Value | src/opa/core/financial_data.py:9-11 | each granularity's enum value, `fine` or `coarse` (proved distinct and invertible in EnumValuesIdentifyMembers) |
| FinancialData.GranularityOf | src/opa/core/financial_data.py:9-11 | looking a granularity up by value succeeds exactly for `fine` and `coarse`, and returns the member with that value |
| FinancialData.Kind.Value | src/opa/core/financial_data.py:14-16 | each kind's enum value, `simple` or `ohlc` |
| FinancialData.KindOf | src/opa/core/financial_data.py:14-16 | looking a kind up by value succeeds exactly for `simple` and `ohlc`, and returns the member with that value |
| FinancialData.EnumValuesIdentifyMembers | src/opa/core/financial_data.py:9-16 | every member is found again from its value, and the two members of each enum have different values |
| FinancialData.NewStockValue | src/opa/core/financial_data.py:19-27 | a stock value built from ticker, date, close and interval has exactly those, and open, low, high and volume absent |
| FinancialData.LatestDate | src/opa/core/financial_data.py:57 | the latest date of a non-empty series is the date of one of its values and no value is later |
| FinancialData.OldestDate | src/opa/core/financial_data.py:58 | the oldest date of a non-empty series is the date of one of its values and no value is earlier |
| FinancialData.StatsOf | tests/integration/test_storage.py:52-58 | statistics of a non-empty series: oldest ≤ latest, both attained, every date between them, count = size ≥ 1 |
| SeqUtil.Distinct | src/opa/storage/mongodb.py:134 | the distinct elements in first-occurrence order: same elements as the input, no repetition, no longer than the input, and an element comes before another whenever it occurs in the input before every occurrence of the other |
| SeqUtil.DistinctOfDistinct | src/opa/storage/mongodb.py:134 | a list without repetitions is its own distinct list |
| BulkWrite.InsertMany | src/opa/storage/mongodb.py:41-43 | the unordered insert keeps the stored documents as a prefix; adds only accepted documents of the batch; inserted count + write errors = batch size; every error names a batch position, as a validation failure of a rejected document or a duplicate key of an accepted one; unique keys stay unique; stored keys become old keys ∪ accepted keys of the batch |
| BulkWrite.InsertManyAccountsForEach | src/opa/storage/mongodb.py:41-43 | each document is stored or reported, never both: errors report strictly increasing positions, and the appended documents are exactly the batch without the reported positions, in batch order |
| BulkWrite.InsertManyErrorFree | src/opa/storage/mongodb.py:41-43 | the store reports no write error iff every document passes validation and the batch's keys are pairwise distinct and not yet stored |
| BulkWrite.Accepted | src/opa/storage/mongodb.py:41-43 | an element of the result is an accepted document of the batch, and every accepted document of the batch is in the result |
| BulkWrite.AcceptedCounts | src/opa/storage/mongodb.py:41-43 | each accepted document occurs in the result as often as in the batch, and the result's multiset is within the batch's |
| BulkWrite.AcceptedKeepsOrder | src/opa/storage/mongodb.py:41-43 | the result is the batch with the rejected positions removed, so it keeps batch order |
| BulkWrite.InsertManyAllPresent | src/opa/storage/mongodb.py:95-101 | when every accepted key is already stored, the insert stores nothing |
| BulkWrite.InsertManyTwice | src/opa/storage/mongodb.py:95-101 | inserting the same batch twice stores what inserting it once stores |
| BulkWrite.InsertManyIsolatesFailures | src/opa/storage/mongodb.py:42-43 | with fresh, distinct keys, every accepted document is appended in batch order and only rejected ones are reported |
| MongoDb.ToDocument | src/opa/storage/mongodb.py:38-40 | the stored document holds the four required fields, plus each optional field only when it is not None |
| MongoDb.FromDocument | src/opa/storage/mongodb.py:122 | rebuilding a value from a document takes ticker and date from the document's fields |
| MongoDb.DocumentRoundTrip | src/opa/storage/mongodb.py:38-40 | reading back the document written for a value gives that value, so None fields are lost without loss |
| MongoDb.CodeCounterCounts | src/opa/storage/mongodb.py:86 | the code counter counts, for each code, exactly the write errors with that code |
| MongoDb.DuplicateCounterCounts | src/opa/storage/mongodb.py:87-93 | the key-pattern counter counts exactly the duplicate-key errors with that pattern |
| MongoDb.DuplicatesWithinDuplicateKeyErrors | src/opa/storage/mongodb.py:103-106 | expected duplicates never exceed duplicate-key errors, so the unexpected count is never negative |
| MongoDb.Classify | src/opa/storage/mongodb.py:80-114 | raises iff the code is not 65; otherwise nInserted is kept, expected = duplicates with pattern {ticker, date}, expected + unexpected = all 11000 errors, validation = all 121 errors |
| MongoDb.StoreValues | src/opa/storage/mongodb.py:36-43 | an insert keeps the unique indexes, only appends to the collection of its kind, and changes no other collection |
| MongoDb.StoreErrorsSplit | src/opa/storage/mongodb.py:86-112 | when the store reports only validation failures and (ticker, date) duplicates, every duplicate is expected and the two counts add up to the number of write errors |
| MongoDb.InsertValuesOutcome | src/opa/storage/mongodb.py:36-114 | raises iff the batch is empty. With no write error, every value is appended. Otherwise there are no unexpected duplicates, and inserted + expected duplicates + validation failures = batch size |
| BulkWrite.InsertManyWithoutErrors | src/opa/storage/mongodb.py:43-50 | when the store reports no write error, the batch was appended whole, in order |
| MongoDb.ReinsertingValuesChangesNothing | src/opa/storage/mongodb.py:95-101 | re-inserting a batch leaves the database unchanged and inserts nothing; the report counts one validation error per value the validator rejects and an expected duplicate for every other value |
| MongoDb.ValidationErrorsAreRejections | src/opa/storage/mongodb.py:86-112 | the store reports exactly one validation failure (code 121) per document the validator rejects |
| MongoDb.ValuesFor | src/opa/storage/mongodb.py:123 | the values found for a ticker are exactly the stored values with that ticker |
| MongoDb.InsertNewestFirst | src/opa/storage/mongodb.py:123 | inserting into a newest-first list keeps it newest first and adds exactly one element |
| MongoDb.SortNewestFirst | src/opa/storage/mongodb.py:123 | `sort("date", -1)`: a newest-first permutation |
| MongoDb.GetValues | src/opa/storage/mongodb.py:116-131 | only stored values of the ticker, newest first; min(limit, count) of them (all when limit is 0); none left out is newer than one returned |
| MongoDb.GetValuesStrictlyNewestFirst | src/opa/storage/mongodb.py:100-123 | under the unique index, the values returned have strictly decreasing dates |
| MongoDb.GetValuesWithinLimit | src/opa/storage/mongodb.py:121-124 | when the ticker has at most `limit` values, all of them are returned, sorted |
| MongoDb.StatsOfTicker | src/opa/storage/mongodb.py:161-172 | the group of a ticker with values is described by its statistics |
| MongoDb.GetStats | src/opa/storage/mongodb.py:156-176 | exactly the tickers with values have an entry; each entry gives the max date, the min date and the count of that ticker's values |
| MongoDb.InsertedSerieReadsBack | tests/integration/test_storage.py:21-60 | a series of one ticker inserted into an empty collection reads back sorted newest first, with statistics (max, min, size) |
| MongoDb.SerieStored | tests/integration/test_storage.py:24 | a valid series with distinct keys is stored whole into an empty collection |
| MongoDb.SerieReadsBack | tests/integration/test_storage.py:21-60 | a collection holding one ticker's series gives that series' statistics and its values newest first |
| MongoDb.StoreCompanyInfos | src/opa/storage/mongodb.py:136-140 | inserting company information keeps the symbol index, only appends, leaves stock values alone, and stores old symbols ∪ new symbols |
| MongoDb.InsertCompanyInfosOutcome | src/opa/storage/mongodb.py:136-145 | raises iff the list is empty; otherwise returns nothing iff some symbol is repeated in the list or already stored (the swallowed bulk-write error), and else the count, the list having been appended whole |
| MongoDb.GetAllTickers | src/opa/storage/mongodb.py:133-134 | the distinct symbols of the stored company information, each once |
| MongoDb.LastWithSymbol | src/opa/storage/mongodb.py:148-151 | the information kept for a symbol is stored information with that symbol |
| MongoDb.GetCompanyInfos | src/opa/storage/mongodb.py:147-154 | an entry for exactly the requested tickers with stored information, each keyed by its own symbol |
| MongoDb.LastWithUniqueSymbol | src/opa/storage/mongodb.py:148-151 | under the symbol index, the information found for a symbol is the one stored with it |
| MongoDb.InsertedCompanyInfosReadBack | tests/integration/test_storage.py:30-46 | company information inserted into an empty collection is found again by symbol, and its symbols are all the tickers |
| MongoDb.CompanyInfosReadBack | tests/integration/test_storage.py:30-46 | a collection holding company information with distinct symbols answers each symbol with its information |
| MongoDb.MongoDbStorage.constructor | src/opa/storage/mongodb.py:24-34 | a new storage opens the collections the database already holds (valid under its unique indexes) with the given validator |
| MongoDb.MongoDbStorage.InsertValues | src/opa/storage/mongodb.py:36-114 | the collections become StoreValues of the old ones and the result is InsertValuesOutcome; the unique indexes are kept |
| MongoDb.MongoDbStorage.InsertCompanyInfos | src/opa/storage/mongodb.py:136-145 | the collections become StoreCompanyInfos of the old ones and the result is InsertCompanyInfosOutcome |
| StringOrder.AtMostReflexive | src/opa/providers/fmp_cloud.py:152 | the string order is reflexive |
| StringOrder.AtMostTotal | src/opa/providers/fmp_cloud.py:152 | any two strings are comparable |
| StringOrder.AtMostAntisymmetric | src/opa/providers/fmp_cloud.py:152 | strings each at most the other are equal |
| StringOrder.AtMostTransitive | src/opa/providers/fmp_cloud.py:152 | the string order is transitive |
| StringOrder.Insert | src/opa/providers/fmp_cloud.py:152 | inserting into a sorted list keeps it sorted and adds exactly that element |
| StringOrder.Sort | src/opa/providers/fmp_cloud.py:152 | `sorted(tickers)` is a sorted permutation |
| StringOrder.SortedUnique | src/opa/providers/fmp_cloud.py:152 | two sorted lists with the same elements are equal |
| StringOrder.SortIgnoresOrder | src/opa/providers/fmp_cloud.py:150-152 | `sorted` gives the same list for any permutation of its input |
| FmpCloud.Midnight | src/opa/providers/fmp_cloud.py:28 | midnight of a day is a whole number of days, from which the day is recovered |
| FmpCloud.SimpleAsStockValue | src/opa/providers/fmp_cloud.py:24-31 | a daily row becomes a close-only value of the ticker at midnight with interval 86400, and the row is recoverable from it |
| FmpCloud.OhlcAsStockValue | src/opa/providers/fmp_cloud.py:47-58 | a 15-minute row becomes a value of the ticker with interval 900 and all OHLC fields, and the row is recoverable from it |
| FmpCloud.AsCompanyInfo | src/opa/providers/fmp_cloud.py:74-87 | a profile row becomes company information with `companyName` as name and the IPO day at midnight, and the row is recoverable from it |
| FmpCloud.GetJsonData | src/opa/http_methods.py:39-52 | a response fails iff its status is 300 or more, with that status; otherwise its body is returned |
| FmpCloud.StripLeadingSlash | src/opa/providers/fmp_cloud.py:161 | exactly one leading `/` is removed, and nothing else changes |
| FmpCloud.UrlIgnoresOneLeadingSlash | src/opa/providers/fmp_cloud.py:161-162 | a path with one extra leading `/` names the same URL, the base URL followed by the path |
| FmpCloud.JsonRequest | src/opa/providers/fmp_cloud.py:160-164 | the URL of the path; `apikey` is always the access key, even if the caller passed an `apikey`; every other parameter is kept |
| FmpCloud.DailySerieRequest | src/opa/providers/fmp_cloud.py:122-125 | the daily series is `historical-price-full/<ticker>` with `serietype=line` and the key |
| FmpCloud.QuarterHourSerieRequest | src/opa/providers/fmp_cloud.py:128 | the 15-minute series is `historical-chart/15min/<ticker>` with only the key |
| FmpCloud.RawStockValuesRequest | src/opa/providers/fmp_cloud.py:120-133 | a request exists iff the series is (simple, coarse) or (ohlc, fine); otherwise TypeError for that pair |
| FmpCloud.GetRawStockValues | src/opa/providers/fmp_cloud.py:114-133 | an unsupported series raises TypeError before any request; otherwise the JSON of the routed request |
| FmpCloud.OhlcRows | src/opa/providers/fmp_cloud.py:144 | a list validates iff every element is an OHLC row; the rows are then the elements, in order |
| FmpCloud.ValidatedRows | src/opa/providers/fmp_cloud.py:135-147 | a daily series validates iff the body is a `historical` object; a 15-minute series iff it is a list of OHLC rows; rows are kept in order; other series raise TypeError |
| FmpCloud.GetStockValues | src/opa/providers/fmp_cloud.py:94-112 | succeeds iff the raw fetch succeeds and its body validates; otherwise passes on the fetch's or the validation's error; on success every validated row converted with the requested ticker, same count and order; daily values close-only at midnight, 15-minute values with OHLC fields |
| FmpCloud.SplitJoin | src/opa/providers/fmp_cloud.py:152 | tickers without a comma are recovered from their comma-joined string |
| FmpCloud.CompanyInfoPath | src/opa/providers/fmp_cloud.py:152-154 | the profile path is `/profile/` followed by the tickers, which it names exactly (as a multiset) |
| FmpCloud.CompanyInfoPathIgnoresOrder | src/opa/providers/fmp_cloud.py:150-154 | any permutation of the tickers gives the same path, and so the same request |
| FmpCloud.ProfileRows | src/opa/providers/fmp_cloud.py:156 | a list validates iff every element is a profile row; the rows are then the elements, in order |
| FmpCloud.GetCompanyInfo | src/opa/providers/fmp_cloud.py:149-158 | succeeds iff the response is a list of profiles; converts each, in order |
| FmpCloud.FmpCloudProvider | src/opa/providers/fmp_cloud.py:90-92 | the provider answers with this module's functions; unsupported series always raise TypeError |
| FmpCloud.CompanyInfoIgnoresOrder | src/opa/providers/fmp_cloud.py:149-156 | the company information fetched does not depend on the order of the tickers |
| Reader.FetchAll | src/opa/core/financial_data_reader.py:53-56 | succeeds iff the provider answers every ticker; the keys are the tickers, each mapped to the provider's answer for `(ticker, kind, granularity)`; a failure is the failure of the first ticker, in request order, whose call fails |
| Reader.Keep | src/opa/core/financial_data_reader.py:60-69 | the coverage filter on one value |
| Reader.Filter | src/opa/core/financial_data_reader.py:60-69 | a value is kept iff it was fetched and its ticker has no statistics or its date is after latest or before oldest |
| Reader.FilterCounts | src/opa/core/financial_data_reader.py:60-69 | a kept value keeps all its repeats, a dropped one none |
| Reader.FilterKeepsOrder | src/opa/core/financial_data_reader.py:60-69 | the filtered list is the fetched list without the dropped positions, in fetched order |
| Reader.NewValues | src/opa/core/financial_data_reader.py:60-72 | the flattened list holds exactly the kept values of every ticker |
| Reader.NewValuesCounts | src/opa/core/financial_data_reader.py:60-72 | the flattened list holds each value as many times as the tickers that keep it hold it, in total |
| Reader.NewValuesAppend | src/opa/core/financial_data_reader.py:71 | flattening keeps the ticker order: the kept values of earlier tickers come first |
| Reader.NewValuesSingle | src/opa/core/financial_data_reader.py:60-71 | one ticker contributes exactly its filtered list |
| Reader.NewValuesWithoutStats | src/opa/core/financial_data_reader.py:60-72 | with no statistics every fetched value is kept, in order |
| Reader.NewValuesCovered | src/opa/core/financial_data_reader.py:60-72 | when every value lies in its ticker's stored span, nothing is kept |
| Reader.ImportStockValuesSpec | src/opa/core/financial_data_reader.py:43-86 | raises iff a provider call fails, and then nothing is written. Returns exactly the kept values of the requested tickers, each as many times as the distinct tickers that keep it hold it. Inserts them when there are any, and writes nothing otherwise |
| Reader.KeptFromTickers | src/opa/core/financial_data_reader.py:53-72 | the kept values, stated over the requested tickers rather than the dictionary keys |
| Reader.ImportCompanyInfoSpec | src/opa/core/financial_data_reader.py:39-41 | a provider failure propagates. The provider's list goes unchanged to the insert, whose result is returned. An empty list raises |
| Reader.RunSpec | src/opa/core/financial_data_reader.py:19-37 | the four steps in order: succeeds iff all four succeed, ending with the database of the last; otherwise raises the error of the first step that fails, with the database that step left |
| Reader.EmptyStoreKeepsEverything | tests/unit/test_reader.py:89-115 | with nothing stored, all fetched values of all tickers go to one insert and are returned |
| Reader.CoveredFetchInsertsNothing | tests/unit/test_reader.py:117-139 | when everything fetched lies within stored coverage, nothing is inserted and the database is unchanged |
| Reader.StoredKeysNotReimported | src/opa/core/financial_data_reader.py:58-69 | when the provider labels each value with the requested ticker (FMP Cloud does, by GetStockValues' ticker clause), no value whose (ticker, date) is already stored is inserted again |
| Reader.KeptValueIsNew | src/opa/core/financial_data_reader.py:60-69 | a kept value differs in date from every stored value of its ticker |
| Reader.ImportIsAppendOnly | src/opa/core/financial_data_reader.py:72-74 | an import leaves company information alone and only appends to value collections |
| Reader.RunIsAppendOnly | src/opa/core/financial_data_reader.py:31-37 | `run` only appends, so the 15-minute OHLC values are stored before, and kept through, the daily OHLC import |
| Reader.ExtendsTransitive | src/opa/core/financial_data_reader.py:19-37 | appending is transitive across steps |
| Reader.FmpCloudCoarseOhlcFails | src/opa/providers/fmp_cloud.py:130-133 | importing daily OHLC values from FMP Cloud raises TypeError and writes nothing |
| Reader.FmpCloudRunNeverCompletes | src/opa/core/financial_data_reader.py:33-37 | `run` with FMP Cloud raises for any non-empty ticker list |
| Reader.FinancialDataReader.constructor | src/opa/core/financial_data_reader.py:14-17 | the reader holds the given provider and storage |
| Reader.FinancialDataReader.ImportCompanyInfo | src/opa/core/financial_data_reader.py:39-41 | the storage and the result are those of ImportCompanyInfoSpec |
| Reader.FinancialDataReader.ImportStockValues | src/opa/core/financial_data_reader.py:43-86 | the storage and the result are those of ImportStockValuesSpec |
| Reader.FinancialDataReader.Run | src/opa/core/financial_data_reader.py:19-37 | the storage and the result are those of RunSpec |
| Auth.AddUserSpec | src/opa/core/auth.py:28-36 | adds iff no non-empty hash is stored. On success, stores the password's hash under the name. Never touches other users and never overwrites on refusal |
| Auth.RemoveUserSpec | src/opa/core/auth.py:37-39 | fails for an unknown user; otherwise removes exactly that user |
| Auth.AuthUserSpec | src/opa/core/auth.py:41-51 | false without a stored hash; otherwise true on verification, false on mismatch, an error when verification fails otherwise |
| Auth.AddedUserAuthenticates | src/opa/core/auth.py:33-48 | after a successful add, the user authenticates with that password, given that a password verifies against its own hash |
| Auth.AddUserKeepsOthers | src/opa/core/auth.py:28-36 | adding a user does not change how any other user authenticates |
| Auth.RemovedUserFails | src/opa/core/auth.py:37-44 | a removed user no longer authenticates |
| Auth.Authenticator.constructor | src/opa/core/auth.py:23-26 | an authenticator over the given credentials and hasher |
| Auth.Authenticator.AddUser | src/opa/core/auth.py:28-36 | the credentials and result are those of AddUserSpec |
| Auth.Authenticator.RemoveUser | src/opa/core/auth.py:37-39 | the credentials and result are those of RemoveUserSpec; nothing changes on failure |
| Auth.Authenticator.AuthUser | src/opa/core/auth.py:41-51 | true only when the stored hash verifies the password; false for an unknown user |

## Left out

- HTTP transport is not modelled: sessions, the SQLite response cache, and the decoding of response bodies. The HTTP exchange is a function from request to status and decoded body.
- Logging is not modelled.
- Settings, secrets and environment are not modelled. The FMP Cloud access key is a parameter.
- JSON validation by pydantic is abstracted: a response body is already one of the shapes the rows accept (a `historical` object, a list of rows, or anything else), and field coercion is not modelled.
- Prices are reals that are only copied. Dates are integer seconds and calendar days are day numbers, with no time zones.
- The unique indexes and the schema validator live in the database configuration, which is not part of this model. The validator is a parameter, applied to the document written for a value. The company-info collection has no validator in the model.
- Collections are sequences in insertion order that keep the unique-key invariant, rather than maps. An unordered batch is processed in batch order. The server may apply it in another order; the counts and the set of stored keys do not depend on that order. `get_values` re-sorts its result by date anyway.
- BulkWrite.InsertMany: when two different documents of one batch share a unique key, the model always stores the earlier one and reports the later one. The server may apply them in another order and keep the later one instead.
- MongoDb.GetValues: a negative `limit` is not modelled, because the limit is a natural number.
- MongoDb.InsertValuesOutcome: after a handled bulk-write error, `insert_values` returns nothing. `PartiallyInserted` stands for the counts the handler logs.
- MongoDb.Classify: a write error whose code is neither 11000 nor 121 is counted nowhere and raises nothing. This follows the code: such an error is neither counted nor re-raised.
- pymongo refuses an empty batch before reaching the server. Beyond that, server selection, timeouts and connection errors are not modelled.
- The aggregation pipeline of `get_stats` is modelled by its result, not as a pipeline.
- A provider is a pair of functions, so two calls with the same arguments return the same answer.
- The base `StockMarketProvider.get_raw_stock_values` and the unused Alpha Vantage provider are not part of this model.
- The password hasher is a pair of functions. Argon2's random salt is not modelled, because `hash` is deterministic here. The one assumption, that a password verifies against its own hash, is a precondition of the lemma that uses it.
- The credentials storage is a map. Its JSON file, base64 encoding and file I/O are not modelled.
- Auth.AddedUserAuthenticates, Auth.AddUserKeepsOthers and Auth.RemovedUserFails follow directly from the three step functions.
