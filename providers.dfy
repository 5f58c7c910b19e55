/** The stock-market provider interface the reader depends on. */
module Providers {
  import opened Wrappers
  import opened FinancialData

  /** Why a provider call did not produce data. */
  datatype ProviderError =
    | UnsupportedSeries(kind: Kind, granularity: Granularity)  // TypeError: the provider has no such series
    | InvalidResponse                                          // the response does not have the expected shape
    | HttpStatus(status: int)                                  // the server answered with a status of 300 or more

  /** A provider: the series of one ticker in one kind and granularity, and the
      company information of a list of tickers. A provider answers the same question
      with the same data. */
  datatype Provider = Provider(
    getStockValues: (string, Kind, Granularity) -> Result<seq<StockValue>, ProviderError>,
    getCompanyInfo: seq<string> -> Result<seq<CompanyInfo>, ProviderError>)
}
