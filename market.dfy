/**
 The decoded bodies of the exchange's futures market-data endpoints.
 Numeric fields that the exchange sends as strings are already parsed,
 as exact reals.
 */
module Market {
  import opened Wrappers

  /** One entry of the exchange-info `symbols` array. */
  datatype SymbolInfo = SymbolInfo(symbol: string, status: string)

  /** The exchange-info body; `symbols` is None when that key is absent. */
  datatype ExchangeInfo = ExchangeInfo(symbols: Option<seq<SymbolInfo>>)

  /** 24-hour statistics of one symbol, as the ticker endpoints report them. */
  datatype Ticker = Ticker(symbol: string, lastPrice: real, priceChangePercent: real, quoteVolume: real)

  /** One daily kline, reduced to the two fields that are read: the high
      (index 2 of the row) and the low (index 3). */
  datatype Candle = Candle(high: real, low: real)

  /** Python's `str.endswith`. */
  predicate EndsWith(s: string, suffix: string)
  {
    |suffix| <= |s| && s[|s| - |suffix|..] == suffix
  }
}
