# Hot-symbol screener, modelled in Dafny

The screener (`hot_symbol.py`) looks at a futures exchange's public market
data. It finds the futures-tradable USDT-quoted symbols with the largest
24-hour gains, then reports those whose current price is at least 200% of
their 30-day low. This project models the decision logic of that script and
proves its properties. The network requests are replaced by their decoded
responses, given as inputs.

- `wrappers.dfy` (`Wrappers`): `Option`. `None` stands for a failed request or an absent value.
- `market.dfy` (`Market`): the decoded records. These are an exchange-info
  entry (`SymbolInfo`), the exchange-info body (`ExchangeInfo`, with the
  `symbols` key optional), a 24-hour `Ticker` and a daily `Candle`. The
  module also holds Python's `str.endswith`.
- `exchange_info.dfy` (`ExchangeInfoFetcher`): `get_available_futures_symbols`
  as an append loop (`AvailableFuturesSymbols`), specified by
  `TradingSymbols`, and `is_futures_tradable`.
- `stable_sort.dfy` (`StableSort`): `sorted(..., reverse=True)` on the
  percent change. It is written as a stable insertion sort, with its
  sortedness, permutation and stability proved. `StableSortUnique` shows
  that any other stable descending sort gives the same list.
- `gainers.dfy` (`GainerRanking`): `get_top_tradable_gainers`. This is the
  USDT filter, the ranking, and the walk that keeps tradable tickers and
  stops at 30.
- `historical_range.dfy` (`HistoricalRange`): `get_30day_high_low`.
- `volume_format.dfy` (`VolumeFormat`): the bucket choice of `format_volume`.
- `report.dfy` (`ReportDriver`): `main`. This is the per-gainer loop with its
  `continue`s, the 200% test and `displayed_count`. The per-symbol klines
  and single-ticker requests are function parameters `string -> Option<...>`.

`is_futures_tradable` fetches the exchange info again for every candidate.
The model assumes that every re-fetch gets the same response: it passes one
`exchange` value to each call. `CollectTradable` calls `IsFuturesTradable`,
which calls `AvailableFuturesSymbols` once per ranked ticker.

Two details of the report loop:
- The current price is the bulk gainer's `lastPrice` (line 118). The
  single-symbol ticker supplies only the 24-hour change and the volume
  shown in the row.
- The 200% threshold is inclusive: the skip test is `current_increase < 200`
  (line 123).

## Model

| member | source | states |
|---|---|---|
| ExchangeInfoFetcher.AvailableFuturesSymbols | hot_symbol.py:5-20 | the append loop returns exactly TradingSymbols of the response: empty on a failed request or a body without `symbols`, else the TRADING symbols |
| ExchangeInfoFetcher.TradingSymbolsMembers | hot_symbol.py:11-20 | the list is empty when the request failed or `symbols` is absent; otherwise a symbol is in it iff some entry naming it has status TRADING |
| ExchangeInfoFetcher.TradingOf | hot_symbol.py:16-19 | every kept symbol is the symbol of some TRADING entry, and there are no more symbols than entries |
| ExchangeInfoFetcher.TradingOfMembers | hot_symbol.py:16-19 | a symbol is kept iff some entry naming it has status TRADING |
| ExchangeInfoFetcher.TradingOfSplit | hot_symbol.py:17-19 | extraction distributes over concatenation, so the symbols keep input order |
| ExchangeInfoFetcher.IsFuturesTradable | hot_symbol.py:22-24 | true iff the (re-fetched, same) exchange-info response lists the symbol as TRADING |
| StableSort.SortByChangeDesc | hot_symbol.py:37 | the ranking is a permutation of its input, of the same length, non-increasing by percent change |
| StableSort.SortStable | hot_symbol.py:37 | stability: for every percent change k, the tickers with change k appear in the ranking in input order |
| StableSort.StableSortUnique | hot_symbol.py:37 | two lists that are both sorted descending and agree on every key's subsequence are equal, so any stable descending sort gives this ranking |
| GainerRanking.UsdtOnly | hot_symbol.py:36 | the comprehension keeps no more tickers than the response has, and each kept ticker is in the response with a symbol ending in USDT |
| GainerRanking.UsdtOnlyMembers | hot_symbol.py:36 | a ticker is kept by the comprehension iff it is in the response and its symbol ends in USDT |
| GainerRanking.TradableInSort | hot_symbol.py:37-42 | keeping the tradable tickers of the ranking equals ranking the tradable tickers |
| GainerRanking.TopGainers | hot_symbol.py:36-45 | the reference result of the gainer walk has at most 30 tickers, listed non-increasing by percent change; its exact contents are in TopGainersRanked |
| GainerRanking.TopGainersRanked | hot_symbol.py:36-45 | the gainers are the first min(30, k) entries of the stable ranking of the k tradable USDT tickers, and there are exactly min(30, k) of them |
| GainerRanking.TopGainersMembers | hot_symbol.py:36-42 | every gainer is a ticker of the response, its symbol ends in USDT, and it is in the tradable set |
| GainerRanking.TopGainersTiesInOrder | hot_symbol.py:37-42 | for every percent change, the gainers with that change are a prefix of the qualifying tickers with that change, in input order |
| GainerRanking.TopGainersNoneSkipped | hot_symbol.py:39-45 | a qualifying ticker with a higher change than some gainer is a gainer; below 30 gainers every qualifying ticker is one |
| GainerRanking.CappedAtBreak | hot_symbol.py:42-44 | when the 30th tradable ticker is appended, the list so far is the capped result, so breaking loses nothing |
| GainerRanking.CollectTradable | hot_symbol.py:39-45 | the walk with its break at 30 returns the first min(30, n) tradable tickers of the ranking, at most 30 |
| GainerRanking.TopTradableGainers | hot_symbol.py:26-45 | no gainers on a failed ticker request; otherwise the result is TopGainers of the response and the tradable set |
| HistoricalRange.Max | hot_symbol.py:73 | the maximum of a non-empty list is one of its elements and at least every element |
| HistoricalRange.Min | hot_symbol.py:74 | the minimum of a non-empty list is one of its elements and at most every element |
| HistoricalRange.HighLow | hot_symbol.py:54-75 | absent iff the request failed or there are no candles; otherwise high is at least every candle high and equals one, low is at most every candle low and equals one |
| HistoricalRange.HighLowUnique | hot_symbol.py:66-75 | any highest-high and lowest-low pair of a non-empty candle list is the range returned |
| VolumeFormat.FormatVolume | hot_symbol.py:88-95 | 亿 iff volume >= 100000000, 万 iff 10000 <= volume < 100000000, no suffix iff volume < 10000; amount times the unit's divisor is the volume; a 亿 or 万 amount is at least 1 |
| VolumeFormat.FormatVolumeMonotone | hot_symbol.py:90-95 | a larger volume never gets a smaller unit |
| VolumeFormat.FormatVolumeExamples | hot_symbol.py:90-95 | 150000000 is 1.5 亿, 25000 is 2.5 万, 500 is 500, and both boundaries fall in the upper bucket |
| ReportDriver.PercentOfLow | hot_symbol.py:119-120 | 0 when the low is 0, otherwise the value times the low is x times 100 |
| ReportDriver.Evaluate | hot_symbol.py:107-134 | a gainer is displayed iff its range and ticker are present, low != 0 and lastPrice/low*100 >= 200; the row carries the range, the bulk last price, both percentages and the formatted volume |
| ReportDriver.ThresholdBoundaries | hot_symbol.py:119-124 | a zero low is never displayed; for a positive low the gainer is displayed iff price >= 2 * low, so exactly 200% is included |
| ReportDriver.CollectSplit | hot_symbol.py:106-124 | the rows of a concatenation are the rows of each part: a skipped gainer does not stop later ones |
| ReportDriver.CollectCount | hot_symbol.py:126 | the number of rows is the number of indices whose gainer is displayed |
| ReportDriver.CollectMembers | hot_symbol.py:126-134 | every row is what one of the gainers displays |
| ReportDriver.RowsFacts | hot_symbol.py:105-137 | for the fetched responses: rows concatenate over runs of gainers, their number is the number of gainers displayed, each row comes from one gainer |
| ReportDriver.SingleGainerExample | hot_symbol.py:97-134 | with BTCUSDT TRADING at +50%, low 10, high 30, bulk last price 25 and a single-symbol last price of 0, it is the only gainer and is shown at price 25 with 300% and 250% |
| ReportDriver.ReportGainers | hot_symbol.py:105-137 | the loop with its continues returns exactly Rows of the gainers, and displayed_count equals the number of rows |
| ReportDriver.HotSymbolReport | hot_symbol.py:97-138 | no report when there are no gainers, otherwise the rows of the gainers and their count; a count of 0 is the "none above 200%" case |

## Left out

- HTTP requests, `raise_for_status` and JSON decoding (lines 8-10, 29-31, 55-57, 80-82) are network I/O. Each decoded response is an input, and `None` stands for the `RequestException` path.
- Exceptions the source does not catch are not modelled. These are a JSON decoding error, a missing key, a kline row shorter than four fields, and a numeric string `float` rejects. The model's records always carry their fields.
- Parsing numeric strings with `float` and IEEE-754 arithmetic: prices, percentages and volumes are exact reals.
- FormatVolume: the amount is the exact quotient, not the IEEE-754 double that Python divides to and then rounds to two decimals.
- Printing, including the f-string rendering with `:.2f` (lines 91-95, 101, 104, 110, 115, 127-134, 138). The model returns the rows and the volume's bucket and scaled amount. `Suffix` gives the suffix text.
- A re-fetch inside `is_futures_tradable` that fails, or that returns a different list for one candidate, is not modelled. In the source that candidate alone is then skipped (lines 11-13, 40-41).
- `time.sleep(0.2)` (line 135) only throttles requests and has no other effect.
- The check at lines 69-71 can never fire after the emptiness check at line 62, because each comprehension has one element per candle. `HighLow` has only the line-62 branch.
- The `Candle` record keeps only the high (index 2) and the low (index 3) of a kline row, the two fields the source reads.
- `get_ticker_info` (lines 77-86) returns the response or None unchanged. Its result is the `quotes` parameter.
