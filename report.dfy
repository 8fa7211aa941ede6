/**
 The report driver, `main` (hot_symbol.py, lines 97-138): for each gainer,
 fetch its 30-day range and its 24-hour ticker, and show it when the current
 price is at least 200% of the 30-day low.

 The per-symbol requests are parameters: `klines` gives the klines response
 for a symbol and `quotes` the single-symbol ticker response, None standing
 for a failed request.
 */
module ReportDriver {
  import opened Wrappers
  import opened Market
  import opened ExchangeInfoFetcher
  import opened GainerRanking
  import StableSort
  import opened HistoricalRange
  import opened VolumeFormat

  /** Percent threshold on current price over the 30-day low. */
  const IncreaseThreshold: real := 200.0

  /** One displayed block of the report. */
  datatype Row = Row(
    symbol: string,
    high: real,
    low: real,
    currentPrice: real,
    dayChangePercent: real,
    changePercent: real,
    currentIncrease: real,
    volume: ScaledVolume)

  /** What the run prints: no gainers at all, or the shown rows and their count;
      a count of zero is the "nothing above 200%" message. */
  datatype Report = NoGainers | Finished(rows: seq<Row>, displayedCount: nat)

  /** `(x / low) * 100`, or 0 when the low is 0 (lines 119-120). */
  function PercentOfLow(x: real, low: real): (r: real)
    ensures low == 0.0 ==> r == 0.0
    ensures low != 0.0 ==> r * low == x * 100.0
  {
    if low != 0.0 then (x / low) * 100.0 else 0.0
  }

  /**
   One pass of the loop body: absent when the range or the ticker is
   missing or the current increase is below the threshold, otherwise the
   block shown for the gainer. The current price is the bulk ticker's
   last price; the single-symbol ticker supplies the 24-hour change and
   the volume.
   */
  function Evaluate(gainer: Ticker, range: Option<Range>, info: Option<Ticker>): (r: Option<Row>)
    ensures r.Some? <==> range.Some? && info.Some? && range.value.low != 0.0 &&
                         gainer.lastPrice / range.value.low * 100.0 >= IncreaseThreshold
    ensures r.Some? ==> r.value.symbol == gainer.symbol && r.value.currentPrice == gainer.lastPrice &&
                        r.value.high == range.value.high && r.value.low == range.value.low &&
                        r.value.currentIncrease * r.value.low == r.value.currentPrice * 100.0 &&
                        r.value.changePercent * r.value.low == r.value.high * 100.0 &&
                        r.value.dayChangePercent == info.value.priceChangePercent &&
                        r.value.volume == FormatVolume(info.value.quoteVolume)
  {
    if range.None? then None
    else if info.None? then None
    else
      var currentPrice := gainer.lastPrice;
      var changePercent := PercentOfLow(range.value.high, range.value.low);
      var currentIncrease := PercentOfLow(currentPrice, range.value.low);
      if currentIncrease < IncreaseThreshold then None
      else Some(Row(gainer.symbol, range.value.high, range.value.low, currentPrice,
                    info.value.priceChangePercent, changePercent, currentIncrease,
                    FormatVolume(info.value.quoteVolume)))
  }

  /** What the loop shows for one gainer, from the responses for its symbol. */
  function Shown(gainer: Ticker, klines: string -> Option<seq<Candle>>, quotes: string -> Option<Ticker>): Option<Row>
  {
    Evaluate(gainer, HighLow(klines(gainer.symbol)), quotes(gainer.symbol))
  }

  /** The blocks that `show` yields for a list of gainers, in order. */
  function Collect(gainers: seq<Ticker>, show: Ticker -> Option<Row>): seq<Row>
  {
    if gainers == [] then []
    else (if show(gainers[0]).Some? then [show(gainers[0]).value] else []) + Collect(gainers[1..], show)
  }

  /** The blocks shown for a list of gainers, in order. */
  function Rows(gainers: seq<Ticker>, klines: string -> Option<seq<Candle>>, quotes: string -> Option<Ticker>): seq<Row>
  {
    Collect(gainers, g => Shown(g, klines, quotes))
  }

  /** The indices of the gainers that `show` displays. */
  function ShownIndices(gainers: seq<Ticker>, show: Ticker -> Option<Row>): set<int>
  {
    set i | 0 <= i < |gainers| && show(gainers[i]).Some?
  }

  /** Each gainer is handled on its own: a skipped one does not stop those after it. */
  lemma {:induction false} CollectSplit(a: seq<Ticker>, b: seq<Ticker>, show: Ticker -> Option<Row>)
    ensures Collect(a + b, show) == Collect(a, show) + Collect(b, show)
  {
    if a == [] {
      assert a + b == b;
    } else {
      var ab := a + b;
      assert ab[0] == a[0];
      assert ab[1..] == a[1..] + b;
      var h := if show(a[0]).Some? then [show(a[0]).value] else [];
      calc {
        Collect(ab, show);
        h + Collect(ab[1..], show);
        { CollectSplit(a[1..], b, show); }
        h + (Collect(a[1..], show) + Collect(b, show));
        (h + Collect(a[1..], show)) + Collect(b, show);
      }
    }
  }

  /** The number of blocks is the number of gainers that pass every check. */
  lemma {:induction false} CollectCount(gainers: seq<Ticker>, show: Ticker -> Option<Row>)
    ensures |Collect(gainers, show)| == |ShownIndices(gainers, show)|
    decreases |gainers|
  {
    if gainers != [] {
      var n := |gainers| - 1;
      var init := gainers[..n];
      var last := gainers[n];
      assert gainers == init + [last];
      CollectSplit(init, [last], show);
      CollectCount(init, show);
      var before := ShownIndices(init, show);
      var lastShown := if show(last).Some? then {n} else {};
      forall i
        ensures i in ShownIndices(gainers, show) <==> i in before + lastShown
      {
        if 0 <= i < n {
          assert gainers[i] == init[i];
        }
      }
      assert ShownIndices(gainers, show) == before + lastShown;
      assert n !in before;
    }
  }

  /** Every block shown comes from one of the gainers. */
  lemma {:induction false} CollectMembers(gainers: seq<Ticker>, show: Ticker -> Option<Row>, row: Row)
    requires row in Collect(gainers, show)
    ensures exists i :: 0 <= i < |gainers| && show(gainers[i]) == Some(row)
  {
    if show(gainers[0]) != Some(row) {
      CollectMembers(gainers[1..], show, row);
      var i :| 0 <= i < |gainers[1..]| && show(gainers[1..][i]) == Some(row);
      assert gainers[i + 1] == gainers[1..][i];
    }
  }

  /**
   CollectSplit, CollectCount and CollectMembers restated for `Rows`, the
   rows shown from the fetched responses; it adds no fact of its own. The
   rows of two runs of gainers concatenate, their number is the number of
   gainers shown, and each row is what one gainer's responses show.
   */
  lemma RowsFacts(a: seq<Ticker>, b: seq<Ticker>, klines: string -> Option<seq<Candle>>, quotes: string -> Option<Ticker>)
    ensures Rows(a + b, klines, quotes) == Rows(a, klines, quotes) + Rows(b, klines, quotes)
    ensures |Rows(a, klines, quotes)| ==
            |set i | 0 <= i < |a| && Shown(a[i], klines, quotes).Some?|
    ensures forall row :: row in Rows(a, klines, quotes) ==>
              exists i :: 0 <= i < |a| && Shown(a[i], klines, quotes) == Some(row)
  {
    var show := g => Shown(g, klines, quotes);
    CollectSplit(a, b, show);
    CollectCount(a, show);
    assert ShownIndices(a, show) == set i | 0 <= i < |a| && Shown(a[i], klines, quotes).Some?;
    forall row | row in Rows(a, klines, quotes)
      ensures exists i :: 0 <= i < |a| && Shown(a[i], klines, quotes) == Some(row)
    {
      CollectMembers(a, show, row);
    }
  }

  /** The threshold is inclusive, and a zero low never shows a gainer. */
  lemma ThresholdBoundaries(gainer: Ticker, range: Range, info: Ticker)
    ensures range.low == 0.0 ==> Evaluate(gainer, Some(range), Some(info)).None?
    ensures range.low > 0.0 ==>
              (Evaluate(gainer, Some(range), Some(info)).Some? <==> gainer.lastPrice >= 2.0 * range.low)
  {
    if range.low > 0.0 {
      var p := gainer.lastPrice / range.low;
      assert p * range.low == gainer.lastPrice;
      assert p * 100.0 >= 200.0 <==> p >= 2.0;
      assert p >= 2.0 <==> p * range.low >= 2.0 * range.low;
    }
  }

  /** One tradable gainer whose price is 250% of its 30-day low is shown,
      with a 300% high-over-low and a 250% current increase. The
      single-symbol response carries a last price of 0, so the row's price
      of 25 can only come from the bulk gainer. */
  lemma SingleGainerExample(klines: string -> Option<seq<Candle>>, quotes: string -> Option<Ticker>)
    requires klines("BTCUSDT") == Some([Candle(30.0, 10.0)])
    requires quotes("BTCUSDT") == Some(Ticker("BTCUSDT", 0.0, 50.0, 500.0))
    ensures var btc := Ticker("BTCUSDT", 25.0, 50.0, 500.0);
            var exchange := Some(ExchangeInfo(Some([SymbolInfo("BTCUSDT", "TRADING")])));
            TopGainers([btc], TradingSymbols(exchange)) == [btc] &&
            Rows([btc], klines, quotes) ==
              [Row("BTCUSDT", 30.0, 10.0, 25.0, 50.0, 300.0, 250.0, ScaledVolume(500.0, Units))]
  {
    var btc := Ticker("BTCUSDT", 25.0, 50.0, 500.0);
    var exchange := Some(ExchangeInfo(Some([SymbolInfo("BTCUSDT", "TRADING")])));
    assert EndsWith(btc.symbol, QuoteAsset);
    assert TradingSymbols(exchange) == ["BTCUSDT"];
    assert UsdtOnly([btc]) == [btc];
    assert StableSort.SortByChangeDesc([btc]) == [btc];
    assert TradableIn([btc], ["BTCUSDT"]) == [btc];
    var range := HighLow(klines("BTCUSDT"));
    assert range == Some(Range(30.0, 10.0));
    assert Shown(btc, klines, quotes).Some?;
  }

  /** The loop of lines 105-136, with its `continue`s and its count. */
  method ReportGainers(gainers: seq<Ticker>, klines: string -> Option<seq<Candle>>, quotes: string -> Option<Ticker>)
    returns (rows: seq<Row>, displayedCount: nat)
    ensures rows == Rows(gainers, klines, quotes)
    ensures displayedCount == |rows|
  {
    rows := [];
    displayedCount := 0;
    for i := 0 to |gainers|
      invariant rows == Rows(gainers[..i], klines, quotes)
      invariant displayedCount == |rows|
    {
      assert gainers[..i + 1] == gainers[..i] + [gainers[i]];
      CollectSplit(gainers[..i], [gainers[i]], g => Shown(g, klines, quotes));
      var gainer := gainers[i];
      var symbol := gainer.symbol;
      var range := HighLow(klines(symbol));
      if range.None? {
        continue;
      }
      var tickerInfo := quotes(symbol);
      if tickerInfo.None? {
        continue;
      }
      var currentPrice := gainer.lastPrice;
      var changePercent := PercentOfLow(range.value.high, range.value.low);
      var currentIncrease := PercentOfLow(currentPrice, range.value.low);
      if currentIncrease < IncreaseThreshold {
        continue;
      }
      displayedCount := displayedCount + 1;
      rows := rows + [Row(symbol, range.value.high, range.value.low, currentPrice,
                          tickerInfo.value.priceChangePercent, changePercent, currentIncrease,
                          FormatVolume(tickerInfo.value.quoteVolume))];
    }
    assert gainers[..|gainers|] == gainers;
  }

  /** `main`: rank the gainers, stop early when there are none, else run the loop. */
  method HotSymbolReport(
    tickers: Option<seq<Ticker>>,
    exchange: Option<ExchangeInfo>,
    klines: string -> Option<seq<Candle>>,
    quotes: string -> Option<Ticker>)
    returns (report: Report)
    ensures var gainers := if tickers.None? then [] else TopGainers(tickers.value, TradingSymbols(exchange));
            report == if gainers == [] then NoGainers
                      else Finished(Rows(gainers, klines, quotes), |Rows(gainers, klines, quotes)|)
  {
    var topGainers := TopTradableGainers(tickers, exchange);
    if topGainers == [] {
      return NoGainers;
    }
    var rows, displayedCount := ReportGainers(topGainers, klines, quotes);
    report := Finished(rows, displayedCount);
  }
}
