/**
 `get_30day_high_low` (hot_symbol.py, lines 47-75): the highest high and
 the lowest low over the daily klines of the last 30 days.
 */
module HistoricalRange {
  import opened Wrappers
  import opened Market

  /** The range over the window; the source returns it as the pair (high, low). */
  datatype Range = Range(high: real, low: real)

  /** Python's `max` over a non-empty list. */
  function Max(xs: seq<real>): (m: real)
    requires |xs| > 0
    ensures m in xs
    ensures forall i :: 0 <= i < |xs| ==> xs[i] <= m
  {
    if |xs| == 1 then xs[0]
    else
      var rest := Max(xs[1..]);
      assert forall i :: 1 <= i < |xs| ==> xs[i] == xs[1..][i - 1];
      if xs[0] >= rest then xs[0] else rest
  }

  /** Python's `min` over a non-empty list. */
  function Min(xs: seq<real>): (m: real)
    requires |xs| > 0
    ensures m in xs
    ensures forall i :: 0 <= i < |xs| ==> m <= xs[i]
  {
    if |xs| == 1 then xs[0]
    else
      var rest := Min(xs[1..]);
      assert forall i :: 1 <= i < |xs| ==> xs[i] == xs[1..][i - 1];
      if xs[0] <= rest then xs[0] else rest
  }

  /** `h` is at least every candle high and equals one of them. */
  predicate IsHighest(candles: seq<Candle>, h: real)
  {
    (forall i :: 0 <= i < |candles| ==> candles[i].high <= h) &&
    exists i :: 0 <= i < |candles| && candles[i].high == h
  }

  /** `l` is at most every candle low and equals one of them. */
  predicate IsLowest(candles: seq<Candle>, l: real)
  {
    (forall i :: 0 <= i < |candles| ==> l <= candles[i].low) &&
    exists i :: 0 <= i < |candles| && candles[i].low == l
  }

  /**
   The range of a klines response: absent when the request failed (None)
   or returned no candles, otherwise the highest high and the lowest low.
   */
  function HighLow(klines: Option<seq<Candle>>): (r: Option<Range>)
    ensures r.None? <==> klines.None? || klines.value == []
    ensures r.Some? ==> IsHighest(klines.value, r.value.high) && IsLowest(klines.value, r.value.low)
  {
    if klines.None? || klines.value == [] then None
    else
      var data := klines.value;
      var highPrices := seq(|data|, i requires 0 <= i < |data| => data[i].high);
      var lowPrices := seq(|data|, i requires 0 <= i < |data| => data[i].low);
      var high := Max(highPrices);
      var low := Min(lowPrices);
      assert forall i :: 0 <= i < |data| ==> data[i].high == highPrices[i] && data[i].low == lowPrices[i];
      assert exists i :: 0 <= i < |data| && data[i].high == high by {
        var i :| 0 <= i < |highPrices| && highPrices[i] == high;
      }
      assert exists i :: 0 <= i < |data| && data[i].low == low by {
        var i :| 0 <= i < |lowPrices| && lowPrices[i] == low;
      }
      Some(Range(high, low))
  }

  /** The highest high and the lowest low are unique: they are the range. */
  lemma HighLowUnique(candles: seq<Candle>, h: real, l: real)
    requires IsHighest(candles, h) && IsLowest(candles, l)
    ensures HighLow(Some(candles)) == Some(Range(h, l))
  {
    var r := HighLow(Some(candles));
    var i :| 0 <= i < |candles| && candles[i].high == h;
    var j :| 0 <= j < |candles| && candles[j].high == r.value.high;
    var p :| 0 <= p < |candles| && candles[p].low == l;
    var q :| 0 <= q < |candles| && candles[q].low == r.value.low;
  }
}
