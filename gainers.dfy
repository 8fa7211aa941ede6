/**
 `get_top_tradable_gainers` (hot_symbol.py, lines 26-45): the USDT-quoted
 tickers, ranked by 24-hour percent change, highest first, kept only when
 futures-tradable, at most 30 of them.
 */
module GainerRanking {
  import opened Wrappers
  import opened Market
  import opened ExchangeInfoFetcher
  import opened StableSort

  const QuoteAsset: string := "USDT"
  const MaxGainers: nat := 30

  /** The comprehension of line 36: tickers whose symbol ends in USDT, in input order. */
  function UsdtOnly(data: seq<Ticker>): (r: seq<Ticker>)
    ensures |r| <= |data|
    ensures forall x :: x in r ==> x in data && EndsWith(x.symbol, QuoteAsset)
  {
    if data == [] then []
    else
      var rest := UsdtOnly(data[1..]);
      var head := if EndsWith(data[0].symbol, QuoteAsset) then [data[0]] else [];
      assert forall x :: x in head + rest ==> x in data && EndsWith(x.symbol, QuoteAsset) by {
        forall x | x in head + rest
          ensures x in data && EndsWith(x.symbol, QuoteAsset)
        {
          if x !in head {
            assert x in data[1..];
          }
        }
      }
      head + rest
  }

  /** The tickers whose symbol is in the tradable list, in input order. */
  function TradableIn(s: seq<Ticker>, tradable: seq<string>): seq<Ticker>
  {
    if s == [] then []
    else (if s[0].symbol in tradable then [s[0]] else []) + TradableIn(s[1..], tradable)
  }

  /** The tradable USDT tickers, in the order the bulk ticker response lists them. */
  function Qualifying(data: seq<Ticker>, tradable: seq<string>): seq<Ticker>
  {
    TradableIn(UsdtOnly(data), tradable)
  }

  function MinInt(a: int, b: int): int
  {
    if a <= b then a else b
  }

  /**
   What the gainer loop returns: walking the ranking of the USDT tickers,
   the first tradable ones, up to MaxGainers of them, listed by percent
   change, highest first.
   */
  function TopGainers(data: seq<Ticker>, tradable: seq<string>): (r: seq<Ticker>)
    ensures |r| <= MaxGainers
    ensures SortedDesc(r)
  {
    TradableInSorted(SortByChangeDesc(UsdtOnly(data)), tradable);
    Capped(TradableIn(SortByChangeDesc(UsdtOnly(data)), tradable))
  }

  /** The first MaxGainers entries, or all of them when there are fewer. */
  function Capped(ranked: seq<Ticker>): seq<Ticker>
  {
    ranked[..MinInt(|ranked|, MaxGainers)]
  }

  /** The walk stops at the ticker that makes the MaxGainers-th gainer. */
  lemma CappedAtBreak(s: seq<Ticker>, i: nat, tradable: seq<string>)
    requires i < |s| && |TradableIn(s[..i + 1], tradable)| == MaxGainers
    ensures Capped(TradableIn(s, tradable)) == TradableIn(s[..i + 1], tradable)
  {
    assert s == s[..i + 1] + s[i + 1..];
    TradableInSplit(s[..i + 1], s[i + 1..], tradable);
  }

  lemma {:induction false} TradableInSplit(a: seq<Ticker>, b: seq<Ticker>, tradable: seq<string>)
    ensures TradableIn(a + b, tradable) == TradableIn(a, tradable) + TradableIn(b, tradable)
  {
    if a == [] {
      assert a + b == b;
    } else {
      var ab := a + b;
      assert ab[0] == a[0];
      assert ab[1..] == a[1..] + b;
      var h := if a[0].symbol in tradable then [a[0]] else [];
      calc {
        TradableIn(ab, tradable);
        h + TradableIn(ab[1..], tradable);
        { TradableInSplit(a[1..], b, tradable); }
        h + (TradableIn(a[1..], tradable) + TradableIn(b, tradable));
        (h + TradableIn(a[1..], tradable)) + TradableIn(b, tradable);
      }
    }
  }

  lemma {:induction false} UsdtOnlyMembers(data: seq<Ticker>, x: Ticker)
    ensures x in UsdtOnly(data) <==> x in data && EndsWith(x.symbol, QuoteAsset)
  {
    if data != [] {
      UsdtOnlyMembers(data[1..], x);
      assert x in data <==> x == data[0] || x in data[1..];
    }
  }

  lemma {:induction false} TradableInMembers(s: seq<Ticker>, tradable: seq<string>, x: Ticker)
    ensures x in TradableIn(s, tradable) <==> x in s && x.symbol in tradable
  {
    if s != [] {
      TradableInMembers(s[1..], tradable, x);
      assert x in s <==> x == s[0] || x in s[1..];
    }
  }

  /** Filtering a sorted list leaves it sorted. */
  lemma {:induction false} TradableInSorted(s: seq<Ticker>, tradable: seq<string>)
    requires SortedDesc(s)
    ensures SortedDesc(TradableIn(s, tradable))
  {
    if s != [] {
      TradableInSorted(s[1..], tradable);
      var rest := TradableIn(s[1..], tradable);
      if s[0].symbol in tradable {
        var r := [s[0]] + rest;
        forall i, j | 0 <= i < j < |r|
          ensures Key(r[i]) >= Key(r[j])
        {
          assert r[j] == rest[j - 1];
          TradableInMembers(s[1..], tradable, rest[j - 1]);
          SortedHead(s, rest[j - 1]);
          if i > 0 {
            assert r[i] == rest[i - 1];
          }
        }
      }
    }
  }

  /** The tradability filter and the keyed selection commute. */
  lemma {:induction false} TradableInWithKey(s: seq<Ticker>, tradable: seq<string>, k: real)
    ensures WithKey(TradableIn(s, tradable), k) == TradableIn(WithKey(s, k), tradable)
  {
    if s != [] {
      TradableInWithKey(s[1..], tradable, k);
      var head := if s[0].symbol in tradable then [s[0]] else [];
      WithKeySplit(head, TradableIn(s[1..], tradable), k);
      var keyed := if Key(s[0]) == k then [s[0]] else [];
      TradableInSplit(keyed, WithKey(s[1..], k), tradable);
    }
  }

  /** Filtering the stable ranking equals ranking the filtered list. */
  lemma TradableInSort(s: seq<Ticker>, tradable: seq<string>)
    ensures TradableIn(SortByChangeDesc(s), tradable) == SortByChangeDesc(TradableIn(s, tradable))
  {
    var a := TradableIn(SortByChangeDesc(s), tradable);
    var b := SortByChangeDesc(TradableIn(s, tradable));
    TradableInSorted(SortByChangeDesc(s), tradable);
    forall k
      ensures WithKey(a, k) == WithKey(b, k)
    {
      TradableInWithKey(SortByChangeDesc(s), tradable, k);
      SortStable(s, k);
      TradableInWithKey(s, tradable, k);
      SortStable(TradableIn(s, tradable), k);
    }
    StableSortUnique(a, b);
  }

  /**
   The gainers are exactly the first min(30, k) entries of the stable
   ranking of the k tradable USDT tickers.
   */
  lemma TopGainersRanked(data: seq<Ticker>, tradable: seq<string>)
    ensures var q := Qualifying(data, tradable);
            var n := MinInt(|q|, MaxGainers);
            |TopGainers(data, tradable)| == n &&
            TopGainers(data, tradable) == SortByChangeDesc(q)[..n]
  {
    TradableInSort(UsdtOnly(data), tradable);
  }

  /** Every gainer comes from the response, ends in USDT and is tradable. */
  lemma TopGainersMembers(data: seq<Ticker>, tradable: seq<string>, x: Ticker)
    requires x in TopGainers(data, tradable)
    ensures x in data
    ensures EndsWith(x.symbol, QuoteAsset)
    ensures x.symbol in tradable
  {
    var sorted := SortByChangeDesc(UsdtOnly(data));
    var ranked := TradableIn(sorted, tradable);
    assert x in ranked;
    TradableInMembers(sorted, tradable, x);
    assert x in multiset(sorted);
    UsdtOnlyMembers(data, x);
  }

  /** Ties keep their input order: for every percent change, the gainers with
      that change are a prefix of the qualifying tickers with that change. */
  lemma TopGainersTiesInOrder(data: seq<Ticker>, tradable: seq<string>, k: real)
    ensures WithKey(TopGainers(data, tradable), k) <= WithKey(Qualifying(data, tradable), k)
  {
    var q := Qualifying(data, tradable);
    TopGainersRanked(data, tradable);
    RankingPrefixInOrder(q, MinInt(|q|, MaxGainers), k);
  }

  /**
   No qualifying ticker is skipped before the cap: one with a higher
   percent change than some gainer is itself a gainer, and below the cap
   every qualifying ticker is a gainer.
   */
  lemma TopGainersNoneSkipped(data: seq<Ticker>, tradable: seq<string>, t: Ticker, i: int)
    requires t in Qualifying(data, tradable)
    ensures 0 <= i < |TopGainers(data, tradable)| && Key(t) > Key(TopGainers(data, tradable)[i]) ==>
              t in TopGainers(data, tradable)
    ensures |TopGainers(data, tradable)| < MaxGainers ==> t in TopGainers(data, tradable)
  {
    var q := Qualifying(data, tradable);
    TopGainersRanked(data, tradable);
    RankingPrefixNoneSkipped(q, MinInt(|q|, MaxGainers), t, i);
  }

  /** `get_top_tradable_gainers`: the USDT filter and the ranking, then the
      capped walk over the ranking. A failed ticker request yields no gainers. */
  method TopTradableGainers(tickers: Option<seq<Ticker>>, exchange: Option<ExchangeInfo>)
    returns (gainers: seq<Ticker>)
    ensures tickers.None? ==> gainers == []
    ensures tickers.Some? ==> gainers == TopGainers(tickers.value, TradingSymbols(exchange))
  {
    if tickers.None? {
      return [];
    }
    var futuresData := UsdtOnly(tickers.value);
    var sortedData := SortByChangeDesc(futuresData);
    gainers := CollectTradable(sortedData, exchange);
  }

  /** The loop of lines 39-44: walks the ranking, asks `is_futures_tradable`
      about each ticker, appends the tradable ones and stops at MaxGainers. */
  method CollectTradable(sortedData: seq<Ticker>, exchange: Option<ExchangeInfo>)
    returns (gainers: seq<Ticker>)
    ensures gainers == Capped(TradableIn(sortedData, TradingSymbols(exchange)))
    ensures |gainers| <= MaxGainers
  {
    ghost var tradable := TradingSymbols(exchange);
    gainers := [];
    var i := 0;
    while i < |sortedData|
      invariant 0 <= i <= |sortedData|
      invariant gainers == TradableIn(sortedData[..i], tradable)
      invariant |gainers| < MaxGainers
    {
      var item := sortedData[i];
      assert sortedData[..i + 1] == sortedData[..i] + [item];
      TradableInSplit(sortedData[..i], [item], tradable);
      var isTradable := IsFuturesTradable(exchange, item.symbol);
      if isTradable {
        gainers := gainers + [item];
        if |gainers| >= MaxGainers {
          CappedAtBreak(sortedData, i, tradable);
          break;
        }
      }
      i := i + 1;
    }
    if i == |sortedData| {
      assert sortedData[..i] == sortedData;
    }
  }
}
