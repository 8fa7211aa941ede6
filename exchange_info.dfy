/**
 The futures-tradable universe: the symbols that the exchange-info
 response lists with status TRADING (hot_symbol.py, lines 5-24).
 */
module ExchangeInfoFetcher {
  import opened Wrappers
  import opened Market

  const Trading: string := "TRADING"

  /** The symbols of the TRADING entries, in the order the response lists them. */
  function TradingOf(entries: seq<SymbolInfo>): (r: seq<string>)
    ensures |r| <= |entries|
    ensures forall s :: s in r ==> exists i :: TradingAt(entries, i, s)
  {
    if entries == [] then []
    else
      var rest := TradingOf(entries[1..]);
      var head := if entries[0].status == Trading then [entries[0].symbol] else [];
      assert forall s :: s in head + rest ==> exists i :: TradingAt(entries, i, s) by {
        forall s | s in head + rest
          ensures exists i :: TradingAt(entries, i, s)
        {
          if s in head {
            assert TradingAt(entries, 0, s);
          } else {
            var i :| TradingAt(entries[1..], i, s);
            assert TradingAt(entries, i + 1, s);
          }
        }
      }
      head + rest
  }

  /** Entry `i` of `entries` is TRADING and names `s`. */
  predicate TradingAt(entries: seq<SymbolInfo>, i: int, s: string)
  {
    0 <= i < |entries| && entries[i].status == Trading && entries[i].symbol == s
  }

  /**
   What `get_available_futures_symbols` returns for a given exchange-info
   response: nothing when the request failed (None) or the body has no
   `symbols` key, otherwise the TRADING symbols in input order.
   */
  function TradingSymbols(exchange: Option<ExchangeInfo>): seq<string>
  {
    if exchange.None? || exchange.value.symbols.None? then []
    else TradingOf(exchange.value.symbols.value)
  }

  /** Filtering a concatenation filters each part: the result keeps input order. */
  lemma {:induction false} TradingOfSplit(a: seq<SymbolInfo>, b: seq<SymbolInfo>)
    ensures TradingOf(a + b) == TradingOf(a) + TradingOf(b)
  {
    if a == [] {
      assert a + b == b;
    } else {
      var ab := a + b;
      assert ab[0] == a[0];
      assert ab[1..] == a[1..] + b;
      var h := if a[0].status == Trading then [a[0].symbol] else [];
      calc {
        TradingOf(ab);
        h + TradingOf(ab[1..]);
        { TradingOfSplit(a[1..], b); }
        h + (TradingOf(a[1..]) + TradingOf(b));
        (h + TradingOf(a[1..])) + TradingOf(b);
      }
    }
  }

  /** A symbol is listed exactly when some entry naming it is TRADING. */
  lemma {:induction false} TradingOfMembers(entries: seq<SymbolInfo>, s: string)
    ensures s in TradingOf(entries) <==> exists i :: TradingAt(entries, i, s)
  {
    if entries != [] {
      TradingOfMembers(entries[1..], s);
      assert s in TradingOf(entries) <==> TradingAt(entries, 0, s) || s in TradingOf(entries[1..]);
      if exists i :: TradingAt(entries[1..], i, s) {
        var i :| TradingAt(entries[1..], i, s);
        assert TradingAt(entries, i + 1, s);
      }
      if exists i :: TradingAt(entries, i, s) {
        var i :| TradingAt(entries, i, s);
        if i > 0 {
          assert TradingAt(entries[1..], i - 1, s);
        }
      }
    }
  }

  /** The tradable list is empty on a failed request or a body without `symbols`,
      and otherwise holds exactly the symbols of its TRADING entries. */
  lemma TradingSymbolsMembers(exchange: Option<ExchangeInfo>, s: string)
    ensures exchange.None? || exchange.value.symbols.None? ==> TradingSymbols(exchange) == []
    ensures s in TradingSymbols(exchange) <==>
              exchange.Some? && exchange.value.symbols.Some? &&
              exists i :: TradingAt(exchange.value.symbols.value, i, s)
  {
    if exchange.Some? && exchange.value.symbols.Some? {
      TradingOfMembers(exchange.value.symbols.value, s);
    }
  }

  /** `get_available_futures_symbols`: the append loop over `data['symbols']`. */
  method AvailableFuturesSymbols(exchange: Option<ExchangeInfo>) returns (available: seq<string>)
    ensures available == TradingSymbols(exchange)
  {
    if exchange.None? {
      return [];
    }
    var data := exchange.value;
    available := [];
    if data.symbols.Some? {
      var entries := data.symbols.value;
      for i := 0 to |entries|
        invariant available == TradingOf(entries[..i])
      {
        assert entries[..i + 1] == entries[..i] + [entries[i]];
        TradingOfSplit(entries[..i], [entries[i]]);
        if entries[i].status == Trading {
          available := available + [entries[i].symbol];
        }
      }
      assert entries[..|entries|] == entries;
    }
  }

  /** `is_futures_tradable`: fetches the tradable list again and tests membership. */
  method IsFuturesTradable(exchange: Option<ExchangeInfo>, symbol: string) returns (tradable: bool)
    ensures tradable <==> exchange.Some? && exchange.value.symbols.Some? &&
                          exists i :: TradingAt(exchange.value.symbols.value, i, symbol)
    ensures tradable <==> symbol in TradingSymbols(exchange)
  {
    var available := AvailableFuturesSymbols(exchange);
    TradingSymbolsMembers(exchange, symbol);
    tradable := symbol in available;
  }
}
