/**
 Python's `sorted(xs, key=lambda x: float(x['priceChangePercent']), reverse=True)`
 (hot_symbol.py, line 37): a stable sort by percent change, highest first.
 Python's `reverse=True` keeps stability, so tickers with equal percent
 change keep their input order. The sort is written as an insertion sort;
 StableSortUnique shows that any stable descending sort gives the same list.
 */
module StableSort {
  import opened Market

  function Key(t: Ticker): real
  {
    t.priceChangePercent
  }

  /** Non-increasing by percent change. */
  predicate SortedDesc(s: seq<Ticker>)
  {
    forall i, j :: 0 <= i < j < |s| ==> Key(s[i]) >= Key(s[j])
  }

  /** The subsequence of tickers whose percent change is exactly `k`. */
  function WithKey(s: seq<Ticker>, k: real): seq<Ticker>
  {
    if s == [] then []
    else (if Key(s[0]) == k then [s[0]] else []) + WithKey(s[1..], k)
  }

  /** Inserts `t` before the first element whose key is not above its own,
      so `t` precedes every element of `s` with an equal key. */
  function Insert(t: Ticker, s: seq<Ticker>): (r: seq<Ticker>)
    ensures |r| == |s| + 1
    ensures multiset(r) == multiset([t] + s)
  {
    if s == [] || Key(s[0]) <= Key(t) then [t] + s
    else
      assert s == [s[0]] + s[1..];
      [s[0]] + Insert(t, s[1..])
  }

  lemma {:induction false} InsertMembers(t: Ticker, s: seq<Ticker>, x: Ticker)
    ensures x in Insert(t, s) <==> x == t || x in s
  {
    if s != [] && Key(s[0]) > Key(t) {
      InsertMembers(t, s[1..], x);
      assert x in s <==> x == s[0] || x in s[1..];
    }
  }

  lemma {:induction false} InsertSorted(t: Ticker, s: seq<Ticker>)
    requires SortedDesc(s)
    ensures SortedDesc(Insert(t, s))
  {
    if s != [] && Key(s[0]) > Key(t) {
      var rest := Insert(t, s[1..]);
      InsertSorted(t, s[1..]);
      var r := [s[0]] + rest;
      assert Insert(t, s) == r;
      forall i, j | 0 <= i < j < |r|
        ensures Key(r[i]) >= Key(r[j])
      {
        var y := rest[j - 1];
        assert r[j] == y;
        if i == 0 {
          InsertMembers(t, s[1..], y);
          if y != t {
            SortedHead(s, y);
          }
        } else {
          assert r[i] == rest[i - 1];
        }
      }
    }
  }

  /** The ranking of `s`: sorted, highest percent change first, stable. */
  function SortByChangeDesc(s: seq<Ticker>): (r: seq<Ticker>)
    ensures |r| == |s|
    ensures multiset(r) == multiset(s)
    ensures SortedDesc(r)
  {
    if s == [] then []
    else
      assert s == [s[0]] + s[1..];
      InsertSorted(s[0], SortByChangeDesc(s[1..]));
      Insert(s[0], SortByChangeDesc(s[1..]))
  }

  lemma {:induction false} WithKeySplit(a: seq<Ticker>, b: seq<Ticker>, k: real)
    ensures WithKey(a + b, k) == WithKey(a, k) + WithKey(b, k)
  {
    if a == [] {
      assert a + b == b;
    } else {
      var ab := a + b;
      assert ab[0] == a[0];
      assert ab[1..] == a[1..] + b;
      var h := if Key(a[0]) == k then [a[0]] else [];
      calc {
        WithKey(ab, k);
        h + WithKey(ab[1..], k);
        { WithKeySplit(a[1..], b, k); }
        h + (WithKey(a[1..], k) + WithKey(b, k));
        (h + WithKey(a[1..], k)) + WithKey(b, k);
      }
    }
  }

  lemma {:induction false} WithKeyMembers(s: seq<Ticker>, k: real, x: Ticker)
    ensures x in WithKey(s, k) <==> x in s && Key(x) == k
  {
    if s != [] {
      WithKeyMembers(s[1..], k, x);
      assert x in s <==> x == s[0] || x in s[1..];
    }
  }

  /** Inserting keeps, for every key, the order of `[t] + s`. */
  lemma {:induction false} InsertStable(t: Ticker, s: seq<Ticker>, k: real)
    ensures WithKey(Insert(t, s), k) == WithKey([t] + s, k)
  {
    if s != [] && Key(s[0]) > Key(t) {
      InsertStable(t, s[1..], k);
      assert ([t] + s)[1..] == s;
      assert ([t] + s[1..])[1..] == s[1..];
    }
  }

  /** Stability: for every key, the tickers with that key appear in the
      ranking in exactly their input order. */
  lemma {:induction false} SortStable(s: seq<Ticker>, k: real)
    ensures WithKey(SortByChangeDesc(s), k) == WithKey(s, k)
  {
    if s != [] {
      SortStable(s[1..], k);
      InsertStable(s[0], SortByChangeDesc(s[1..]), k);
      assert ([s[0]] + SortByChangeDesc(s[1..]))[1..] == SortByChangeDesc(s[1..]);
    }
  }

  /** Any prefix of the ranking lists the tickers of each key in input order. */
  lemma RankingPrefixInOrder(s: seq<Ticker>, n: nat, k: real)
    requires n <= |s|
    ensures WithKey(SortByChangeDesc(s)[..n], k) <= WithKey(s, k)
  {
    var sorted := SortByChangeDesc(s);
    assert sorted == sorted[..n] + sorted[n..];
    WithKeySplit(sorted[..n], sorted[n..], k);
    SortStable(s, k);
  }

  /** A prefix of the ranking skips nothing: a ticker ranked above one in the
      prefix is itself in the prefix, and the full-length prefix holds all. */
  lemma RankingPrefixNoneSkipped(s: seq<Ticker>, n: nat, t: Ticker, i: int)
    requires n <= |s| && t in s
    ensures 0 <= i < n && Key(t) > Key(SortByChangeDesc(s)[i]) ==> t in SortByChangeDesc(s)[..n]
    ensures n == |s| ==> t in SortByChangeDesc(s)[..n]
  {
    var sorted := SortByChangeDesc(s);
    assert t in multiset(sorted);
    var j :| 0 <= j < |sorted| && sorted[j] == t;
    if j >= n {
      if 0 <= i < n {
        assert Key(sorted[i]) >= Key(sorted[j]);
      }
    } else {
      assert sorted[..n][j] == t;
    }
  }

  lemma SortedHead(s: seq<Ticker>, x: Ticker)
    requires SortedDesc(s) && x in s
    ensures Key(s[0]) >= Key(x)
  {
    var i :| 0 <= i < |s| && s[i] == x;
    if i > 0 {
      assert Key(s[0]) >= Key(s[i]);
    }
  }

  /** A sorted list is determined by its keyed subsequences: any two lists
      that are both sorted descending and agree on every key are equal. */
  lemma {:induction false} StableSortUnique(a: seq<Ticker>, b: seq<Ticker>)
    requires SortedDesc(a) && SortedDesc(b)
    requires forall k :: WithKey(a, k) == WithKey(b, k)
    ensures a == b
    decreases |a|
  {
    if a == [] && b == [] {
    } else if a == [] {
      assert false;
    } else if b == [] {
      WithKeyMembers(a, Key(a[0]), a[0]);
      assert false;
    } else {
      WithKeyMembers(b, Key(b[0]), b[0]);
      WithKeyMembers(a, Key(b[0]), b[0]);
      SortedHead(a, b[0]);
      WithKeyMembers(a, Key(a[0]), a[0]);
      WithKeyMembers(b, Key(a[0]), a[0]);
      SortedHead(b, a[0]);
      var k0 := Key(a[0]);
      assert Key(b[0]) == k0;
      assert WithKey(a, k0) == [a[0]] + WithKey(a[1..], k0);
      assert WithKey(b, k0) == [b[0]] + WithKey(b[1..], k0);
      assert WithKey(a, k0) == WithKey(b, k0);
      assert a[0] == WithKey(a, k0)[0] == WithKey(b, k0)[0] == b[0];
      forall k
        ensures WithKey(a[1..], k) == WithKey(b[1..], k)
      {
        assert WithKey(a, k) == (if k == k0 then [a[0]] else []) + WithKey(a[1..], k);
        assert WithKey(b, k) == (if k == k0 then [b[0]] else []) + WithKey(b[1..], k);
        assert WithKey(a, k) == WithKey(b, k);
        var p := if k == k0 then [a[0]] else [];
        assert WithKey(a[1..], k) == (p + WithKey(a[1..], k))[|p|..];
        assert WithKey(b[1..], k) == (p + WithKey(b[1..], k))[|p|..];
      }
      StableSortUnique(a[1..], b[1..]);
      assert a == [a[0]] + a[1..];
      assert b == [b[0]] + b[1..];
    }
  }
}
