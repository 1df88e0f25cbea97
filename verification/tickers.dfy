/** The ticker-pair lookup: find the quote for one currency pair in the
    ticker list an exchange reports. */
module Tickers {
  import opened Optional

  /** One entry of an exchange's ticker list, with the fields the core reads.
      `lastTradedAt` is the wire timestamp, kept as text. */
  datatype Ticker = Ticker(
    base: string,
    target: string,
    last: real,
    volume: real,
    bidAskSpreadPct: real,
    lastTradedAt: string)

  /** Exact, case-sensitive equality on both currencies. */
  predicate IsPair(t: Ticker, base: string, target: string) {
    t.base == base && t.target == target
  }

  /** No ticker among the first `n` is the requested pair. */
  predicate NoneBefore(tickers: seq<Ticker>, n: nat, base: string, target: string)
    requires n <= |tickers|
  {
    forall j :: 0 <= j < n ==> !IsPair(tickers[j], base, target)
  }

  /** The first ticker, in list order, whose base and target equal the
      requested ones; `None` (the source's warning plus empty sentinel)
      exactly when no ticker matches. */
  function FindPair(tickers: seq<Ticker>, base: string, target: string): (r: Option<Ticker>)
    ensures r.None? <==> NoneBefore(tickers, |tickers|, base, target)
    ensures r.Some? ==> r.value in tickers && IsPair(r.value, base, target)
    ensures r.Some? ==>
      exists i :: 0 <= i < |tickers| && tickers[i] == r.value && NoneBefore(tickers, i, base, target)
  {
    if |tickers| == 0 then None
    else if IsPair(tickers[0], base, target) then
      assert NoneBefore(tickers, 0, base, target);
      Some(tickers[0])
    else
      var r := FindPair(tickers[1..], base, target);
      assert forall n :: 0 <= n < |tickers| ==>
        (NoneBefore(tickers[1..], n, base, target) <==> NoneBefore(tickers, n + 1, base, target));
      if r.Some? then
        var i :| 0 <= i < |tickers[1..]| && tickers[1..][i] == r.value
                 && NoneBefore(tickers[1..], i, base, target);
        assert tickers[i + 1] == r.value;
        r
      else r
  }

  /** First match over a concatenation: the front part wins when it has a
      match, otherwise the search carries on into the back part. */
  lemma {:induction false} FindPairAppend(front: seq<Ticker>, back: seq<Ticker>, base: string, target: string)
    ensures FindPair(front + back, base, target)
      == if FindPair(front, base, target).Some? then FindPair(front, base, target)
         else FindPair(back, base, target)
  {
    if |front| > 0 {
      assert (front + back)[1..] == front[1..] + back;
      FindPairAppend(front[1..], back, base, target);
    } else {
      assert front + back == back;
    }
  }

  /** An illustration of the exact matching `IsPair` states for all
      inputs: a lower-case "btc" quote is not found when "BTC" is
      requested, even when it is the only candidate. */
  lemma CaseSensitive(t: Ticker)
    requires t.base == "btc" && t.target == "USD"
    ensures FindPair([t], "BTC", "USD").None?
    ensures FindPair([t], "btc", "USD") == Some(t)
  {
  }
}
