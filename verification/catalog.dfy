/** The exchange catalog: ranking by 24-hour BTC volume, selection of the
    candidate exchanges of one country, and the per-country collection of
    one quote record per candidate that lists the requested pair. */
module Catalog {
  import opened Optional
  import opened Sorting
  import opened Tickers

  /** One catalog row: the four columns the core keeps. `country` is `None`
      where the catalog has no country for the exchange. */
  datatype Exchange = Exchange(
    id: string,
    name: string,
    country: Option<string>,
    tradeVolume24hBtc: real)

  /** The record built for one candidate exchange that quotes the pair.
      `tradeTime` is the ticker's timestamp after conversion to local time. */
  datatype QuoteRecord = QuoteRecord(
    exchange: string,
    lastPrice: real,
    lastVol: real,
    spread: real,
    tradeTime: string)

  /** "a may be listed before b" in a catalog ranked by descending volume. */
  predicate ByVolume(a: Exchange, b: Exchange) {
    a.tradeVolume24hBtc >= b.tradeVolume24hBtc
  }

  lemma ByVolumeIsTotalPreorder()
    ensures TotalPreorder(ByVolume)
  {
  }

  /** The catalog sorted by `trade_volume_24h_btc`, largest first. */
  function Rank(catalog: seq<Exchange>): (r: seq<Exchange>)
    ensures SortedBy(r, ByVolume)
    ensures multiset(r) == multiset(catalog)
  {
    ByVolumeIsTotalPreorder();
    Sort(catalog, ByVolume)
  }

  /** pandas' default sort is not stable, so rows of equal volume may come
      out in any order. Whatever order it picks, the result has the same
      volume at every position as `Rank`. */
  lemma RankFixesVolumes(catalog: seq<Exchange>, ranked: seq<Exchange>)
    requires SortedBy(ranked, ByVolume)
    requires multiset(ranked) == multiset(catalog)
    ensures |ranked| == |Rank(catalog)|
    ensures forall i :: 0 <= i < |ranked| ==>
      ranked[i].tradeVolume24hBtc == Rank(catalog)[i].tradeVolume24hBtc
  {
    ByVolumeIsTotalPreorder();
    SortedPermutationsTie(ranked, Rank(catalog), ByVolume);
  }

  predicate InCountry(e: Exchange, country: string) {
    e.country == Some(country)
  }

  /** The rows whose country equals `country` exactly, in their original
      order: every such row is kept with its multiplicity, no other row is. */
  function FilterCountry(catalog: seq<Exchange>, country: string): (r: seq<Exchange>)
    ensures forall e :: multiset(r)[e] == if InCountry(e, country) then multiset(catalog)[e] else 0
    ensures forall k :: 0 <= k < |r| ==> InCountry(r[k], country)
    ensures |r| <= |catalog|
  {
    if |catalog| == 0 then []
    else
      assert catalog == [catalog[0]] + catalog[1..];
      if InCountry(catalog[0], country) then [catalog[0]] + FilterCountry(catalog[1..], country)
      else FilterCountry(catalog[1..], country)
  }

  /** The filter works row by row, so it keeps the input order: filtering a
      concatenation filters each part and concatenates the results. */
  lemma {:induction false} FilterCountryAppend(a: seq<Exchange>, b: seq<Exchange>, country: string)
    ensures FilterCountry(a + b, country) == FilterCountry(a, country) + FilterCountry(b, country)
  {
    if |a| == 0 {
      assert a + b == b;
    } else {
      assert (a + b)[1..] == a[1..] + b;
      FilterCountryAppend(a[1..], b, country);
    }
  }

  /** Filtering keeps the ranking: a catalog sorted by descending volume
      stays sorted after the country filter. */
  lemma {:induction false} FilterCountryKeepsRanking(catalog: seq<Exchange>, country: string)
    requires SortedBy(catalog, ByVolume)
    ensures SortedBy(FilterCountry(catalog, country), ByVolume)
  {
    if |catalog| > 0 {
      var rest := FilterCountry(catalog[1..], country);
      FilterCountryKeepsRanking(catalog[1..], country);
      if InCountry(catalog[0], country) {
        forall k | 0 <= k < |rest|
          ensures ByVolume(catalog[0], rest[k])
        {
          assert rest[k] in multiset(rest);
          assert rest[k] in multiset(catalog[1..]);
          var j :| 0 <= j < |catalog[1..]| && catalog[1..][j] == rest[k];
          assert catalog[1 + j] == rest[k];
        }
      }
    }
  }

  /** The candidate exchanges for a country: the ranked catalog filtered by
      exact country equality. Exactly the catalog rows of that country,
      still ranked by descending volume. */
  function Candidates(catalog: seq<Exchange>, country: string): (r: seq<Exchange>)
    ensures SortedBy(r, ByVolume)
    ensures forall e :: e in r <==> e in catalog && InCountry(e, country)
    ensures forall e :: multiset(r)[e] == if InCountry(e, country) then multiset(catalog)[e] else 0
  {
    var r := FilterCountry(Rank(catalog), country);
    FilterCountryKeepsRanking(Rank(catalog), country);
    assert forall e :: e in r <==> e in multiset(r);
    assert forall e :: e in catalog <==> e in multiset(catalog);
    r
  }

  /** No exchange of the catalog is in the requested country: no candidates. */
  lemma NoCandidates(catalog: seq<Exchange>, country: string)
    requires forall i :: 0 <= i < |catalog| ==> !InCountry(catalog[i], country)
    ensures Candidates(catalog, country) == []
  {
  }

  /** The quote the collection looks up for exchange `e`. */
  function QuoteOf(e: Exchange, base: string, target: string,
                   fetch: string -> seq<Ticker>): Option<Ticker>
  {
    FindPair(fetch(e.id), base, target)
  }

  function RecordOf(id: string, t: Ticker, localize: string -> string): QuoteRecord {
    QuoteRecord(id, t.last, t.volume, t.bidAskSpreadPct, localize(t.lastTradedAt))
  }

  /** `records` holds, in order, one record for each of the first `n`
      candidates that quote the pair and none for the others; `idx[k]` is
      the position of the candidate record `k` was built from. */
  ghost predicate CollectedFrom(records: seq<QuoteRecord>, candidates: seq<Exchange>, n: nat,
                                base: string, target: string,
                                fetch: string -> seq<Ticker>, localize: string -> string,
                                idx: seq<nat>)
    requires n <= |candidates|
  {
    && |idx| == |records|
    && (forall k :: 0 <= k < |idx| ==> idx[k] < n)
    && (forall k, l :: 0 <= k < l < |idx| ==> idx[k] < idx[l])
    && (forall k :: 0 <= k < |idx| ==>
          var q := QuoteOf(candidates[idx[k]], base, target, fetch);
          q.Some? && records[k] == RecordOf(candidates[idx[k]].id, q.value, localize))
    && (forall i :: 0 <= i < n && QuoteOf(candidates[i], base, target, fetch).Some? ==> i in idx)
  }

  /** `r` is the record of one of the candidates. */
  predicate NamesCandidate(r: QuoteRecord, candidates: seq<Exchange>) {
    exists i :: 0 <= i < |candidates| && r.exchange == candidates[i].id
  }

  /** Skipping a candidate without the pair extends the collection by one
      candidate and adds no record. */
  lemma CollectedSkip(records: seq<QuoteRecord>, candidates: seq<Exchange>, n: nat,
                      base: string, target: string,
                      fetch: string -> seq<Ticker>, localize: string -> string, idx: seq<nat>)
    requires n < |candidates|
    requires CollectedFrom(records, candidates, n, base, target, fetch, localize, idx)
    requires QuoteOf(candidates[n], base, target, fetch).None?
    ensures CollectedFrom(records, candidates, n + 1, base, target, fetch, localize, idx)
  {
  }

  /** A candidate with the pair adds its record at the end. */
  lemma CollectedTake(records: seq<QuoteRecord>, candidates: seq<Exchange>, n: nat,
                      base: string, target: string,
                      fetch: string -> seq<Ticker>, localize: string -> string, idx: seq<nat>)
    requires n < |candidates|
    requires CollectedFrom(records, candidates, n, base, target, fetch, localize, idx)
    requires QuoteOf(candidates[n], base, target, fetch).Some?
    ensures CollectedFrom(records + [RecordOf(candidates[n].id, QuoteOf(candidates[n], base, target, fetch).value, localize)],
                          candidates, n + 1, base, target, fetch, localize, idx + [n])
  {
    var idx' := idx + [n];
    forall i | 0 <= i < n + 1 && QuoteOf(candidates[i], base, target, fetch).Some?
      ensures i in idx'
    {
      if i < n {
        assert i in idx;
      } else {
        assert idx'[|idx|] == i;
      }
    }
  }

  /** Every collected record names one of the candidates. */
  lemma CollectedIds(records: seq<QuoteRecord>, candidates: seq<Exchange>,
                     base: string, target: string,
                     fetch: string -> seq<Ticker>, localize: string -> string, idx: seq<nat>)
    requires CollectedFrom(records, candidates, |candidates|, base, target, fetch, localize, idx)
    ensures forall k :: 0 <= k < |records| ==> NamesCandidate(records[k], candidates)
  {
    forall k | 0 <= k < |records|
      ensures NamesCandidate(records[k], candidates)
    {
      var i := idx[k];
      assert QuoteOf(candidates[i], base, target, fetch).Some?;
      assert records[k].exchange == candidates[i].id;
    }
  }

  /** The collection loop: walk the candidates in order, skip those without
      the pair, build one record for each of the others. */
  method Collect(candidates: seq<Exchange>, base: string, target: string,
                 fetch: string -> seq<Ticker>, localize: string -> string)
    returns (records: seq<QuoteRecord>)
    ensures exists idx :: CollectedFrom(records, candidates, |candidates|, base, target, fetch, localize, idx)
    ensures |records| <= |candidates|
    ensures forall k :: 0 <= k < |records| ==> NamesCandidate(records[k], candidates)
  {
    records := [];
    ghost var idx: seq<nat> := [];
    var n := 0;
    while n < |candidates|
      invariant 0 <= n <= |candidates|
      invariant |records| <= n
      invariant CollectedFrom(records, candidates, n, base, target, fetch, localize, idx)
    {
      var found := FindPair(fetch(candidates[n].id), base, target);
      if found.Some? {
        CollectedTake(records, candidates, n, base, target, fetch, localize, idx);
        records := records + [RecordOf(candidates[n].id, found.value, localize)];
        idx := idx + [n];
      } else {
        CollectedSkip(records, candidates, n, base, target, fetch, localize, idx);
      }
      n := n + 1;
    }
    CollectedIds(records, candidates, base, target, fetch, localize, idx);
  }

  /** `get_trade_exchange_per_country`, returning the records it collects:
      the candidates of `country`, walked in descending volume order. The
      contract admits any order of candidates of equal volume, since the
      source's sort does not fix one. */
  method TradeExchangePerCountry(catalog: seq<Exchange>, country: string,
                                 base: string, target: string,
                                 fetch: string -> seq<Ticker>, localize: string -> string)
    returns (records: seq<QuoteRecord>)
    ensures exists cands: seq<Exchange>, idx: seq<nat> ::
      && SortedBy(cands, ByVolume)
      && multiset(cands) == multiset(Candidates(catalog, country))
      && CollectedFrom(records, cands, |cands|, base, target, fetch, localize, idx)
    ensures forall k :: 0 <= k < |records| ==>
      exists e :: e in catalog && InCountry(e, country) && records[k].exchange == e.id
  {
    var candidates := Candidates(catalog, country);
    records := Collect(candidates, base, target, fetch, localize);
    forall k | 0 <= k < |records|
      ensures exists e :: e in catalog && InCountry(e, country) && records[k].exchange == e.id
    {
      assert NamesCandidate(records[k], candidates);
      var i :| 0 <= i < |candidates| && records[k].exchange == candidates[i].id;
      assert candidates[i] in candidates;
    }
  }
}
