# Exchange selection and volume shaping of `cryptoarbitrage`, in Dafny

This project models the deterministic core of `arbitrage.py`, a script that
queries a market-data API for exchanges, their tickers and their volume
charts. Four pieces are modelled, with the network responses turned into
input values:

- **Ticker pair lookup** (`get_trade_exchange`, module `Tickers`). The lookup
  is a first-match search over an exchange's ticker list. It uses exact,
  case-sensitive equality on the base and target currencies. The empty-string
  sentinel returned after the warning becomes `Option.None`.
- **Candidate selection and per-country collection** (module `Catalog`). The
  catalog is ranked by `trade_volume_24h_btc`, largest first. It is then
  filtered by exact country equality. The candidates are walked in order, and
  one quote record is built for each candidate that lists the pair.
- **Conversion-factor policy** (`get_exchange_rate` and the front half of
  `get_vol_exchange`, module `Rates`). The factor is 1.0 for `"BTC"`.
  Otherwise it is the rate stored under the lower-cased code, or 1.0 when that
  key is absent.
- **Volume series shaping** (the back half of `get_vol_exchange`, module
  `Volume`). Each volume is multiplied by the factor. A 7-point trailing mean
  is computed in input order, and the first six points have none. The rows
  are then sorted by date, latest first.

Two helper modules are shared. `Sorting` holds one insertion sort, used for
both the catalog ranking and the date ordering. `Text` holds Python's
`str.lower()` and Python's `str` ordering.

Where the code departs from its own evident intent, the model follows the
intent:

- The code after the `return` at arbitrage.py:65 (lines 67-152) is indented
  inside `get_trade_exchange`, so as written those functions are unreachable
  nested definitions. They are modelled as the standalone functions they
  are meant to be.
- `get_trade_exchange_per_country` builds `ex_all` but never returns it
  (arbitrage.py:87-101). `Catalog.TradeExchangePerCountry` returns the
  collected records.

Three behaviours of the code are worth stating plainly:

- The country filter is exact equality (arbitrage.py:84): no substring
  match and no case folding.
- `rolling(7).mean()` keeps pandas' default minimum of 7 observations
  (arbitrage.py:150), so the first six points have no mean; the window
  never shrinks to fewer points.
- When the rate lookup fails, the factor falls back to 1.0 and to nothing
  else (arbitrage.py:130-137).

pandas `sort_values` uses a quicksort that is not stable, so the source does
not fix the order of rows with equal keys. Points of a volume chart may
share a date, so such ties can occur. The contracts therefore promise
only a sorted permutation. The insertion sort in `Sorting` yields one order
the source allows, and `Sorting.SortedPermutationsTie` shows that every
order the source allows agrees with it up to ties: the same volume (for the
catalog) or the same date (for the series) at every position.

External calls become parameters:

- the ticker list of an exchange: `fetch: string -> seq<Ticker>`
- `convert_to_local_tz`: `localize: string -> string`
- the `fromtimestamp(...).strftime('%Y-%m-%d')` rendering: `toDate: real -> string`
- the `rates` table of the exchange-rate response: `map<string, real>`
- the volume chart: `seq<RawPoint>`

## Model

| member | source | states |
|---|---|---|
| Tickers.FindPair | arbitrage.py:55-65 | The result is `None` exactly when no ticker has base and target both equal to the requested ones. Otherwise it is a ticker of the list that matches both, and it is the first such ticker in list order. |
| Tickers.FindPairAppend | arbitrage.py:57-60 | Searching `front + back` gives the first match of `front` when there is one, and otherwise the first match of `back`: the loop stops at the first hit. |
| Tickers.CaseSensitive | arbitrage.py:58 | A ticker with base `"btc"` is not found when `"BTC"` is requested, but is found when `"btc"` is requested. |
| Sorting.Sort | arbitrage.py:46 | The result is a permutation of the input, and every earlier element may precede every later one under the given total preorder. |
| Sorting.SortedPermutationsTie | arbitrage.py:46 | Any two sorted permutations of the same elements tie position by position, so an unstable sort fixes each position up to ties. |
| Catalog.Rank | arbitrage.py:46 | The ranked catalog is a permutation of the catalog, with `trade_volume_24h_btc` non-increasing. |
| Catalog.RankFixesVolumes | arbitrage.py:46 | Any permutation of the catalog ranked by descending volume, in whatever tie order the sort picks, has the same volume as `Rank` at every position. |
| Catalog.FilterCountry | arbitrage.py:84 | Every row whose country equals the requested string is kept, with its multiplicity. No other row is kept, and the result is no longer than the input. |
| Catalog.FilterCountryAppend | arbitrage.py:84 | Filtering a concatenation filters each part and concatenates the results, so kept rows stay in input order. |
| Catalog.FilterCountryKeepsRanking | arbitrage.py:84 | Filtering a catalog ranked by descending volume leaves the result ranked. |
| Catalog.Candidates | arbitrage.py:46-86 | The candidates are exactly the catalog rows whose country equals the requested one, with their multiplicities. They are ordered by non-increasing 24h BTC volume. |
| Catalog.NoCandidates | arbitrage.py:84 | When no row has the requested country, the candidate list is empty. |
| Catalog.Collect | arbitrage.py:87-101 | There is one record per candidate whose ticker list has the pair, and none for the others. Records follow candidate order and are built from that candidate's first matching ticker. There are no more records than candidates, and each record's `exchange` is a candidate id. |
| Catalog.TradeExchangePerCountry | arbitrage.py:80-101 | The records are those collected, in order, from some ranking of the country's candidates: any order by non-increasing volume, with exchanges of equal volume in either order. Each record names an exchange of the catalog in that country. |
| Text.Lower | arbitrage.py:112 | Lower-casing keeps the length and maps each character on its own, changing only `A`-`Z`. |
| Text.LowerNormalises | arbitrage.py:112 | A lower-cased code has no upper-case letter left, and lower-casing is idempotent. |
| Rates.ExchangeRate | arbitrage.py:103-116 | A rate is found exactly when the lower-cased code is a key of the rate table, and it is the value stored under that key. A missing key gives the sentinel. |
| Rates.ConversionFactor | arbitrage.py:130-137 | The factor is 1.0 for `"BTC"`. Otherwise it is the rate under the lower-cased code, or 1.0 when that key is absent. |
| Rates.NativeNeedsNoRate | arbitrage.py:130-132 | For `"BTC"` the factor is 1.0 whatever the rate table holds: no lookup takes part. |
| Rates.FactorIgnoresCase | arbitrage.py:112 | Two codes other than `"BTC"` with the same lower-case form get the same factor. |
| Rates.NativeSpellingsAgree | arbitrage.py:131-137 | If the table rates `btc` at 1.0 or lacks it, every spelling of `btc` gets factor 1.0. This holds whether or not the spelling passes the case-sensitive `"BTC"` test. |
| Text.LexLeTotal | arbitrage.py:152 | Any two date strings are comparable. |
| Text.LexLeTransitive | arbitrage.py:152 | String order on dates is transitive. |
| Text.LexLeAntisymmetric | arbitrage.py:152 | Two dates each not after the other are the same string. |
| Volume.ByDateDescIsTotalPreorder | arbitrage.py:152 | "Date not earlier than" is a total preorder on rows, so the date sort is well defined. |
| Volume.WindowSlide | arbitrage.py:150 | Moving the window by one point adds the newest volume and, once seven points are in, drops the oldest. |
| Volume.RollingMean | arbitrage.py:150 | The output has one entry per volume. Entry `i` is undefined exactly when `i < 6`. Otherwise it is the mean of volumes `i-6` through `i`, in input order. |
| Volume.Rows | arbitrage.py:139-150 | The table in input order has one row per raw point. Each row's date is the timestamp in seconds rendered by `toDate`, and its volume is the raw volume times the factor. Its mean is undefined exactly in the first six rows, and from row 6 on it is the mean of the converted volumes of rows `i-6` through `i`. |
| Volume.DateColumnFixed | arbitrage.py:152 | Any two date-sorted permutations of the same rows list the same date at every position, whatever order ties take. |
| Volume.VolumeSeries | arbitrage.py:118-152 | The series has as many rows as the raw chart and is ordered by date, non-increasing. It is a permutation of the input-order rows, so each mean stays attached to its own date and volume. |
| Volume.MeanOfScaled | arbitrage.py:145-150 | Every defined mean of the converted series is the factor times the mean of the raw volumes over the same window. |
| Volume.FlatWindow | arbitrage.py:150 | Seven equal volumes ending at `i` have that volume as their mean. |

## Left out

- HTTP fetching and API-key loading (`get_api_key`, `get_response`, arbitrage.py:13-42) are network and file I/O. Their responses are inputs of the model. A failed request, which makes `get_response` return `None`, is not modelled.
- `convert_to_local_tz` (arbitrage.py:67-78) uses `strptime` and `pytz`. It is the parameter `localize`.
- Rendering timestamps as dates (arbitrage.py:141-142) uses `datetime.fromtimestamp` and `strftime`. It is the parameter `toDate`, and its result is compared as a string.
- `float(...)` parsing of the raw volume (arbitrage.py:145) is omitted: raw volumes are already `real`.
- Floating-point rounding and NaN are omitted: volumes and rates are `real`.
- pandas display options and DataFrame construction (arbitrage.py:4-5, 43-45, 147) are presentation and are omitted.
- The `days` argument of `get_vol_exchange` is only passed to the HTTP request and is not modelled.
- The warnings and prints on a missing pair or rate are not modelled. Their conditions are the `None` results of `Tickers.FindPair` and `Rates.ExchangeRate`.
- Text.Lower: handles ASCII letters only, whereas Python's `str.lower()` also lower-cases non-ASCII letters.
- Rates.ExchangeRate: a response without a `rates` key, or an entry without `value`, also raises a caught `KeyError` in the source. The model's map has no such shapes, so only the missing currency key is modelled.
- Sorting.Sort: ties keep their input order, while pandas' quicksort may order them either way. The contracts promise only what both orders share.
- Tickers.FindPair: a ticker without a `base` or `target` key raises an uncaught `KeyError` (arbitrage.py:58) and aborts the whole walk. The model's `Ticker` always has both fields, so that abort is not modelled.
- Catalog.Collect: a matched ticker without `last`, `volume`, `bid_ask_spread_percentage` or `last_traded_at` raises an uncaught `KeyError` (arbitrage.py:96-99). A `last_traded_at` in any other format than `%Y-%m-%dT%H:%M:%S+00:00` makes `strptime` raise `ValueError` (arbitrage.py:73). Either aborts the whole per-country walk. The model's fields are always present and `localize` is total, so these aborts are not modelled.
