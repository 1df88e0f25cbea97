/** The currency-conversion factor applied to an exchange's volume series:
    volumes are reported in BTC and converted to the requested currency. */
module Rates {
  import opened Optional
  import opened Text

  /** The unit the volume chart reports in; no conversion is needed for it. */
  const Native: string := "BTC"

  /** `get_exchange_rate`: the rate table is read under the lower-cased
      currency code; an absent key is the source's caught KeyError, which
      yields the empty sentinel (`None`). `rates` maps each code of the
      exchange-rate response to its `value`. */
  function ExchangeRate(rates: map<string, real>, baseCurr: string): (r: Option<real>)
    ensures r.Some? <==> Lower(baseCurr) in rates
    ensures r.Some? ==> r.value == rates[Lower(baseCurr)]
  {
    var key := Lower(baseCurr);
    if key in rates then Some(rates[key]) else None
  }

  /** The factor policy of `get_vol_exchange`: 1.0 for the native unit,
      otherwise the looked-up rate, and 1.0 again when the lookup fails. */
  function ConversionFactor(baseCurr: string, rates: map<string, real>): (f: real)
    ensures baseCurr == Native ==> f == 1.0
    ensures baseCurr != Native && Lower(baseCurr) in rates ==> f == rates[Lower(baseCurr)]
    ensures baseCurr != Native && Lower(baseCurr) !in rates ==> f == 1.0
  {
    if baseCurr == Native then 1.0
    else ExchangeRate(rates, baseCurr).GetOr(1.0)
  }

  /** The native unit never consults the rate table: any two tables give
      the same factor. */
  lemma NativeNeedsNoRate(rates1: map<string, real>, rates2: map<string, real>)
    ensures ConversionFactor(Native, rates1) == ConversionFactor(Native, rates2) == 1.0
  {
  }

  /** Apart from the native-unit test, which is case-sensitive, the factor
      depends on the code only through its lower-case form. */
  lemma FactorIgnoresCase(a: string, b: string, rates: map<string, real>)
    requires a != Native && b != Native
    requires Lower(a) == Lower(b)
    ensures ConversionFactor(a, rates) == ConversionFactor(b, rates)
  {
  }

  /** When the table rates BTC at 1.0 (or does not list it), every spelling
      of "btc" gets factor 1.0, whichever branch of the policy it takes. */
  lemma NativeSpellingsAgree(s: string, rates: map<string, real>)
    requires Lower(s) == "btc"
    requires "btc" in rates ==> rates["btc"] == 1.0
    ensures ConversionFactor(s, rates) == 1.0
  {
  }
}
