/** Value types shared by both versions of the compensation engine:
    currency codes, the exchange-rate table, JavaScript numbers and monetary fields. */
module Money {

  datatype Option<+T> = None | Some(value: T)

  /** The closed set of currency codes the calculator offers. */
  datatype Currency = USD | EUR | ILS | GBP | CAD | AUD | JPY | CHF

  /** Units of each currency per US dollar (USD itself is 1). A code may be missing. */
  type Rates = map<Currency, real>

  /** A JavaScript number as far as the engine inspects it: a finite value, or NaN. */
  datatype Number = Finite(value: real) | NaN

  /** `n * k` on a JavaScript number: NaN stays NaN. */
  function Times(n: Number, k: real): Number
  {
    match n
    case Finite(x) => Finite(x * k)
    case NaN => NaN
  }

  /** JavaScript truthiness of an optional number: present and not 0. */
  predicate Truthy(o: Option<real>)
  {
    o.Some? && o.value != 0.0
  }

  /** An amount in its own currency, with an optional rate that replaces the table's
      rate for that currency when the amount is converted. */
  datatype MonetaryField = MonetaryField(amount: Number, currency: Currency, overrideRate: Option<real>)

  /** The rate table the settings start from. */
  function DefaultRates(): Rates
  {
    map[USD := 1.0, EUR := 0.92, ILS := 3.65, GBP := 0.79,
        CAD := 1.35, AUD := 1.51, JPY := 150.27, CHF := 0.86]
  }

  /** No rate in the table is 0. The settings store refuses rates <= 0, so every
      table the engine sees from the user interface has this property. */
  predicate NonzeroRates(rates: Rates)
  {
    forall c :: c in rates ==> rates[c] != 0.0
  }
}
