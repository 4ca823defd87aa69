/** Currency conversion through a USD-pivot rate table (getRate, convertAmount,
    convertField, convertFieldAnnual of the newer engine). */
module Conversion {
  import opened Money

  /** `rates[c] ?? 1`: the table's rate, or 1 for a missing currency. */
  function TableRate(c: Currency, rates: Rates): real
  {
    if c in rates then rates[c] else 1.0
  }

  /** getRate: a positive override wins over the table, so a rate that is not positive
      can only be the table's own entry for the currency. */
  function GetRate(c: Currency, override: Option<real>, rates: Rates): (r: real)
    ensures r <= 0.0 ==> c in rates && rates[c] == r
  {
    if override.Some? && override.value > 0.0 then override.value else TableRate(c, rates)
  }

  /** The pivot step of convertAmount: into USD by dividing by the source rate, out of
      USD by multiplying by the target rate; a zero rate on either side leaves the
      amount unchanged. */
  function Pivot(x: real, fromRate: real, toRate: real): real
  {
    if fromRate == 0.0 || toRate == 0.0 then x
    else
      var usdValue := x / fromRate;
      usdValue * toRate
  }

  /** convertAmount: NaN becomes 0, the same currency without an override is returned
      as is, and anything else is pivoted with the (possibly overridden) source rate
      and the target's table rate. */
  function ConvertAmount(amount: Number, from: Currency, to: Currency, overrideRate: Option<real>, rates: Rates): real
  {
    if amount.NaN? then 0.0
    else if from == to && !Truthy(overrideRate) then amount.value
    else Pivot(amount.value, GetRate(from, overrideRate, rates), TableRate(to, rates))
  }

  /** convertField: converts a monetary field with its own currency and override. */
  function ConvertField(field: MonetaryField, target: Currency, rates: Rates): real
  {
    ConvertAmount(field.amount, field.currency, target, field.overrideRate, rates)
  }

  /** convertFieldAnnual: the field read as a monthly figure, converted as twelve times its amount. */
  function ConvertFieldAnnual(field: MonetaryField, target: Currency, rates: Rates): real
  {
    ConvertField(field.(amount := Times(field.amount, 12.0)), target, rates)
  }

  /** Pivoting between equal rates is the identity. */
  lemma PivotSame(x: real, r: real)
    ensures Pivot(x, r, r) == x
  {
  }

  /** Pivoting scales linearly with the amount. */
  lemma PivotScales(k: real, x: real, a: real, b: real)
    ensures Pivot(k * x, a, b) == k * Pivot(x, a, b)
  {
  }

  /** Pivoting distributes over a sum of amounts. */
  lemma PivotAdds(x: real, y: real, a: real, b: real)
    ensures Pivot(x + y, a, b) == Pivot(x, a, b) + Pivot(y, a, b)
  {
  }

  /** Pivoting on through an intermediate rate is pivoting directly. */
  lemma PivotCancels(x: real, a: real, b: real, c: real)
    requires a != 0.0 && b != 0.0 && c != 0.0
    ensures Pivot(Pivot(x, a, b), b, c) == Pivot(x, a, c)
  {
  }

  /** With nonzero rates, only zero pivots to zero. */
  lemma PivotZeroOnlyFromZero(x: real, a: real, b: real)
    requires a != 0.0 && b != 0.0
    ensures Pivot(x, a, b) == 0.0 <==> x == 0.0
  {
    if x != 0.0 {
      assert x / a != 0.0;
    }
  }

  /** Every finite conversion is a pivot with the (possibly overridden) source rate and
      the target's table rate: the same-currency fast path agrees with the formula, and
      a NaN amount converts to 0. */
  lemma ConvertIsPivot(amount: Number, from: Currency, to: Currency, o: Option<real>, rates: Rates)
    ensures amount.NaN? ==> ConvertAmount(amount, from, to, o, rates) == 0.0
    ensures amount.Finite? ==>
            ConvertAmount(amount, from, to, o, rates) == Pivot(amount.value, GetRate(from, o, rates), TableRate(to, rates))
  {
    if amount.Finite? && from == to && !Truthy(o) {
      PivotSame(amount.value, TableRate(from, rates));
    }
  }

  /** The zero-rate guard: a zero source or target rate leaves a finite amount as it is. */
  lemma ZeroRateLeavesAmount(x: real, from: Currency, to: Currency, o: Option<real>, rates: Rates)
    requires GetRate(from, o, rates) == 0.0 || TableRate(to, rates) == 0.0
    ensures ConvertAmount(Finite(x), from, to, o, rates) == x
  {
    ConvertIsPivot(Finite(x), from, to, o, rates);
  }

  /** Converting between identical currencies without a positive override returns the
      amount unchanged, even when the source falls off its fast path (a negative override). */
  lemma SameCurrencyIsIdentity(x: real, c: Currency, override: Option<real>, rates: Rates)
    requires !(override.Some? && override.value > 0.0)
    ensures ConvertAmount(Finite(x), c, c, override, rates) == x
  {
    ConvertIsPivot(Finite(x), c, c, override, rates);
    PivotSame(x, TableRate(c, rates));
  }

  /** A positive override replaces the source currency's table rate: the result does
      not depend on what the table says about the source currency. */
  lemma OverrideIgnoresTable(x: real, from: Currency, to: Currency, o: real, rates: Rates, t: real)
    requires o > 0.0 && from != to
    ensures ConvertAmount(Finite(x), from, to, Some(o), rates)
            == ConvertAmount(Finite(x), from, to, Some(o), rates[from := t])
  {
    assert TableRate(to, rates) == TableRate(to, rates[from := t]);
  }

  /** Conversion scales linearly with the amount. */
  lemma ConvertScales(x: real, k: real, from: Currency, to: Currency, o: Option<real>, rates: Rates)
    ensures ConvertAmount(Finite(k * x), from, to, o, rates) == k * ConvertAmount(Finite(x), from, to, o, rates)
  {
    ConvertIsPivot(Finite(x), from, to, o, rates);
    ConvertIsPivot(Finite(k * x), from, to, o, rates);
    PivotScales(k, x, GetRate(from, o, rates), TableRate(to, rates));
  }

  /** Conversion distributes over a sum of amounts. */
  lemma ConvertAdds(x: real, y: real, from: Currency, to: Currency, o: Option<real>, rates: Rates)
    ensures ConvertAmount(Finite(x + y), from, to, o, rates)
            == ConvertAmount(Finite(x), from, to, o, rates) + ConvertAmount(Finite(y), from, to, o, rates)
  {
    ConvertIsPivot(Finite(x), from, to, o, rates);
    ConvertIsPivot(Finite(y), from, to, o, rates);
    ConvertIsPivot(Finite(x + y), from, to, o, rates);
    PivotAdds(x, y, GetRate(from, o, rates), TableRate(to, rates));
  }

  /** With no zero rate in the table, every rate the conversion uses is nonzero. */
  lemma NonzeroRatesGiveNonzeroRate(c: Currency, o: Option<real>, rates: Rates)
    requires NonzeroRates(rates)
    ensures GetRate(c, o, rates) != 0.0 && TableRate(c, rates) != 0.0
  {
  }

  /** An override that is not positive converts like no override at all, although it
      takes a same-currency conversion off the fast path. */
  lemma NonPositiveOverrideIsNone(x: real, from: Currency, to: Currency, o: Option<real>, rates: Rates)
    requires !(o.Some? && o.value > 0.0)
    ensures ConvertAmount(Finite(x), from, to, o, rates) == ConvertAmount(Finite(x), from, to, None, rates)
  {
    ConvertIsPivot(Finite(x), from, to, o, rates);
    ConvertIsPivot(Finite(x), from, to, None, rates);
  }

  /** With no zero rate in the table, converting into a currency and then on from it
      (with no override on the second leg) is the same as converting directly. */
  lemma ConvertComposes(x: Number, a: Currency, b: Currency, c: Currency, o: Option<real>, rates: Rates)
    requires NonzeroRates(rates)
    ensures ConvertAmount(Finite(ConvertAmount(x, a, b, o, rates)), b, c, None, rates)
            == ConvertAmount(x, a, c, o, rates)
  {
    var fa, tb, tc := GetRate(a, o, rates), TableRate(b, rates), TableRate(c, rates);
    var y := ConvertAmount(x, a, b, o, rates);
    ConvertIsPivot(x, a, b, o, rates);
    ConvertIsPivot(x, a, c, o, rates);
    ConvertIsPivot(Finite(y), b, c, None, rates);
    assert GetRate(b, None, rates) == tb;
    if x.Finite? {
      NonzeroRatesGiveNonzeroRate(a, o, rates);
      NonzeroRatesGiveNonzeroRate(b, None, rates);
      NonzeroRatesGiveNonzeroRate(c, None, rates);
      PivotCancels(x.value, fa, tb, tc);
    } else {
      PivotScales(0.0, 0.0, tb, tc);
    }
  }

  /** With no zero rate in the table, converting there and back is the identity. */
  lemma ConvertRoundTrip(x: real, a: Currency, b: Currency, rates: Rates)
    requires NonzeroRates(rates)
    ensures ConvertAmount(Finite(ConvertAmount(Finite(x), a, b, None, rates)), b, a, None, rates) == x
  {
    ConvertComposes(Finite(x), a, b, a, None, rates);
    SameCurrencyIsIdentity(x, a, None, rates);
  }

  /** With no zero rate in the table, a finite amount converts to 0 exactly when it is 0. */
  lemma ConvertZeroOnlyFromZero(x: Number, from: Currency, to: Currency, o: Option<real>, rates: Rates)
    requires NonzeroRates(rates)
    requires ConvertAmount(x, from, to, o, rates) == 0.0
    ensures x.NaN? || x.value == 0.0
  {
    ConvertIsPivot(x, from, to, o, rates);
    if x.Finite? {
      NonzeroRatesGiveNonzeroRate(from, o, rates);
      NonzeroRatesGiveNonzeroRate(to, o, rates);
      PivotZeroOnlyFromZero(x.value, GetRate(from, o, rates), TableRate(to, rates));
    }
  }

  /** The annual conversion is twelve times the monthly one, for every currency pair
      and override (a NaN amount gives 0 either way). */
  lemma AnnualIsTwelveMonths(field: MonetaryField, target: Currency, rates: Rates)
    ensures ConvertFieldAnnual(field, target, rates) == 12.0 * ConvertField(field, target, rates)
  {
    if field.amount.Finite? {
      var x := field.amount.value;
      var yearly := field.(amount := Finite(12.0 * x));
      assert field.(amount := Times(field.amount, 12.0)) == yearly;
      ConvertScales(x, 12.0, field.currency, target, field.overrideRate, rates);
    }
  }
}
