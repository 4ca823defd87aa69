/** ESPP proration (getEsppMonthsInYear and the per-plan step of the newer engine's
    yearly ESPP loop): how many months of a purchase plan fall in a calendar year, and
    what the plan takes from and returns to that year's salary. */
module Espp {
  import opened Money
  import opened Conversion

  type Month = m: int | 0 <= m < 12

  /** A parsed calendar date, down to the month (0 is January). */
  datatype YearMonth = YearMonth(year: int, month: Month)

  /** A purchase plan. Its start date is given already parsed, or None when the date
      string does not parse. */
  datatype EsppPlan = EsppPlan(
    name: string,
    start: Option<YearMonth>,
    durationMonths: int,
    contributionPercentage: real,
    growthPercentage: real,
    purchaseCurrency: Currency,
    overrideRate: Option<real>)

  /** What the plans take from (contributions) and add to (returns) one year's pay. */
  datatype EsppAmounts = EsppAmounts(contributions: real, gains: real)

  /** A year and a month number that may lie outside 0..11, normalised the way a
      JavaScript date carries surplus (or missing) months into its year. */
  function Normalize(year: int, month: int): (ym: YearMonth)
    decreases if month < 0 then 12 - month else month
  {
    if month >= 12 then Normalize(year + 1, month - 12)
    else if month < 0 then Normalize(year - 1, month + 12)
    else YearMonth(year, month)
  }

  /** The number of months since year 0 that a date stands for. */
  function MonthIndex(ym: YearMonth): int
  {
    ym.year * 12 + ym.month
  }

  /** Normalising keeps the month index. */
  lemma {:induction false} NormalizeKeepsIndex(year: int, month: int)
    decreases if month < 0 then 12 - month else month
    ensures MonthIndex(Normalize(year, month)) == year * 12 + month
  {
    if month >= 12 {
      NormalizeKeepsIndex(year + 1, month - 12);
    } else if month < 0 {
      NormalizeKeepsIndex(year - 1, month + 12);
    }
  }

  /** The month `durationMonths` after `start` (`setMonth(getMonth() + durationMonths)`). */
  function EndOf(start: YearMonth, durationMonths: int): (end: YearMonth)
  {
    Normalize(start.year, start.month + durationMonths)
  }

  /** The plan's end lies `durationMonths` months after its start. */
  lemma EndOfIsDurationLater(start: YearMonth, durationMonths: int)
    ensures MonthIndex(EndOf(start, durationMonths)) == MonthIndex(start) + durationMonths
  {
    NormalizeKeepsIndex(start.year, start.month + durationMonths);
  }

  /** getEsppMonthsInYear. The plan covers the months from its start month up to, but
      not including, its end month. */
  function MonthsInYear(start: Option<YearMonth>, durationMonths: int, targetYear: int): (months: int)
    ensures start.None? ==> months == 0
    ensures start.Some? && (targetYear < start.value.year || targetYear > EndOf(start.value, durationMonths).year)
            ==> months == 0
  {
    match start
    case None => 0
    case Some(s) =>
      var end := EndOf(s, durationMonths);
      if targetYear < s.year || targetYear > end.year then 0
      else if s.year == targetYear && end.year == targetYear then durationMonths
      else if s.year == targetYear && end.year > targetYear then 12 - s.month
      else if s.year < targetYear && end.year == targetYear then end.month
      else if s.year < targetYear && end.year > targetYear then 12
      else 0
  }

  /** For a plan of non-negative length, a year gets between 0 and 12 months of it. */
  lemma MonthsInYearBounded(start: Option<YearMonth>, durationMonths: int, targetYear: int)
    requires durationMonths >= 0
    ensures 0 <= MonthsInYear(start, durationMonths, targetYear) <= 12
  {
    if start.Some? {
      EndOfIsDurationLater(start.value, durationMonths);
    }
  }

  /** The months of the plan that fall in the n calendar years from `from` on. */
  function MonthsOver(start: Option<YearMonth>, durationMonths: int, from: int, n: nat): int
    decreases n
  {
    if n == 0 then 0
    else MonthsInYear(start, durationMonths, from) + MonthsOver(start, durationMonths, from + 1, n - 1)
  }

  /** The years strictly after the start year, up to and including the end year, hold
      12 months each except the end year, which holds the end month. */
  lemma {:induction false} MonthsAfterStartYear(s: YearMonth, durationMonths: int, from: int, n: nat)
    requires s.year < from && from + n == EndOf(s, durationMonths).year
    decreases n
    ensures MonthsOver(Some(s), durationMonths, from, n + 1) == 12 * n + EndOf(s, durationMonths).month
  {
    if n > 0 {
      MonthsAfterStartYear(s, durationMonths, from + 1, n - 1);
    }
  }

  /** Years outside the plan contribute nothing to a sum of months. */
  lemma {:induction false} MonthsOutsidePlan(s: YearMonth, durationMonths: int, from: int, n: nat)
    requires from + n <= s.year || from > EndOf(s, durationMonths).year
    decreases n
    ensures MonthsOver(Some(s), durationMonths, from, n) == 0
  {
    if n > 0 {
      MonthsOutsidePlan(s, durationMonths, from + 1, n - 1);
    }
  }

  /** Splitting a run of years splits its sum of months. */
  lemma {:induction false} MonthsOverSplit(start: Option<YearMonth>, durationMonths: int, from: int, a: nat, b: nat)
    decreases a
    ensures MonthsOver(start, durationMonths, from, a + b)
            == MonthsOver(start, durationMonths, from, a) + MonthsOver(start, durationMonths, from + a, b)
  {
    if a > 0 {
      MonthsOverSplit(start, durationMonths, from + 1, a - 1, b);
    }
  }

  /** Summed over any run of calendar years that covers the plan, the months per year
      add up to the plan's duration. */
  lemma MonthsAddUpToDuration(s: YearMonth, durationMonths: int, from: int, n: nat)
    requires durationMonths >= 0
    requires from <= s.year && EndOf(s, durationMonths).year < from + n
    ensures MonthsOver(Some(s), durationMonths, from, n) == durationMonths
  {
    var e := EndOf(s, durationMonths);
    EndOfIsDurationLater(s, durationMonths);
    assert s.year <= e.year;
    var before := s.year - from;
    var span := e.year - s.year + 1;
    var after := n - before - span;
    MonthsOverSplit(Some(s), durationMonths, from, before, span + after);
    MonthsOverSplit(Some(s), durationMonths, s.year, span, after);
    MonthsOutsidePlan(s, durationMonths, from, before);
    MonthsOutsidePlan(s, durationMonths, e.year + 1, after);
    if s.year < e.year {
      assert MonthsOver(Some(s), durationMonths, s.year, span)
          == (12 - s.month) + MonthsOver(Some(s), durationMonths, s.year + 1, span - 1);
      MonthsAfterStartYear(s, durationMonths, s.year + 1, span - 2);
    } else {
      assert MonthsOver(Some(s), durationMonths, s.year, 1) == durationMonths;
    }
  }

  /** A six-month plan starting in April lies wholly in its start year; one starting in
      November puts two months in its start year and four in the next. */
  lemma SixMonthPlanScenario(y: int)
    ensures MonthsInYear(Some(YearMonth(y, 3)), 6, y) == 6
    ensures MonthsInYear(Some(YearMonth(y, 3)), 6, y + 1) == 0
    ensures MonthsInYear(Some(YearMonth(y, 10)), 6, y) == 2
    ensures MonthsInYear(Some(YearMonth(y, 10)), 6, y + 1) == 4
  {
    assert EndOf(YearMonth(y, 3), 6) == YearMonth(y, 9);
    assert Normalize(y, 16) == Normalize(y + 1, 4);
  }

  /** One plan's contribution and return for one year, AS THE NEWER ENGINE WRITES IT:
      the year's salary is converted into the purchase currency with the plan's override
      passed as the rate of the preferred currency (the source currency of that
      conversion), and the contribution is converted back with the same override as the
      rate of the purchase currency. */
  function PlanYearAsWritten(plan: EsppPlan, baseYear: real, targetYear: int, preferred: Currency, rates: Rates): EsppAmounts
  {
    var months := MonthsInYear(plan.start, plan.durationMonths, targetYear);
    if months == 0 then EsppAmounts(0.0, 0.0)
    else
      var basePurchase := ConvertAmount(Finite(baseYear), preferred, plan.purchaseCurrency, plan.overrideRate, rates);
      var contribution := ConvertAmount(Finite(PurchaseContribution(plan, months, basePurchase)), plan.purchaseCurrency, preferred, plan.overrideRate, rates);
      EsppAmounts(contribution, contribution * (plan.growthPercentage / 100.0))
  }

  /** With the default table, USD preferred and an ILS plan whose override equals the
      table's ILS rate, a 10% plan over all twelve months of a 120000 salary contributes
      120000 / 3.65 * 0.1 (about 3287.67) as written, not 12000. */
  lemma PlanYearAsWrittenMisconverts(y: int)
    ensures var plan := EsppPlan("Plan", Some(YearMonth(y, 0)), 12, 10.0, 0.0, ILS, Some(3.65));
            PlanYearAsWritten(plan, 120000.0, y, USD, DefaultRates()).contributions == 120000.0 / 3.65 * 0.1
            && 120000.0 / 3.65 * 0.1 != 12000.0
  {
    var plan := EsppPlan("Plan", Some(YearMonth(y, 0)), 12, 10.0, 0.0, ILS, Some(3.65));
    assert Normalize(y, 12) == Normalize(y + 1, 0);
    assert MonthsInYear(plan.start, 12, y) == 12;
    var basePurchase := ConvertAmount(Finite(120000.0), USD, ILS, Some(3.65), DefaultRates());
    assert basePurchase == 120000.0 / 3.65 * 3.65;
    var contributionPurchase := basePurchase / 12.0 * (10.0 / 100.0) * 12 as real;
    assert contributionPurchase == 12000.0;
    assert ConvertAmount(Finite(12000.0), ILS, USD, Some(3.65), DefaultRates()) == 12000.0 / 3.65 * 1.0;
  }

  /** On the same input, the corrected step contributes the 12000 the plan's 10 % of
      120000 should give, and an override below the table's rate raises the contribution
      by the ratio of the two rates. */
  lemma PlanYearCorrectedScenario(y: int)
    ensures var plan := EsppPlan("Plan", Some(YearMonth(y, 0)), 12, 10.0, 0.0, ILS, Some(3.65));
            PlanYear(plan, 120000.0, y, USD, DefaultRates()).contributions == 12000.0
    ensures var plan := EsppPlan("Plan", Some(YearMonth(y, 0)), 12, 10.0, 0.0, ILS, Some(3.5));
            PlanYear(plan, 120000.0, y, USD, DefaultRates()).contributions == 12000.0 * 3.65 / 3.5
  {
    var plan := EsppPlan("Plan", Some(YearMonth(y, 0)), 12, 10.0, 0.0, ILS, Some(3.65));
    var lower := plan.(overrideRate := Some(3.5));
    assert NonzeroRates(DefaultRates());
    assert Normalize(y, 12) == Normalize(y + 1, 0);
    assert MonthsInYear(plan.start, 12, y) == 12;
    assert TableRate(ILS, DefaultRates()) == 3.65;
    assert YearShare(plan, 120000.0, y, DefaultRates()) == 0.1 * (120000.0 * (3.65 / 3.65));
    assert YearShare(lower, 120000.0, y, DefaultRates()) == 0.1 * (120000.0 * (3.65 / 3.5));
    PlanYearIsShareOfSalary(plan, 120000.0, y, USD, DefaultRates());
    PlanYearIsShareOfSalary(lower, 120000.0, y, USD, DefaultRates());
  }

  /** Whether a plan carries an override that getRate would use (present and positive). */
  predicate HasPositiveOverride(plan: EsppPlan)
  {
    plan.overrideRate.Some? && plan.overrideRate.value > 0.0
  }

  /** Without a positive override the corrected step and the step as written agree: the
      misconversion needs an override to take effect. */
  lemma AgreesWithoutOverride(plan: EsppPlan, baseYear: real, targetYear: int, preferred: Currency, rates: Rates)
    requires !HasPositiveOverride(plan)
    ensures PlanYear(plan, baseYear, targetYear, preferred, rates) == PlanYearAsWritten(plan, baseYear, targetYear, preferred, rates)
  {
    if MonthsInYear(plan.start, plan.durationMonths, targetYear) != 0 {
      NonPositiveOverrideIsNone(baseYear, preferred, plan.purchaseCurrency, plan.overrideRate, rates);
    }
  }

  /** Each plan's contribution and return for one year as the newer engine writes them. */
  function PlanYearsAsWritten(plans: seq<EsppPlan>, baseYear: real, targetYear: int, preferred: Currency, rates: Rates): (ys: seq<EsppAmounts>)
    ensures |ys| == |plans|
  {
    seq(|plans|, i requires 0 <= i < |plans| => PlanYearAsWritten(plans[i], baseYear, targetYear, preferred, rates))
  }

  /** All plans' contributions and returns for one year as the newer engine writes them. */
  function EsppTotalsAsWritten(plans: seq<EsppPlan>, baseYear: real, targetYear: int, preferred: Currency, rates: Rates): EsppAmounts
  {
    SumAmounts(PlanYearsAsWritten(plans, baseYear, targetYear, preferred, rates))
  }

  /** When no plan has a positive override, the year's ESPP totals the model uses are the
      totals the newer engine computes as written. */
  lemma TotalsAgreeWithoutOverride(plans: seq<EsppPlan>, baseYear: real, targetYear: int, preferred: Currency, rates: Rates)
    requires forall i :: 0 <= i < |plans| ==> !HasPositiveOverride(plans[i])
    ensures EsppTotals(plans, baseYear, targetYear, preferred, rates) == EsppTotalsAsWritten(plans, baseYear, targetYear, preferred, rates)
  {
    forall i | 0 <= i < |plans|
      ensures PlanYears(plans, baseYear, targetYear, preferred, rates)[i]
              == PlanYearsAsWritten(plans, baseYear, targetYear, preferred, rates)[i]
    {
      AgreesWithoutOverride(plans[i], baseYear, targetYear, preferred, rates);
    }
    assert PlanYears(plans, baseYear, targetYear, preferred, rates) == PlanYearsAsWritten(plans, baseYear, targetYear, preferred, rates);
  }

  /** The factor an override puts on an amount that goes into currency `c` at the
      table's rates and comes back with the override as `c`'s rate: `c`'s table rate over
      the override when the override is positive, and 1 otherwise. */
  function OverrideFactor(c: Currency, o: Option<real>, rates: Rates): real
  {
    if o.Some? && o.value > 0.0 then TableRate(c, rates) / o.value else 1.0
  }

  /** A year's salary as a plan's override values it: the salary times the override's
      factor for the plan's purchase currency. */
  function ValuedSalary(plan: EsppPlan, baseYear: real, rates: Rates): real
  {
    baseYear * OverrideFactor(plan.purchaseCurrency, plan.overrideRate, rates)
  }

  /** With no zero rate, an amount taken into another currency at the table's rates and
      brought back with an override comes back scaled by the override's factor, and
      unchanged without a positive override. */
  lemma BackLegScales(x: real, home: Currency, foreign: Currency, o: Option<real>, rates: Rates)
    requires NonzeroRates(rates)
    ensures ConvertAmount(Finite(ConvertAmount(Finite(x), home, foreign, None, rates)), foreign, home, o, rates)
            == x * OverrideFactor(foreign, o, rates)
  {
    if o.Some? && o.value > 0.0 {
      BackLegWithPositiveOverride(x, home, foreign, o.value, rates);
    } else {
      BackLegWithoutOverride(x, home, foreign, o, rates);
    }
  }

  lemma BackLegWithPositiveOverride(x: real, home: Currency, foreign: Currency, o: real, rates: Rates)
    requires NonzeroRates(rates) && o > 0.0
    ensures ConvertAmount(Finite(ConvertAmount(Finite(x), home, foreign, None, rates)), foreign, home, Some(o), rates)
            == x * OverrideFactor(foreign, Some(o), rates)
  {
    var th, tf := TableRate(home, rates), TableRate(foreign, rates);
    var y := ConvertAmount(Finite(x), home, foreign, None, rates);
    NonzeroRatesGiveNonzeroRate(home, None, rates);
    NonzeroRatesGiveNonzeroRate(foreign, None, rates);
    ConvertIsPivot(Finite(x), home, foreign, None, rates);
    ConvertIsPivot(Finite(y), foreign, home, Some(o), rates);
    ThereAndBackWithOverride(x, th, tf, o);
  }

  lemma BackLegWithoutOverride(x: real, home: Currency, foreign: Currency, o: Option<real>, rates: Rates)
    requires NonzeroRates(rates) && !(o.Some? && o.value > 0.0)
    ensures ConvertAmount(Finite(ConvertAmount(Finite(x), home, foreign, None, rates)), foreign, home, o, rates)
            == x * OverrideFactor(foreign, o, rates)
  {
    var y := ConvertAmount(Finite(x), home, foreign, None, rates);
    NonPositiveOverrideIsNone(y, foreign, home, o, rates);
    ConvertRoundTrip(x, home, foreign, rates);
  }

  /** Pivoting in at table rates and back at an override scales by the target's table
      rate over the override. */
  lemma ThereAndBackWithOverride(x: real, th: real, tf: real, o: real)
    requires th != 0.0 && tf != 0.0 && o > 0.0
    ensures Pivot(Pivot(x, th, tf), o, th) == x * (tf / o)
  {
    calc {
      Pivot(Pivot(x, th, tf), o, th);
      x / th * tf / o * th;
      { assert x / th * th == x; }
      x * (tf / o);
    }
  }

  /** One plan's contribution and return for a year in which it is active for `months`
      months (corrected): the year's salary goes into the purchase currency at the table's
      rates, a share of it for those months is contributed and converted back with the
      plan's override, and the growth percentage of it is the return. */
  function PlanShare(plan: EsppPlan, months: int, baseYear: real, preferred: Currency, rates: Rates): EsppAmounts
  {
    if months == 0 then EsppAmounts(0.0, 0.0)
    else
      var contribution := Contribution(plan, months, baseYear, preferred, rates);
      EsppAmounts(contribution, contribution * (plan.growthPercentage / 100.0))
  }

  /** The part of a year's salary, already in the purchase currency, that a plan takes
      over `months` months: a twelfth of it per month, at the contribution percentage. */
  function PurchaseContribution(plan: EsppPlan, months: int, basePurchase: real): real
  {
    basePurchase / 12.0 * (plan.contributionPercentage / 100.0) * months as real
  }

  /** An active plan's contribution in the preferred currency (corrected conversion: the
      override applies only on the way back, from the purchase currency). */
  function Contribution(plan: EsppPlan, months: int, baseYear: real, preferred: Currency, rates: Rates): real
  {
    var basePurchase := ConvertAmount(Finite(baseYear), preferred, plan.purchaseCurrency, None, rates);
    ConvertAmount(Finite(PurchaseContribution(plan, months, basePurchase)), plan.purchaseCurrency, preferred, plan.overrideRate, rates)
  }

  /** One plan's contribution and return for one calendar year. */
  function PlanYear(plan: EsppPlan, baseYear: real, targetYear: int, preferred: Currency, rates: Rates): EsppAmounts
  {
    PlanShare(plan, MonthsInYear(plan.start, plan.durationMonths, targetYear), baseYear, preferred, rates)
  }

  /** The share of a year's salary a plan contributes over `months` months: its
      percentage for each twelfth of the year. */
  function ShareOfSalary(plan: EsppPlan, months: int): real
  {
    plan.contributionPercentage / 100.0 * months as real / 12.0
  }

  /** The purchase-currency contribution is the plan's share of the converted salary. */
  lemma PurchaseContributionIsShare(plan: EsppPlan, months: int, x: real)
    ensures PurchaseContribution(plan, months, x) == ShareOfSalary(plan, months) * x
  {
    MonthlyShare(x, plan.contributionPercentage / 100.0, months as real);
  }

  lemma MonthlyShare(x: real, c: real, m: real)
    ensures x / 12.0 * c * m == c * m / 12.0 * x
  {
  }

  /** What a plan takes over `months` months of a year's salary: its share of the salary as
      its override values it. */
  function SalaryShare(plan: EsppPlan, months: int, baseYear: real, rates: Rates): real
  {
    ShareOfSalary(plan, months) * ValuedSalary(plan, baseYear, rates)
  }

  /** Converting the plan's share of an amount is taking that share of the converted amount. */
  lemma ConvertedShare(plan: EsppPlan, months: int, x: real, from: Currency, to: Currency, o: Option<real>, rates: Rates)
    ensures ConvertAmount(Finite(PurchaseContribution(plan, months, x)), from, to, o, rates)
            == ShareOfSalary(plan, months) * ConvertAmount(Finite(x), from, to, o, rates)
  {
    PurchaseContributionIsShare(plan, months, x);
    ConvertScales(x, ShareOfSalary(plan, months), from, to, o, rates);
  }

  /** A year's salary taken into a plan's purchase currency at the table's rates and
      brought back with the plan's override. */
  function SalaryBack(plan: EsppPlan, baseYear: real, preferred: Currency, rates: Rates): real
  {
    var basePurchase := ConvertAmount(Finite(baseYear), preferred, plan.purchaseCurrency, None, rates);
    ConvertAmount(Finite(basePurchase), plan.purchaseCurrency, preferred, plan.overrideRate, rates)
  }

  /** An active plan's contribution is its share of the salary brought back. */
  lemma ContributionIsShareOfSalaryBack(plan: EsppPlan, months: int, baseYear: real, preferred: Currency, rates: Rates)
    ensures Contribution(plan, months, baseYear, preferred, rates) == ShareOfSalary(plan, months) * SalaryBack(plan, baseYear, preferred, rates)
  {
    var basePurchase := ConvertAmount(Finite(baseYear), preferred, plan.purchaseCurrency, None, rates);
    ConvertedShare(plan, months, basePurchase, plan.purchaseCurrency, preferred, plan.overrideRate, rates);
  }

  /** With no zero rate, the salary brought back is the salary as the plan's override
      values it. */
  lemma SalaryComesBackScaled(plan: EsppPlan, baseYear: real, preferred: Currency, rates: Rates)
    requires NonzeroRates(rates)
    ensures SalaryBack(plan, baseYear, preferred, rates) == ValuedSalary(plan, baseYear, rates)
  {
    BackLegScales(baseYear, preferred, plan.purchaseCurrency, plan.overrideRate, rates);
  }

  /** Whatever the currencies, an active plan contributes its percentage of the salary
      for each of its months, the salary valued by the plan's override. */
  lemma ContributionIsShareOfSalary(plan: EsppPlan, months: int, baseYear: real, preferred: Currency, rates: Rates)
    requires NonzeroRates(rates)
    ensures Contribution(plan, months, baseYear, preferred, rates) == SalaryShare(plan, months, baseYear, rates)
  {
    ContributionIsShareOfSalaryBack(plan, months, baseYear, preferred, rates);
    SalaryComesBackScaled(plan, baseYear, preferred, rates);
  }

  /** For any number of months, active or not, a plan contributes its share of the salary
      as its override values it. */
  lemma PlanShareIsShareOfSalary(plan: EsppPlan, months: int, baseYear: real, preferred: Currency, rates: Rates)
    requires NonzeroRates(rates)
    ensures PlanShare(plan, months, baseYear, preferred, rates).contributions
            == SalaryShare(plan, months, baseYear, rates)
  {
    if months != 0 {
      ContributionIsShareOfSalary(plan, months, baseYear, preferred, rates);
    }
  }

  /** What a plan takes of one calendar year's salary, as its override values it. */
  function YearShare(plan: EsppPlan, baseYear: real, targetYear: int, rates: Rates): real
  {
    SalaryShare(plan, MonthsInYear(plan.start, plan.durationMonths, targetYear), baseYear, rates)
  }

  /** In each calendar year a plan contributes its share of that year's salary as its
      override values it. */
  lemma PlanYearIsShareOfSalary(plan: EsppPlan, baseYear: real, targetYear: int, preferred: Currency, rates: Rates)
    requires NonzeroRates(rates)
    ensures PlanYear(plan, baseYear, targetYear, preferred, rates).contributions
            == YearShare(plan, baseYear, targetYear, rates)
  {
    PlanShareIsShareOfSalary(plan, MonthsInYear(plan.start, plan.durationMonths, targetYear), baseYear, preferred, rates);
  }

  /** Each plan's contribution and return for one year, in input order. */
  function PlanYears(plans: seq<EsppPlan>, baseYear: real, targetYear: int, preferred: Currency, rates: Rates): (ys: seq<EsppAmounts>)
    ensures |ys| == |plans|
  {
    seq(|plans|, i requires 0 <= i < |plans| => PlanYear(plans[i], baseYear, targetYear, preferred, rates))
  }

  /** Amounts summed component by component, in order. */
  function SumAmounts(xs: seq<EsppAmounts>): EsppAmounts
  {
    if xs == [] then EsppAmounts(0.0, 0.0)
    else
      var rest := SumAmounts(xs[..|xs| - 1]);
      EsppAmounts(rest.contributions + xs[|xs| - 1].contributions, rest.gains + xs[|xs| - 1].gains)
  }

  /** All plans' contributions and returns for one year. */
  function EsppTotals(plans: seq<EsppPlan>, baseYear: real, targetYear: int, preferred: Currency, rates: Rates): EsppAmounts
  {
    SumAmounts(PlanYears(plans, baseYear, targetYear, preferred, rates))
  }

  function Sum(xs: seq<real>): real
  {
    if xs == [] then 0.0 else Sum(xs[..|xs| - 1]) + xs[|xs| - 1]
  }

  /** Each plan's share of one year's salary as its override values it, in input order. */
  function SalaryShares(plans: seq<EsppPlan>, baseYear: real, targetYear: int, rates: Rates): (ss: seq<real>)
    ensures |ss| == |plans|
  {
    seq(|plans|, i requires 0 <= i < |plans| => YearShare(plans[i], baseYear, targetYear, rates))
  }

  /** When the amounts' contributions are the given values, one by one, their total
      contribution is the sum of those values. */
  lemma {:induction false} SumOfContributions(xs: seq<EsppAmounts>, ss: seq<real>)
    requires |xs| == |ss|
    requires forall i :: 0 <= i < |xs| ==> xs[i].contributions == ss[i]
    ensures SumAmounts(xs).contributions == Sum(ss)
  {
    if xs != [] {
      SumOfContributions(xs[..|xs| - 1], ss[..|ss| - 1]);
    }
  }

  /** Together, the plans contribute the sum of their shares of the year's salary. */
  lemma EsppTotalsAreShareOfSalary(plans: seq<EsppPlan>, baseYear: real, targetYear: int, preferred: Currency, rates: Rates)
    requires NonzeroRates(rates)
    ensures EsppTotals(plans, baseYear, targetYear, preferred, rates).contributions
            == Sum(SalaryShares(plans, baseYear, targetYear, rates))
  {
    PlanYearsAreShares(plans, baseYear, targetYear, preferred, rates);
    SumOfContributions(PlanYears(plans, baseYear, targetYear, preferred, rates), SalaryShares(plans, baseYear, targetYear, rates));
  }

  /** Plan by plan, each contribution is that plan's share of the salary. */
  lemma PlanYearsAreShares(plans: seq<EsppPlan>, baseYear: real, targetYear: int, preferred: Currency, rates: Rates)
    requires NonzeroRates(rates)
    ensures forall i :: 0 <= i < |plans| ==>
              PlanYears(plans, baseYear, targetYear, preferred, rates)[i].contributions
              == SalaryShares(plans, baseYear, targetYear, rates)[i]
  {
    forall i | 0 <= i < |plans| {
      PlanYearIsShareAt(plans, i, baseYear, targetYear, preferred, rates);
    }
  }

  lemma PlanYearIsShareAt(plans: seq<EsppPlan>, i: int, baseYear: real, targetYear: int, preferred: Currency, rates: Rates)
    requires NonzeroRates(rates)
    requires 0 <= i < |plans|
    ensures PlanYears(plans, baseYear, targetYear, preferred, rates)[i].contributions
            == SalaryShares(plans, baseYear, targetYear, rates)[i]
  {
    PlanYearIsShareOfSalary(plans[i], baseYear, targetYear, preferred, rates);
  }

  /** Adding one more plan adds its amounts to the totals. */
  lemma EsppTotalsAppend(plans: seq<EsppPlan>, j: int, baseYear: real, targetYear: int, preferred: Currency, rates: Rates)
    requires 0 <= j < |plans|
    ensures var before := EsppTotals(plans[..j], baseYear, targetYear, preferred, rates);
            var one := PlanYear(plans[j], baseYear, targetYear, preferred, rates);
            EsppTotals(plans[..j + 1], baseYear, targetYear, preferred, rates)
            == EsppAmounts(before.contributions + one.contributions, before.gains + one.gains)
  {
    var ys := PlanYears(plans[..j + 1], baseYear, targetYear, preferred, rates);
    assert ys[..j] == PlanYears(plans[..j], baseYear, targetYear, preferred, rates);
  }

  /** The per-plan loop of the yearly ESPP step: for each plan active in the target year,
      adds its contribution and its return. */
  method AccumulateEspp(plans: seq<EsppPlan>, baseYear: real, targetYear: int, preferred: Currency, rates: Rates)
    returns (contributions: real, gains: real)
    ensures EsppAmounts(contributions, gains) == EsppTotals(plans, baseYear, targetYear, preferred, rates)
  {
    contributions, gains := 0.0, 0.0;
    for j := 0 to |plans|
      invariant EsppAmounts(contributions, gains) == EsppTotals(plans[..j], baseYear, targetYear, preferred, rates)
    {
      var plan := plans[j];
      var months := MonthsInYear(plan.start, plan.durationMonths, targetYear);
      if months != 0 {
        var share := PlanShare(plan, months, baseYear, preferred, rates);
        contributions := contributions + share.contributions;
        gains := gains + share.gains;
      }
      EsppTotalsAppend(plans, j, baseYear, targetYear, preferred, rates);
    }
    assert plans[..|plans|] == plans;
  }
}

