/** buildCompensationSummary of the older engine: benefits computed in a calculation
    currency, a single ESPP configuration valued on the year-0 base, and a timeline in
    which raises (from year 1 on) scale the base, the allowances, the benefits and the
    ESPP value alike. Currency conversion, the RSU schedule and the horizon are the
    same functions as in the newer engine. */
module LegacyProjection {
  import opened Money
  import opened Conversion
  import opened Rsu
  import opened Raises
  import opened Horizon
  import opened Summary

  /** Benefits: a percentage of the annual base plus allowances, computed in the
      calculation currency. */
  datatype BenefitsConfig = BenefitsConfig(percentage: real, calculationCurrency: Currency)

  /** The older engine's single ESPP configuration; the optional fields may be unset. */
  datatype EsppConfig = EsppConfig(
    enabled: bool,
    contributionPercentage: Option<real>,
    growthPercentage: Option<real>,
    purchaseCurrency: Option<Currency>,
    overrideRate: Option<real>)

  /** The form values the older engine reads. */
  datatype LegacyValues = LegacyValues(
    base: MonetaryField,
    food: MonetaryField,
    bonusPercentage: real,
    benefits: BenefitsConfig,
    espp: EsppConfig,
    raises: RaisesConfig,
    rsuGrants: seq<RsuGrant>)

  /** A percentage as a rate: `percentage / 100`. */
  function RateOf(percentage: real): real
  {
    percentage / 100.0
  }

  /** `percentage` percent of an amount. */
  function PercentOf(amount: real, percentage: real): real
  {
    RateOf(percentage) * amount
  }

  /** The benefits in the calculation currency: the base and the food allowance, each
      as twelve months converted into that currency (what convertFieldAnnual computes),
      times the benefits rate. */
  function BenefitsInCalculation(v: LegacyValues, rates: Rates): real
  {
    var calculation := v.benefits.calculationCurrency;
    PercentOf(ConvertFieldAnnual(v.base, calculation, rates) + ConvertFieldAnnual(v.food, calculation, rates),
              v.benefits.percentage)
  }

  /** The annual benefits, converted on from the calculation currency into the preferred
      one without an override. */
  function BenefitsAnnual(v: LegacyValues, preferred: Currency, rates: Rates): real
  {
    ConvertAmount(Finite(BenefitsInCalculation(v, rates)), v.benefits.calculationCurrency, preferred, None, rates)
  }

  /** ESPP is valued only when it is enabled and its percentages and purchase currency
      are all set. */
  predicate EsppActive(config: EsppConfig)
  {
    config.enabled && config.contributionPercentage.Some? && config.growthPercentage.Some?
    && config.purchaseCurrency.Some?
  }

  /** The ESPP contributions in the purchase currency: the annual base converted into
      that currency with the base's own override, times the contribution rate. */
  function ContributionsInPurchase(base: MonetaryField, purchase: Currency, contributionPercentage: real, rates: Rates): real
  {
    PercentOf(ConvertFieldAnnual(base, purchase, rates), contributionPercentage)
  }

  /** The year-0 ESPP figures: the annual base converted into the purchase currency
      (with the base's own override), the contribution share of it converted into the
      preferred currency with the plan's override, and the growth share of that. */
  function LegacyEspp(v: LegacyValues, preferred: Currency, rates: Rates): (e: EsppSummary)
    ensures e.enabled <==> EsppActive(v.espp)
    ensures !EsppActive(v.espp) ==> e.contributions == 0.0 && e.gains == 0.0
    ensures EsppActive(v.espp) ==> e.gains == PercentOf(e.contributions, v.espp.growthPercentage.value)
  {
    if !EsppActive(v.espp) then EsppSummary(false, 0.0, 0.0)
    else
      var purchase := v.espp.purchaseCurrency.value;
      var contributionsInPurchase := ContributionsInPurchase(v.base, purchase, v.espp.contributionPercentage.value, rates);
      var contributionsInTarget := ConvertAmount(Finite(contributionsInPurchase), purchase, preferred, v.espp.overrideRate, rates);
      EsppSummary(true, contributionsInTarget, PercentOf(contributionsInTarget, v.espp.growthPercentage.value))
  }

  /** What the older engine derives before the timeline: the annual base and allowances
      in the preferred currency, the bonus and benefits rates, the RSU schedule, the
      raises map and the year-0 ESPP figures. */
  datatype LegacyBasis = LegacyBasis(
    baseAnnual: real,
    allowancesAnnual: real,
    bonusRate: real,
    benefitsRate: real,
    schedule: map<nat, real>,
    raises: map<int, real>,
    espp: EsppSummary)

  function LegacyBasisOf(v: LegacyValues, preferred: Currency, rates: Rates, currentYear: int): LegacyBasis
  {
    LegacyBasis(ConvertFieldAnnual(v.base, preferred, rates), ConvertFieldAnnual(v.food, preferred, rates),
                RateOf(v.bonusPercentage), RateOf(v.benefits.percentage),
                Schedule(v.rsuGrants, preferred, rates, currentYear), LegacyRaisesMap(v.raises),
                LegacyEspp(v, preferred, rates))
  }

  /** The year-0 totals, from the basis and the annual benefits. */
  function LegacyTotals(b: LegacyBasis, benefitsAnnual: real): TotalsSummary
  {
    var bonusAnnual := b.baseAnnual * b.bonusRate;
    var rsuAnnual := ScheduleAt(b.schedule, 0);
    var recurringTotal := b.baseAnnual + b.allowancesAnnual;
    var annualTotal := recurringTotal + bonusAnnual + benefitsAnnual + rsuAnnual + b.espp.contributions + b.espp.gains;
    TotalsSummary(annualTotal, annualTotal / 12.0, b.baseAnnual, b.allowancesAnnual, bonusAnnual, benefitsAnnual,
                  rsuAnnual, b.espp)
  }

  /** The year-0 distribution, in its fixed order; base and allowances form one slice. */
  function LegacyDistribution(t: TotalsSummary): (d: seq<DistributionItem>)
    ensures Labels(d) == ["Base + Allowances", "Bonus", "Benefits", "RSUs", "ESPP"]
  {
    [DistributionItem("Base + Allowances", t.base + t.allowances), DistributionItem("Bonus", t.bonus),
     DistributionItem("Benefits", t.benefits), DistributionItem("RSUs", t.rsuAnnual),
     DistributionItem("ESPP", t.espp.contributions + t.espp.gains)]
  }

  /** `baseAnnual || 1`: the divisor of the ESPP proportion. */
  function SafeBase(baseAnnual: real): (d: real)
    ensures d != 0.0
    ensures baseAnnual != 0.0 ==> d == baseAnnual
  {
    if baseAnnual == 0.0 then 1.0 else baseAnnual
  }

  /** The raised base of relative year `year` (raises from year 1 on). */
  function YearBase(b: LegacyBasis, year: nat): real
  {
    b.baseAnnual * LegacyMultiplier(b.raises, year + 1)
  }

  /** The raised allowances of relative year `year`: they follow the same multiplier. */
  function YearAllowances(b: LegacyBasis, year: nat): real
  {
    b.allowancesAnnual * LegacyMultiplier(b.raises, year + 1)
  }

  /** The ESPP value of a year: the year-0 contributions and returns, each scaled by the
      year's base over the year-0 base. */
  function YearEspp(e: EsppSummary, baseYear: real, baseAnnual: real): real
  {
    if e.enabled then
      var proportion := baseYear / SafeBase(baseAnnual);
      e.contributions * proportion + e.gains * proportion
    else 0.0
  }

  /** The timeline point of relative year `year`. */
  function LegacyPointAt(b: LegacyBasis, year: nat): TimelinePoint
  {
    var baseYear := YearBase(b, year);
    var allowancesYear := YearAllowances(b, year);
    var bonusYear := baseYear * b.bonusRate;
    var benefitsYear := (baseYear + allowancesYear) * b.benefitsRate;
    var rsuYear := ScheduleAt(b.schedule, year);
    var esppYear := YearEspp(b.espp, baseYear, b.baseAnnual);
    TimelinePoint(year, baseYear, allowancesYear, bonusYear, benefitsYear, rsuYear, esppYear,
                  baseYear + allowancesYear + bonusYear + benefitsYear + rsuYear + esppYear)
  }

  /** The first n points of the timeline. */
  function LegacyTimeline(b: LegacyBasis, n: nat): (t: seq<TimelinePoint>)
    ensures |t| == n
    ensures forall i :: 0 <= i < n ==> t[i].year == i
  {
    seq(n, i requires 0 <= i < n => LegacyPointAt(b, i))
  }

  /** The summary the older buildCompensationSummary returns. */
  function LegacySummaryOf(v: LegacyValues, preferred: Currency, rates: Rates, currentYear: int): CompensationSummary
  {
    var b := LegacyBasisOf(v, preferred, rates, currentYear);
    var t := LegacyTotals(b, BenefitsAnnual(v, preferred, rates));
    var n := ProjectionYears(b.schedule.Keys, b.raises.Keys);
    CompensationSummary(preferred, t, LegacyDistribution(t), LegacyTimeline(b, n), Breakdown(v.rsuGrants, preferred, rates))
  }

  /** The older buildCompensationSummary. */
  method BuildLegacyCompensationSummary(v: LegacyValues, preferred: Currency, rates: Rates, currentYear: int)
    returns (summary: CompensationSummary)
    ensures summary == LegacySummaryOf(v, preferred, rates, currentYear)
  {
    // The conversions, rates, RSU schedule, ESPP figures and raises map.
    var baseAnnual := ConvertFieldAnnual(v.base, preferred, rates);
    var allowancesAnnual := ConvertFieldAnnual(v.food, preferred, rates);
    var bonusRate := RateOf(v.bonusPercentage);
    var benefitsAnnual := BenefitsAnnual(v, preferred, rates);
    var rsuSchedule, breakdown := GetRsuSchedule(v.rsuGrants, preferred, rates, currentYear);
    var espp := LegacyEspp(v, preferred, rates);
    var raisesMap := BuildLegacyRaisesMap(v.raises);
    var b := LegacyBasis(baseAnnual, allowancesAnnual, bonusRate, RateOf(v.benefits.percentage), rsuSchedule, raisesMap, espp);
    assert b == LegacyBasisOf(v, preferred, rates, currentYear);

    // The year-0 totals and distribution, then the timeline.
    var totals, distribution := LegacyYearZero(b, benefitsAnnual);
    var projectionYears := ProjectionYears(rsuSchedule.Keys, raisesMap.Keys);
    var timeline := BuildLegacyTimeline(b, projectionYears);
    summary := CompensationSummary(preferred, totals, distribution, timeline, breakdown);
  }

  /** The year-0 bonus, RSU value, totals and distribution. */
  method LegacyYearZero(b: LegacyBasis, benefitsAnnual: real) returns (totals: TotalsSummary, distribution: seq<DistributionItem>)
    ensures totals == LegacyTotals(b, benefitsAnnual)
    ensures distribution == LegacyDistribution(totals)
  {
    var bonusAnnual := b.baseAnnual * b.bonusRate;
    var rsuAnnual := if 0 in b.schedule then b.schedule[0] else 0.0;
    var recurringTotal := b.baseAnnual + b.allowancesAnnual;
    var annualTotal := recurringTotal + bonusAnnual + benefitsAnnual + rsuAnnual + b.espp.contributions + b.espp.gains;
    var monthlyTotal := annualTotal / 12.0;
    distribution := [DistributionItem("Base + Allowances", recurringTotal), DistributionItem("Bonus", bonusAnnual),
                     DistributionItem("Benefits", benefitsAnnual), DistributionItem("RSUs", rsuAnnual),
                     DistributionItem("ESPP", b.espp.contributions + b.espp.gains)];
    totals := TotalsSummary(annualTotal, monthlyTotal, b.baseAnnual, b.allowancesAnnual, bonusAnnual, benefitsAnnual, rsuAnnual, b.espp);
  }

  /** The timeline loop: a year's raise enters the multiplier only from year 1 on. */
  method BuildLegacyTimeline(b: LegacyBasis, projectionYears: nat) returns (timeline: seq<TimelinePoint>)
    ensures timeline == LegacyTimeline(b, projectionYears)
  {
    timeline := [];
    var cumulativeMultiplier := 1.0;
    for year := 0 to projectionYears
      invariant cumulativeMultiplier == LegacyMultiplier(b.raises, year)
      invariant |timeline| == year
      invariant forall i :: 0 <= i < year ==> timeline[i] == LegacyPointAt(b, i)
    {
      LegacyMultiplierStep(b.raises, year, cumulativeMultiplier);
      if year > 0 && year in b.raises {
        cumulativeMultiplier := cumulativeMultiplier * (1.0 + b.raises[year]);
      }
      var point := ProjectLegacyYear(b, year, cumulativeMultiplier);
      timeline := timeline + [point];
    }
  }

  /** The body of the timeline loop once the year's raise is in the multiplier. */
  method ProjectLegacyYear(b: LegacyBasis, year: nat, cumulativeMultiplier: real) returns (point: TimelinePoint)
    requires cumulativeMultiplier == LegacyMultiplier(b.raises, year + 1)
    ensures point == LegacyPointAt(b, year)
  {
    var baseAnnualSafe := SafeBase(b.baseAnnual);
    var baseYear := b.baseAnnual * cumulativeMultiplier;
    assert baseYear == YearBase(b, year);
    var allowancesYear := b.allowancesAnnual * cumulativeMultiplier;
    assert allowancesYear == YearAllowances(b, year);
    var bonusYear := baseYear * b.bonusRate;
    assert bonusYear == YearBase(b, year) * b.bonusRate;
    var benefitsYear := (baseYear + allowancesYear) * b.benefitsRate;
    assert benefitsYear == (YearBase(b, year) + YearAllowances(b, year)) * b.benefitsRate;
    var rsuYear := if year in b.schedule then b.schedule[year] else 0.0;
    var esppYear := 0.0;
    if b.espp.enabled {
      var proportion := baseYear / baseAnnualSafe;
      var contributionsYear := b.espp.contributions * proportion;
      var returnsYear := b.espp.gains * proportion;
      esppYear := contributionsYear + returnsYear;
    }
    assert esppYear == YearEspp(b.espp, YearBase(b, year), b.baseAnnual);
    var totalYear := baseYear + allowancesYear + bonusYear + benefitsYear + rsuYear + esppYear;
    point := TimelinePoint(year, baseYear, allowancesYear, bonusYear, benefitsYear, rsuYear, esppYear, totalYear);
  }

  /** One more year of the older engine's multiplier: a raise counts only after year 0. */
  lemma LegacyMultiplierStep(m: map<int, real>, year: nat, multiplier: real)
    requires multiplier == LegacyMultiplier(m, year)
    ensures year > 0 && year in m ==> multiplier * (1.0 + m[year]) == LegacyMultiplier(m, year + 1)
    ensures !(year > 0 && year in m) ==> multiplier == LegacyMultiplier(m, year + 1)
  {
  }

  /** With no zero rate in the table, the benefits are the benefits rate times the annual
      base plus allowances in the preferred currency: the detour through the calculation
      currency does not change them. */
  lemma BenefitsAreShareOfPay(v: LegacyValues, preferred: Currency, rates: Rates)
    requires NonzeroRates(rates)
    ensures BenefitsAnnual(v, preferred, rates)
            == PercentOf(ConvertFieldAnnual(v.base, preferred, rates) + ConvertFieldAnnual(v.food, preferred, rates),
                         v.benefits.percentage)
  {
    var calculation := v.benefits.calculationCurrency;
    PercentOfSumConverts(ConvertFieldAnnual(v.base, calculation, rates), ConvertFieldAnnual(v.food, calculation, rates),
                         v.benefits.percentage, calculation, preferred, rates);
    AnnualComposes(v.base, calculation, preferred, rates);
    AnnualComposes(v.food, calculation, preferred, rates);
  }

  /** Converting a percentage of a sum is taking that percentage of the converted terms. */
  lemma PercentOfSumConverts(x: real, y: real, percentage: real, from: Currency, to: Currency, rates: Rates)
    ensures ConvertAmount(Finite(PercentOf(x + y, percentage)), from, to, None, rates)
            == PercentOf(ConvertAmount(Finite(x), from, to, None, rates) + ConvertAmount(Finite(y), from, to, None, rates), percentage)
  {
    PercentOfConverts(x + y, percentage, from, to, None, rates);
    ConvertAdds(x, y, from, to, None, rates);
  }

  /** Converting a percentage of an amount is taking that percentage of the converted amount. */
  lemma PercentOfConverts(x: real, percentage: real, from: Currency, to: Currency, o: Option<real>, rates: Rates)
    ensures ConvertAmount(Finite(PercentOf(x, percentage)), from, to, o, rates)
            == PercentOf(ConvertAmount(Finite(x), from, to, o, rates), percentage)
  {
    ConvertIsPivot(Finite(x), from, to, o, rates);
    ConvertIsPivot(Finite(PercentOf(x, percentage)), from, to, o, rates);
    PivotPercent(x, percentage, GetRate(from, o, rates), TableRate(to, rates));
  }

  lemma PivotPercent(x: real, percentage: real, fromRate: real, toRate: real)
    ensures Pivot(PercentOf(x, percentage), fromRate, toRate) == PercentOf(Pivot(x, fromRate, toRate), percentage)
  {
    PivotScales(RateOf(percentage), x, fromRate, toRate);
  }

  /** With no zero rate, an annual figure converted into one currency and on into
      another is the annual figure converted directly. */
  lemma AnnualComposes(field: MonetaryField, via: Currency, to: Currency, rates: Rates)
    requires NonzeroRates(rates)
    ensures ConvertAmount(Finite(ConvertFieldAnnual(field, via, rates)), via, to, None, rates)
            == ConvertFieldAnnual(field, to, rates)
  {
    ConvertComposes(Times(field.amount, 12.0), field.currency, via, to, field.overrideRate, rates);
  }

  /** With no zero rate and no ESPP override, the contributions are the contribution
      percentage of the annual base in the preferred currency, whatever the purchase
      currency. */
  lemma LegacyEsppIsShareOfBase(v: LegacyValues, preferred: Currency, rates: Rates)
    requires NonzeroRates(rates) && EsppActive(v.espp) && v.espp.overrideRate == None
    ensures LegacyEspp(v, preferred, rates).contributions
            == PercentOf(ConvertFieldAnnual(v.base, preferred, rates), v.espp.contributionPercentage.value)
  {
    var purchase := v.espp.purchaseCurrency.value;
    PercentOfConverts(ConvertFieldAnnual(v.base, purchase, rates), v.espp.contributionPercentage.value, purchase, preferred, None, rates);
    AnnualComposes(v.base, purchase, preferred, rates);
  }

  /** A year's ESPP value is the year-0 contributions plus returns times that year's
      base over the year-0 base (or over 1 when the year-0 base is 0); with a nonzero
      year-0 base, that is the year-0 value times the raise multiplier. */
  lemma EsppFollowsRaises(b: LegacyBasis, year: nat)
    requires b.espp.enabled
    ensures YearEspp(b.espp, YearBase(b, year), b.baseAnnual)
            == (b.espp.contributions + b.espp.gains) * YearBase(b, year) / SafeBase(b.baseAnnual)
    ensures b.baseAnnual != 0.0 ==>
            YearEspp(b.espp, YearBase(b, year), b.baseAnnual)
            == (b.espp.contributions + b.espp.gains) * LegacyMultiplier(b.raises, year + 1)
  {
    ScaledByProportion(b.espp.contributions, b.espp.gains, YearBase(b, year), SafeBase(b.baseAnnual));
    if b.baseAnnual != 0.0 {
      ProportionIsMultiplier(b.baseAnnual, LegacyMultiplier(b.raises, year + 1));
    }
  }

  lemma ScaledByProportion(c: real, g: real, baseYear: real, divisor: real)
    requires divisor != 0.0
    ensures c * (baseYear / divisor) + g * (baseYear / divisor) == (c + g) * baseYear / divisor
  {
  }

  lemma ProportionIsMultiplier(base: real, m: real)
    requires base != 0.0
    ensures base * m / SafeBase(base) == m
  {
  }

  /** From one year to the next, base and allowances both grow by that year's raise
      factor (a year-0 raise never applies). */
  lemma LegacyRaisesCompound(b: LegacyBasis, year: nat)
    ensures YearBase(b, year + 1) == YearBase(b, year) * Step(b.raises, year + 1)
    ensures YearAllowances(b, year + 1) == YearAllowances(b, year) * Step(b.raises, year + 1)
  {
    LegacyMultiplierNext(b.raises, year + 1);
    Regroup(b.baseAnnual, LegacyMultiplier(b.raises, year + 1), Step(b.raises, year + 1));
    Regroup(b.allowancesAnnual, LegacyMultiplier(b.raises, year + 1), Step(b.raises, year + 1));
  }

  lemma LegacyMultiplierNext(m: map<int, real>, n: nat)
    requires n > 0
    ensures LegacyMultiplier(m, n + 1) == LegacyMultiplier(m, n) * Step(m, n)
  {
  }

  /** The distribution adds up to the annual total, and the monthly total is a twelfth. */
  lemma LegacyDistributionAddsUp(b: LegacyBasis, benefitsAnnual: real)
    ensures DistributionSum(LegacyDistribution(LegacyTotals(b, benefitsAnnual))) == LegacyTotals(b, benefitsAnnual).annual
    ensures LegacyTotals(b, benefitsAnnual).monthly * 12.0 == LegacyTotals(b, benefitsAnnual).annual
  {
    FiveSlicesSum(LegacyDistribution(LegacyTotals(b, benefitsAnnual)));
  }

  /** The timeline covers at least five years, every raise offset (when raises are on)
      and every RSU tranche year, and point i is relative year i. */
  lemma LegacyTimelineCoversHorizon(v: LegacyValues, preferred: Currency, rates: Rates, currentYear: int)
    ensures var s := LegacySummaryOf(v, preferred, rates, currentYear);
            |s.timeline| >= 5
            && (v.raises.enabled ==> forall r :: r in v.raises.items ==> r.yearOffset < |s.timeline|)
            && (forall k: nat :: k in Schedule(v.rsuGrants, preferred, rates, currentYear) ==> k < |s.timeline|)
            && (forall i :: 0 <= i < |s.timeline| ==> s.timeline[i].year == i)
  {
    var b := LegacyBasisOf(v, preferred, rates, currentYear);
    if v.raises.enabled {
      forall r | r in v.raises.items ensures r.yearOffset in b.raises {
        var j :| 0 <= j < |v.raises.items| && v.raises.items[j] == r;
        RaisesMapKeys(v.raises.items, r.yearOffset);
      }
    }
  }

  /** With no zero rate, the first point of the timeline reproduces the year-0 totals:
      the detour of the benefits through the calculation currency changes nothing, and
      the ESPP value of year 0 is the contributions plus returns. */
  lemma LegacyYearZeroAgrees(v: LegacyValues, preferred: Currency, rates: Rates, currentYear: int)
    requires NonzeroRates(rates)
    ensures var b := LegacyBasisOf(v, preferred, rates, currentYear);
            var t, p := LegacyTotals(b, BenefitsAnnual(v, preferred, rates)), LegacyPointAt(b, 0);
            p.base == t.base && p.allowances == t.allowances && p.bonus == t.bonus && p.benefits == t.benefits
            && p.rsu == t.rsuAnnual && p.espp == t.espp.contributions + t.espp.gains && p.total == t.annual
  {
    var b := LegacyBasisOf(v, preferred, rates, currentYear);
    BenefitsAreShareOfPay(v, preferred, rates);
    assert b.baseAnnual + b.allowancesAnnual
        == ConvertFieldAnnual(v.base, preferred, rates) + ConvertFieldAnnual(v.food, preferred, rates);
    PercentOfCommutes(b.baseAnnual + b.allowancesAnnual, v.benefits.percentage, b.benefitsRate);
    EsppAtYearZero(v, preferred, rates);
    assert YearEspp(b.espp, b.baseAnnual, b.baseAnnual) == b.espp.contributions + b.espp.gains;
    PointZeroMatchesTotals(b, BenefitsAnnual(v, preferred, rates));
  }

  /** An amount scaled by a rate, written as the timeline writes it. */
  function Share(amount: real, rate: real): real
  {
    amount * rate
  }

  lemma PercentOfCommutes(x: real, p: real, rate: real)
    requires rate == RateOf(p)
    ensures PercentOf(x, p) == Share(x, rate)
  {
  }

  /** The first point agrees with the totals when the benefits are the benefits rate of
      base plus allowances and the year-0 ESPP value is contributions plus returns. */
  lemma PointZeroMatchesTotals(b: LegacyBasis, benefitsAnnual: real)
    requires benefitsAnnual == Share(b.baseAnnual + b.allowancesAnnual, b.benefitsRate)
    requires YearEspp(b.espp, b.baseAnnual, b.baseAnnual) == b.espp.contributions + b.espp.gains
    ensures var t, p := LegacyTotals(b, benefitsAnnual), LegacyPointAt(b, 0);
            p.base == t.base && p.allowances == t.allowances && p.bonus == t.bonus && p.benefits == t.benefits
            && p.rsu == t.rsuAnnual && p.espp == t.espp.contributions + t.espp.gains && p.total == t.annual
  {
    YearZeroIgnoresRaises(b.raises);
    assert YearBase(b, 0) == b.baseAnnual;
    assert YearAllowances(b, 0) == b.allowancesAnnual;
  }

  /** With no zero rate, the ESPP value of year 0 is the contributions plus returns, also
      when the base is 0 (then there is nothing to contribute). */
  lemma EsppAtYearZero(v: LegacyValues, preferred: Currency, rates: Rates)
    requires NonzeroRates(rates)
    ensures var e, base := LegacyEspp(v, preferred, rates), ConvertFieldAnnual(v.base, preferred, rates);
            YearEspp(e, base, base) == e.contributions + e.gains
  {
    if EsppActive(v.espp) && ConvertFieldAnnual(v.base, preferred, rates) == 0.0 {
      EsppVanishesWithBase(v, preferred, rates);
    }
    YearEsppAtBase(LegacyEspp(v, preferred, rates), ConvertFieldAnnual(v.base, preferred, rates));
  }

  /** At the base itself the proportion is whole. */
  lemma YearEsppAtBase(e: EsppSummary, base: real)
    requires (e.enabled && base != 0.0) || (e.contributions == 0.0 && e.gains == 0.0)
    ensures YearEspp(e, base, base) == e.contributions + e.gains
  {
  }

  /** With no zero rate, a zero base leaves nothing to contribute and nothing to return. */
  lemma EsppVanishesWithBase(v: LegacyValues, preferred: Currency, rates: Rates)
    requires NonzeroRates(rates) && EsppActive(v.espp)
    requires ConvertFieldAnnual(v.base, preferred, rates) == 0.0
    ensures LegacyEspp(v, preferred, rates).contributions == 0.0
    ensures LegacyEspp(v, preferred, rates).gains == 0.0
  {
    var purchase := v.espp.purchaseCurrency.value;
    var yearly := Times(v.base.amount, 12.0);
    ConvertZeroOnlyFromZero(yearly, v.base.currency, preferred, v.base.overrideRate, rates);
    ZeroConvertsToZero(yearly, v.base.currency, purchase, v.base.overrideRate, rates);
    assert ContributionsInPurchase(v.base, purchase, v.espp.contributionPercentage.value, rates) == 0.0;
    ZeroConvertsToZero(Finite(0.0), purchase, preferred, v.espp.overrideRate, rates);
  }

  /** Zero, or NaN, converts to zero. */
  lemma ZeroConvertsToZero(x: Number, from: Currency, to: Currency, o: Option<real>, rates: Rates)
    requires x.NaN? || x.value == 0.0
    ensures ConvertAmount(x, from, to, o, rates) == 0.0
  {
    ConvertIsPivot(x, from, to, o, rates);
  }

  /** The raises of year 0 never matter to the older engine. */
  lemma YearZeroIgnoresRaises(m: map<int, real>)
    ensures LegacyMultiplier(m, 1) == 1.0
  {
  }
}
