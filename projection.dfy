/** buildCompensationSummary of the newer engine: the year-0 totals and distribution,
    and a year-by-year timeline in which raises compound into a salary multiplier and
    ESPP contributions are deducted from base pay and paid back, with their return,
    as a separate component. */
module Projection {
  import opened Money
  import opened Conversion
  import opened Rsu
  import opened Espp
  import opened Raises
  import opened Horizon
  import opened Summary

  /** The form values the newer engine reads. */
  datatype CompensationValues = CompensationValues(
    base: MonetaryField,
    food: MonetaryField,
    bonusPercentage: real,
    rsuGrants: seq<RsuGrant>,
    esppPlans: seq<EsppPlan>,
    raises: seq<Raise>)

  /** What steps 1 and 2 of the computation derive before any year is projected: the
      annual base and food allowance in the preferred currency, the bonus rate, the
      RSU schedule and the raises map, plus the inputs the yearly ESPP step needs. */
  datatype Basis = Basis(
    baseAnnualRaw: real,
    foodAnnual: real,
    bonusRate: real,
    schedule: map<nat, real>,
    raises: map<int, real>,
    plans: seq<EsppPlan>,
    preferred: Currency,
    rates: Rates,
    currentYear: int)

  function BasisOf(v: CompensationValues, preferred: Currency, rates: Rates, currentYear: int): Basis
  {
    Basis(ConvertFieldAnnual(v.base, preferred, rates), ConvertFieldAnnual(v.food, preferred, rates),
          v.bonusPercentage / 100.0, Schedule(v.rsuGrants, preferred, rates, currentYear),
          RaisesMap(v.raises), v.esppPlans, preferred, rates, currentYear)
  }

  /** The raised base salary of relative year `year`, before the ESPP deduction. */
  function GrossBase(b: Basis, year: nat): real
  {
    b.baseAnnualRaw * Multiplier(b.raises, year + 1)
  }

  /** The ESPP contributions and returns of relative year `year`. */
  function EsppOfYear(b: Basis, year: nat): EsppAmounts
  {
    EsppTotals(b.plans, GrossBase(b, year), b.currentYear + year, b.preferred, b.rates)
  }

  /** A point of the timeline from its ingredients: the ESPP contributions come out of
      the base, and contributions plus returns form the ESPP component. */
  function Point(year: int, grossBase: real, bonusRate: real, food: real, rsu: real, e: EsppAmounts): TimelinePoint
  {
    var base := grossBase - e.contributions;
    var bonus := grossBase * bonusRate;
    var espp := e.contributions + e.gains;
    TimelinePoint(year, base, food, bonus, food, rsu, espp, base + bonus + food + rsu + espp)
  }

  /** The timeline point of relative year `year`. */
  function PointAt(b: Basis, year: nat): TimelinePoint
  {
    Point(year, GrossBase(b, year), b.bonusRate, b.foodAnnual, ScheduleAt(b.schedule, year), EsppOfYear(b, year))
  }

  /** The first n points of the timeline. */
  function Timeline(b: Basis, n: nat): (t: seq<TimelinePoint>)
    ensures |t| == n
    ensures forall i :: 0 <= i < n ==> t[i].year == i
  {
    seq(n, i requires 0 <= i < n => PointAt(b, i))
  }

  /** The number of projected years. */
  function YearsOf(b: Basis): int
  {
    ProjectionYears(b.schedule.Keys, b.raises.Keys)
  }

  /** The year-0 base: the converted base times the year-0 raise factor. */
  function YearZeroBase(b: Basis): real
  {
    b.baseAnnualRaw * Step(b.raises, 0)
  }

  /** The year-0 totals: the figures of a timeline point for the base raised by a
      year-0 raise, if any, with ESPP marked enabled when it contributes. */
  function Totals(b: Basis): TotalsSummary
  {
    var baseAnnual := YearZeroBase(b);
    var e := EsppTotals(b.plans, baseAnnual, b.currentYear, b.preferred, b.rates);
    var p := Point(0, baseAnnual, b.bonusRate, b.foodAnnual, ScheduleAt(b.schedule, 0), e);
    TotalsSummary(p.total, p.total / 12.0, p.base, b.foodAnnual, p.bonus, p.benefits, p.rsu,
                  EsppSummary(e.contributions > 0.0, e.contributions, e.gains))
  }

  /** The year-0 distribution, in its fixed order. */
  function Distribution(t: TotalsSummary): (d: seq<DistributionItem>)
    ensures Labels(d) == ["Base Salary", "Bonus", "Benefits", "RSUs", "ESPP"]
  {
    [DistributionItem("Base Salary", t.base), DistributionItem("Bonus", t.bonus),
     DistributionItem("Benefits", t.benefits), DistributionItem("RSUs", t.rsuAnnual),
     DistributionItem("ESPP", t.espp.contributions + t.espp.gains)]
  }

  /** The summary buildCompensationSummary returns. */
  function SummaryOf(v: CompensationValues, preferred: Currency, rates: Rates, currentYear: int): CompensationSummary
  {
    var b := BasisOf(v, preferred, rates, currentYear);
    var n := YearsOf(b);
    CompensationSummary(preferred, Totals(b), Distribution(Totals(b)), Timeline(b, n), Breakdown(v.rsuGrants, preferred, rates))
  }

  /** Step 7: the timeline loop. The cumulative multiplier takes each year's raise,
      year 0 included, before that year's figures are computed. */
  method BuildTimeline(b: Basis, projectionYears: nat) returns (timeline: seq<TimelinePoint>)
    ensures timeline == Timeline(b, projectionYears)
  {
    timeline := [];
    var cumulativeMultiplier := 1.0;
    for year := 0 to projectionYears
      invariant cumulativeMultiplier == Multiplier(b.raises, year)
      invariant |timeline| == year
      invariant forall i :: 0 <= i < year ==> timeline[i] == PointAt(b, i)
    {
      MultiplierStep(b.raises, year, cumulativeMultiplier);
      if year in b.raises {
        cumulativeMultiplier := cumulativeMultiplier * (1.0 + b.raises[year]);
      }
      var point := ProjectYear(b, year, cumulativeMultiplier);
      timeline := timeline + [point];
    }
  }

  /** The body of the timeline loop once the year's raise is in the multiplier: the
      year's base, bonus, benefits, RSU value and ESPP figures, and their total. */
  method ProjectYear(b: Basis, year: nat, cumulativeMultiplier: real) returns (point: TimelinePoint)
    requires cumulativeMultiplier == Multiplier(b.raises, year + 1)
    ensures point == PointAt(b, year)
  {
    var baseYear := b.baseAnnualRaw * cumulativeMultiplier;
    assert baseYear == GrossBase(b, year);
    var rsuYear := if year in b.schedule then b.schedule[year] else 0.0;
    assert rsuYear == ScheduleAt(b.schedule, year);
    var esppContributionsYear, esppReturnsYear := AccumulateEspp(b.plans, baseYear, b.currentYear + year, b.preferred, b.rates);
    assert EsppAmounts(esppContributionsYear, esppReturnsYear) == EsppOfYear(b, year);
    point := AssemblePoint(year, baseYear, b.bonusRate, b.foodAnnual, rsuYear, esppContributionsYear, esppReturnsYear);
  }

  /** The end of the timeline loop body: the bonus on the raised base, the ESPP
      contributions deducted from the base and added back with their returns as the ESPP
      component, and the total of the five components. */
  method AssemblePoint(year: nat, baseYear: real, bonusRate: real, food: real, rsuYear: real, esppContributionsYear: real, esppReturnsYear: real)
    returns (point: TimelinePoint)
    ensures point == Point(year, baseYear, bonusRate, food, rsuYear, EsppAmounts(esppContributionsYear, esppReturnsYear))
    ensures point.total == point.base + point.bonus + point.benefits + point.rsu + point.espp
    ensures point.base + point.espp == baseYear + esppReturnsYear
  {
    var bonusYear := baseYear * bonusRate;
    var benefitsYear := food;
    var baseYearAfterEspp := baseYear - esppContributionsYear;
    var esppTotalYear := esppContributionsYear + esppReturnsYear;
    var totalYear := baseYearAfterEspp + bonusYear + benefitsYear + rsuYear + esppTotalYear;
    point := TimelinePoint(year, baseYearAfterEspp, food, bonusYear, benefitsYear, rsuYear, esppTotalYear, totalYear);
  }

  /** buildCompensationSummary. */
  method BuildCompensationSummary(v: CompensationValues, preferred: Currency, rates: Rates, currentYear: int)
    returns (summary: CompensationSummary)
    ensures summary == SummaryOf(v, preferred, rates, currentYear)
  {
    // Steps 1 and 2: conversions, the RSU schedule and the raises map.
    var baseAnnualRaw := ConvertFieldAnnual(v.base, preferred, rates);
    var foodAllowanceAnnual := ConvertFieldAnnual(v.food, preferred, rates);
    var rsuSchedule, breakdown := GetRsuSchedule(v.rsuGrants, preferred, rates, currentYear);
    var raisesMap := BuildRaisesMap(v.raises);
    var bonusRate := v.bonusPercentage / 100.0;
    var b := Basis(baseAnnualRaw, foodAllowanceAnnual, bonusRate, rsuSchedule, raisesMap, v.esppPlans, preferred, rates, currentYear);
    assert b == BasisOf(v, preferred, rates, currentYear);

    // Steps 3 to 6: year 0.
    var totals := YearZero(b);
    var distribution := [DistributionItem("Base Salary", totals.base), DistributionItem("Bonus", totals.bonus),
                         DistributionItem("Benefits", totals.benefits), DistributionItem("RSUs", totals.rsuAnnual),
                         DistributionItem("ESPP", totals.espp.contributions + totals.espp.gains)];
    assert distribution == Distribution(totals);

    // Step 7: the timeline.
    var projectionYears := ProjectionYears(rsuSchedule.Keys, raisesMap.Keys);
    assert projectionYears == YearsOf(b);
    var timeline := BuildTimeline(b, projectionYears);

    summary := CompensationSummary(preferred, totals, distribution, timeline, breakdown);
  }

  /** Steps 3 to 5: the year-0 multiplier, base, bonus, benefits, RSU value and ESPP
      figures, and their annual and monthly totals. */
  method YearZero(b: Basis) returns (totals: TotalsSummary)
    ensures totals == Totals(b)
  {
    var year0Multiplier := if 0 in b.raises then 1.0 + b.raises[0] else 1.0;
    assert year0Multiplier == Step(b.raises, 0);
    var baseAnnual := b.baseAnnualRaw * year0Multiplier;
    assert baseAnnual == YearZeroBase(b);
    var bonusAnnual := baseAnnual * b.bonusRate;
    assert bonusAnnual == YearZeroBase(b) * b.bonusRate;
    var benefitsAnnual := b.foodAnnual;
    var rsuAnnual := if 0 in b.schedule then b.schedule[0] else 0.0;
    assert rsuAnnual == ScheduleAt(b.schedule, 0);
    var esppAnnualContributions, esppAnnualReturns := AccumulateEspp(b.plans, baseAnnual, b.currentYear, b.preferred, b.rates);
    assert EsppAmounts(esppAnnualContributions, esppAnnualReturns)
        == EsppTotals(b.plans, YearZeroBase(b), b.currentYear, b.preferred, b.rates);
    var espp := EsppSummary(esppAnnualContributions > 0.0, esppAnnualContributions, esppAnnualReturns);
    var baseAfterEspp := baseAnnual - espp.contributions;
    var esppTotal := espp.contributions + espp.gains;
    var annualTotal := baseAfterEspp + bonusAnnual + benefitsAnnual + rsuAnnual + esppTotal;
    var monthlyTotal := annualTotal / 12.0;
    totals := TotalsSummary(annualTotal, monthlyTotal, baseAfterEspp, b.foodAnnual, bonusAnnual, benefitsAnnual, rsuAnnual, espp);
    ghost var p := Point(0, baseAnnual, b.bonusRate, b.foodAnnual, rsuAnnual, EsppAmounts(esppAnnualContributions, esppAnnualReturns));
    assert annualTotal == p.total && baseAfterEspp == p.base && bonusAnnual == p.bonus;
  }

  /** The timeline covers at least five years, every raise offset and every RSU
      tranche year, and point i is relative year i. */
  lemma TimelineCoversHorizon(v: CompensationValues, preferred: Currency, rates: Rates, currentYear: int)
    ensures var s := SummaryOf(v, preferred, rates, currentYear);
            |s.timeline| >= 5
            && (forall r :: r in v.raises ==> r.yearOffset < |s.timeline|)
            && (forall k: nat :: k in Schedule(v.rsuGrants, preferred, rates, currentYear) ==> k < |s.timeline|)
            && (forall i :: 0 <= i < |s.timeline| ==> s.timeline[i].year == i)
  {
    var b := BasisOf(v, preferred, rates, currentYear);
    forall r | r in v.raises ensures r.yearOffset in b.raises {
      var j :| 0 <= j < |v.raises| && v.raises[j] == r;
      RaisesMapKeys(v.raises, r.yearOffset);
    }
  }

  /** ESPP contributions leave a year's total unchanged: the total is the raised base
      plus bonus, benefits, RSUs and the ESPP return alone. */
  lemma ContributionsCancelInTotal(b: Basis, year: nat)
    ensures PointAt(b, year).total
            == GrossBase(b, year) + PointAt(b, year).bonus + b.foodAnnual + ScheduleAt(b.schedule, year) + EsppOfYear(b, year).gains
  {
  }

  /** The base of a year is the raised salary less every plan's share of it. */
  lemma BaseLosesSalaryShares(b: Basis, year: nat)
    requires NonzeroRates(b.rates)
    ensures PointAt(b, year).base
            == GrossBase(b, year) - Sum(SalaryShares(b.plans, GrossBase(b, year), b.currentYear + year, b.rates))
  {
    EsppTotalsAreShareOfSalary(b.plans, GrossBase(b, year), b.currentYear + year, b.preferred, b.rates);
  }

  /** When no plan has a positive override, every year's ESPP totals, and so every point
      of the timeline, are those of the newer engine as written. */
  lemma EsppOfYearAgreesWithoutOverride(b: Basis, year: nat)
    requires forall i :: 0 <= i < |b.plans| ==> !HasPositiveOverride(b.plans[i])
    ensures EsppOfYear(b, year)
            == EsppTotalsAsWritten(b.plans, GrossBase(b, year), b.currentYear + year, b.preferred, b.rates)
  {
    TotalsAgreeWithoutOverride(b.plans, GrossBase(b, year), b.currentYear + year, b.preferred, b.rates);
  }

  /** From one year to the next the raised base changes only by that year's raise. */
  lemma GrossBaseCompounds(b: Basis, year: nat)
    ensures year + 1 !in b.raises ==> GrossBase(b, year + 1) == GrossBase(b, year)
    ensures year + 1 in b.raises ==> GrossBase(b, year + 1) == GrossBase(b, year) * (1.0 + b.raises[year + 1])
  {
    var m := Multiplier(b.raises, year + 1);
    if year + 1 in b.raises {
      Regroup(b.baseAnnualRaw, m, 1.0 + b.raises[year + 1]);
    }
  }

  /** One more year of raises: the multiplier times that year's factor. */
  lemma MultiplierStep(m: map<int, real>, year: nat, multiplier: real)
    requires multiplier == Multiplier(m, year)
    ensures year in m ==> multiplier * (1.0 + m[year]) == Multiplier(m, year + 1)
    ensures year !in m ==> multiplier == Multiplier(m, year + 1)
  {
  }

  /** The year-0 totals are the first point of the timeline. */
  lemma TotalsAreYearZero(b: Basis)
    ensures var t, p := Totals(b), PointAt(b, 0);
            t.annual == p.total && t.base == p.base && t.bonus == p.bonus && t.benefits == p.benefits
            && t.rsuAnnual == p.rsu && t.espp.contributions + t.espp.gains == p.espp
  {
    YearZeroGrossBase(b);
  }

  /** The raised base of year 0 is the base times the year-0 raise factor. */
  lemma YearZeroGrossBase(b: Basis)
    ensures GrossBase(b, 0) == YearZeroBase(b)
    ensures EsppOfYear(b, 0) == EsppTotals(b.plans, YearZeroBase(b), b.currentYear, b.preferred, b.rates)
  {
    assert Multiplier(b.raises, 1) == Step(b.raises, 0);
  }

  /** The distribution adds up to the annual total, and the monthly total is a twelfth. */
  lemma DistributionAddsUp(b: Basis)
    ensures DistributionSum(Distribution(Totals(b))) == Totals(b).annual
    ensures Totals(b).monthly * 12.0 == Totals(b).annual
  {
    FiveSlicesSum(Distribution(Totals(b)));
  }
}
