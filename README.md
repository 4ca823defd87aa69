# Total compensation projection engine, in Dafny

This project models the engine of a total-compensation calculator. The engine takes:

- a monthly base salary and food allowance, each in its own currency;
- a bonus percentage;
- RSU grants that vest evenly over a number of years;
- ESPP purchase plans;
- scheduled raises.

It turns them into:

- the year-0 totals in one preferred currency;
- a five-slice distribution of those totals;
- a year-by-year timeline;
- a breakdown of the RSU grants.

The repository holds two versions of the engine, and both are modelled:

- **The newer engine** is `src/features/compensation/lib/utils.ts`. ESPP is a list of dated plans, prorated by the months each plan spends in a calendar year. A year's ESPP contributions are deducted from that year's base and added back, with their return, as a separate ESPP component. A raise at offset 0 applies to year 0.
- **The older engine** is `src/app/_components/compensation/utils.ts`. Benefits are a percentage of base plus allowances, computed in a separate calculation currency. ESPP is one on/off configuration valued on the year-0 base and scaled in later years by the ratio of the year's base to the year-0 base. Raises sit behind an on/off switch and apply from year 1 on, to the allowances as well.

The two aggregation formulas are kept apart: `Projection` models the newer one and `LegacyProjection` the older one. The two files also define `getRate`, `convertAmount`, `convertField`, `convertFieldAnnual`, `getRsuSchedule` and `getProjectionYears`. Apart from line breaks, these are the same code in both files (newer file lines 57-173, older file lines 57-170), so both engines use one copy of each: modules `Conversion`, `Rsu` and `Horizon`.

Modules, one per component, in dependency order:

- `Money`: currencies, the rate table, JavaScript numbers (finite or NaN) and monetary fields.
- `Conversion`: the USD-pivot conversion with overrides, and the monthly-to-annual conversion.
- `Rsu`: the vesting scheduler. `GetRsuSchedule` is proved equal to the specification `Schedule` / `Breakdown`.
- `Espp`: the month overlap of a plan with a calendar year, and the per-plan step of the newer engine's ESPP loop.
- `Raises`: both `buildRaisesMap` versions and the two cumulative multipliers.
- `Horizon`: `getProjectionYears`.
- `Summary`: the output records.
- `Projection`: the newer `buildCompensationSummary`.
- `LegacyProjection`: the older `buildCompensationSummary`.

Numbers are `real`. The current year and parsed dates are parameters.

Every loop of the source is a Dafny method with a `for` or `while` loop. Each such method is proved equal to a specification function, and the properties are proved about that function:

- the raises-map loops;
- the RSU loops;
- the ESPP accumulation loop;
- both timeline loops.

`BuildLegacyCompensationSummary` follows the source's blocks in order, some of them as calls to specification functions: the benefits block is `BenefitsAnnual`, the ESPP block is `LegacyEspp`, and the year-0 bonus is computed in `LegacyYearZero`, after the RSU schedule. It is proved to return `LegacySummaryOf`. `BuildCompensationSummary` follows the source's blocks in the same way, except for the ESPP conversion of the salary into a plan's purchase currency. There it uses the corrected step of the "## Findings" row: the salary goes in at the table's rates, and the override applies only to the contribution's way back. It is proved to return `SummaryOf`. The two steps agree for every plan without a positive override (`Espp.AgreesWithoutOverride`), and then the whole year agrees with the source (`Projection.EsppOfYearAgreesWithoutOverride`).

## Model

| member | source | states |
|---|---|---|
| Conversion.GetRate | src/features/compensation/lib/utils.ts:57-66 | a positive override wins, so a rate that is not positive can only be the table's own entry for the currency |
| Conversion.ConvertIsPivot | src/features/compensation/lib/utils.ts:68-92 | NaN converts to 0; every finite conversion, including the same-currency fast path, equals the pivot `amount / fromRate * toRate` with the (possibly overridden) source rate and the target's table rate (1 if absent) |
| Conversion.ZeroRateLeavesAmount | src/features/compensation/lib/utils.ts:83-88 | a zero source or target rate leaves the amount unchanged |
| Conversion.SameCurrencyIsIdentity | src/features/compensation/lib/utils.ts:79-81 | converting a currency into itself without a positive override is the identity, even when a non-positive override takes the amount off the fast path |
| Conversion.OverrideIgnoresTable | src/app/_components/compensation/utils.ts:57-66 | with a positive override, the result does not depend on the table's rate for the source currency |
| Conversion.PivotSame | src/features/compensation/lib/utils.ts:90-91 | pivoting between equal rates is the identity |
| Conversion.PivotScales | src/features/compensation/lib/utils.ts:90-91 | the pivot is linear in the amount |
| Conversion.PivotAdds | src/features/compensation/lib/utils.ts:90-91 | the pivot distributes over a sum |
| Conversion.PivotCancels | src/features/compensation/lib/utils.ts:90-91 | pivoting a→b then b→c equals pivoting a→c when no rate is 0 |
| Conversion.PivotZeroOnlyFromZero | src/features/compensation/lib/utils.ts:86-91 | with nonzero rates, only 0 pivots to 0 |
| Conversion.ConvertScales | src/features/compensation/lib/utils.ts:68-92 | conversion is linear in the amount |
| Conversion.ConvertAdds | src/features/compensation/lib/utils.ts:68-92 | conversion distributes over a sum |
| Conversion.NonzeroRatesGiveNonzeroRate | src/features/compensation/lib/utils.ts:57-66 | with no zero rate in the table, every rate a conversion uses is nonzero |
| Conversion.ConvertComposes | src/app/_components/compensation/utils.ts:68-92 | with no zero rate, converting via an intermediate currency (no override on the second leg) equals converting directly |
| Conversion.ConvertRoundTrip | src/features/compensation/lib/utils.ts:68-92 | with no zero rate, converting there and back is the identity |
| Conversion.ConvertZeroOnlyFromZero | src/features/compensation/lib/utils.ts:68-92 | with no zero rate, a conversion yields 0 only from 0 or NaN |
| Conversion.AnnualIsTwelveMonths | src/features/compensation/lib/utils.ts:94-111 | the annual conversion (the field with twelve times its amount) is twelve times the monthly conversion, for every currency pair and override |
| Rsu.Vestings | src/features/compensation/lib/utils.ts:123-134 | one vesting per grant, in input order |
| Rsu.YearRange | src/features/compensation/lib/utils.ts:136-139 | exactly the years `start .. start+n-1` |
| Rsu.ScheduleKeys | src/features/compensation/lib/utils.ts:136-139 | exactly the relative years in which some grant vests |
| Rsu.AnyVestsSplit | src/features/compensation/lib/utils.ts:123-140 | some vesting of `vs + [v]` pays in year k iff some vesting of vs does or v does |
| Rsu.ScheduleOf | src/features/compensation/lib/utils.ts:120-145 | the schedule's keys are exactly the years in which some grant vests, each mapped to the sum of the tranches vesting in it |
| Rsu.Breakdown | src/features/compensation/lib/utils.ts:141-145 | one breakdown item per grant |
| Rsu.AddTranches | src/features/compensation/lib/utils.ts:136-139 | the new schedule has the old keys plus the window `startOffset .. startOffset+vestingYears-1`, and each year of the window gains one tranche |
| Rsu.GetRsuSchedule | src/features/compensation/lib/utils.ts:113-149 | the loops build exactly `Schedule(grants)` and `Breakdown(grants)` |
| Rsu.VestingAt | src/features/compensation/lib/utils.ts:124-134 | grant i's vesting starts at `max(0, startYear - currentYear)` (offset 0 for an unparsable date) and pays `totalConverted / max(vestingYears, 1)` |
| Rsu.ScheduleIsDetermined | src/features/compensation/lib/utils.ts:120-145 | a map with the schedule's keys and values is the schedule |
| Rsu.BreakdownGrows | src/features/compensation/lib/utils.ts:141-145 | each grant appends its item (name, tranche, converted total) in input order |
| Rsu.AddVestingKeepsSchedule | src/features/compensation/lib/utils.ts:123-140 | one outer-loop step keeps the schedule right for the longer prefix of grants |
| Rsu.UnvestedYearIsZero | src/features/compensation/lib/utils.ts:120-139 | a year no grant vests in sums to 0, consistent with a missing key |
| Rsu.TrancheSumCountsWindowYears | src/features/compensation/lib/utils.ts:136-139 | over any run of years, a grant pays its tranche once per year of the run that lies in its window |
| Rsu.GrantVestsItsTotal | src/features/compensation/lib/utils.ts:129-139 | a grant with at least one vesting year pays out exactly its converted total over any run of years covering its window |
| Rsu.FourYearGrantScenario | src/features/compensation/lib/utils.ts:113-149 | 50000 USD over four years from this year gives 12500 in each of years 0-3 and nothing in year 4 |
| Espp.NormalizeKeepsIndex | src/features/compensation/lib/utils.ts:191-192 | carrying surplus months into the year keeps the month count |
| Espp.EndOfIsDurationLater | src/features/compensation/lib/utils.ts:191-194 | a plan's end lies `durationMonths` months after its start |
| Espp.MonthsInYear | src/features/compensation/lib/utils.ts:177-222 | 0 for an unparsable date and for a year before the start year or after the end year |
| Espp.MonthsInYearBounded | src/features/compensation/lib/utils.ts:177-222 | a plan of non-negative length puts between 0 and 12 months in any year |
| Espp.MonthsAddUpToDuration | src/features/compensation/lib/utils.ts:177-222 | summed over any run of years covering the plan, the months per year add up to `durationMonths` |
| Espp.MonthsAfterStartYear | src/features/compensation/lib/utils.ts:212-219 | the years after the start year hold 12 months each, except the end year, which holds `endMonth` |
| Espp.MonthsOutsidePlan | src/features/compensation/lib/utils.ts:197-199 | years outside the plan contribute no months |
| Espp.MonthsOverSplit | src/features/compensation/lib/utils.ts:177-222 | splitting a run of years splits its sum of months |
| Espp.SixMonthPlanScenario | src/features/compensation/lib/utils.ts:202-210 | a six-month plan from April lies wholly in its start year; one from November gives 2 months then 4 |
| Espp.PlanYearAsWrittenMisconverts | src/features/compensation/lib/utils.ts:402-425 | as written, an ILS plan with override 3.65 (the table's own ILS rate), USD preferred, 10 % of 120000 over 12 months contributes 120000/3.65*0.1, not 12000 |
| Espp.AgreesWithoutOverride | src/features/compensation/lib/utils.ts:397-427 | for a plan with no positive override, the corrected per-plan step equals the step as written |
| Espp.PlanYearCorrectedScenario | src/features/compensation/lib/utils.ts:397-427 | on the input that shows the misconversion, the corrected step contributes 12000; an override of 3.5 instead of the table's 3.65 gives 12000 × 3.65 / 3.5 |
| Espp.TotalsAgreeWithoutOverride | src/features/compensation/lib/utils.ts:385-432 | when no plan has a positive override, the year's ESPP totals equal those of the loop as written |
| Espp.PurchaseContributionIsShare | src/features/compensation/lib/utils.ts:414-417 | a twelfth of the converted salary per month at the contribution rate is the plan's share of that salary |
| Espp.ConvertedShare | src/features/compensation/lib/utils.ts:414-425 | converting the plan's share of an amount equals taking that share of the converted amount |
| Espp.BackLegScales | src/features/compensation/lib/utils.ts:419-425 | with no zero rate, an amount taken into another currency at table rates and brought back with an override comes back times that currency's table rate over the override, and unchanged without a positive override |
| Espp.ContributionIsShareOfSalaryBack | src/features/compensation/lib/utils.ts:402-425 | an active plan's contribution is `contributionPercentage/100 × months/12` of the salary brought back through the purchase currency |
| Espp.SalaryComesBackScaled | src/features/compensation/lib/utils.ts:402-425 | with no zero rate, the salary brought back through the purchase currency is the salary times the purchase currency's table rate over the plan's positive override, and the salary itself without one |
| Espp.ContributionIsShareOfSalary | src/features/compensation/lib/utils.ts:402-425 | with no zero rate, an active plan contributes `contributionPercentage/100 × months/12` of the year's salary valued by its override (× table rate / override when the override is positive), whatever the currencies |
| Espp.PlanShareIsShareOfSalary | src/features/compensation/lib/utils.ts:397-427 | the same for any number of months, inactive plans included (0 months contribute 0) |
| Espp.PlanYearIsShareOfSalary | src/features/compensation/lib/utils.ts:390-427 | in each calendar year a plan contributes its share of that year's salary for its months in that year, valued by its override |
| Espp.PlanYears | src/features/compensation/lib/utils.ts:390 | one entry per plan |
| Espp.SalaryShares | src/features/compensation/lib/utils.ts:390 | one share per plan, each valued by that plan's override |
| Espp.SumOfContributions | src/features/compensation/lib/utils.ts:429-430 | the accumulated contributions are the sum of the per-plan values |
| Espp.EsppTotalsAreShareOfSalary | src/features/compensation/lib/utils.ts:385-432 | with no zero rate, a year's total contributions are the sum of every plan's share of that year's salary, each valued by its override |
| Espp.PlanYearsAreShares | src/features/compensation/lib/utils.ts:390-427 | plan by plan, each contribution is that plan's share of the salary |
| Espp.PlanYearIsShareAt | src/features/compensation/lib/utils.ts:390-427 | the same for plan i |
| Espp.EsppTotalsAppend | src/features/compensation/lib/utils.ts:429-430 | one more plan adds its contribution and its return to the totals |
| Espp.AccumulateEspp | src/features/compensation/lib/utils.ts:385-432 | the per-plan loop (skipping inactive plans) yields the totals of all plans' contributions and returns |
| Raises.BuildRaisesMap | src/features/compensation/lib/utils.ts:151-161 | the loop builds `RaisesMap(raises)` |
| Raises.BuildLegacyRaisesMap | src/app/_components/compensation/utils.ts:144-156 | the map is empty when raises are switched off, and `RaisesMap(items)` otherwise |
| Raises.RaisesMapKeys | src/features/compensation/lib/utils.ts:155-157 | the map's keys are exactly the offsets of the raises |
| Raises.LastRaiseWins | src/features/compensation/lib/utils.ts:155-157 | for a duplicated offset, the last raise's `percentage/100` is the one kept |
| Raises.NoRaiseNoChange | src/features/compensation/lib/utils.ts:370-372 | a year without a raise leaves the multiplier unchanged |
| Raises.RaiseCompounds | src/features/compensation/lib/utils.ts:370-372 | a year with a raise multiplies the multiplier by `1 + rate` |
| Raises.NoRaisesKeepOne | src/features/compensation/lib/utils.ts:366-372 | with no raises the multiplier stays 1 |
| Raises.MultiplierGrows | src/features/compensation/lib/utils.ts:366-372 | with no negative raise, the multiplier is at least 1 and never falls |
| Raises.LegacyIgnoresYearZero | src/app/_components/compensation/utils.ts:287-292 | the older multiplier is the newer one over the map with year 0 removed |
| Raises.StepWithoutYearZero | src/app/_components/compensation/utils.ts:291-293 | removing year 0 from the map changes only year 0's factor, to 1 |
| Horizon.MaxOf | src/features/compensation/lib/utils.ts:167-170 | the result is an element of the set and at least every element |
| Horizon.MaxExists | src/features/compensation/lib/utils.ts:167-170 | a non-empty finite set of integers has a largest element |
| Horizon.ProjectionYears | src/features/compensation/lib/utils.ts:163-173 | the horizon is at least 5, beyond every raise offset and schedule key, and is 5 or one past such an offset or key |
| Horizon.ProjectionYearsIsLeast | src/app/_components/compensation/utils.ts:158-170 | the horizon is the least such length: `max(5, maxRaise+1, maxRsuKey+1)` |
| Horizon.DefaultHorizon | src/features/compensation/lib/utils.ts:163-173 | with no raises and no RSUs the horizon is 5 years |
| Summary.FiveSlicesSum | src/features/compensation/lib/utils.ts:353-359 | a five-slice distribution sums to its five values |
| Summary.Labels | src/features/compensation/lib/utils.ts:353-359 | one label per slice |
| Projection.Timeline | src/features/compensation/lib/utils.ts:364-456 | exactly n points, point i being relative year i |
| Projection.Distribution | src/features/compensation/lib/utils.ts:353-359 | the slices are "Base Salary", "Bonus", "Benefits", "RSUs", "ESPP", in that order |
| Projection.EsppOfYearAgreesWithoutOverride | src/features/compensation/lib/utils.ts:375-432 | when no plan has a positive override, every timeline year's ESPP totals are those of the source as written |
| Projection.BuildTimeline | src/features/compensation/lib/utils.ts:364-456 | the loop builds `Timeline(b, projectionYears)`; its invariant keeps the multiplier equal to the product of the raise factors of the years so far, year 0 included |
| Projection.ProjectYear | src/features/compensation/lib/utils.ts:375-455 | one loop body builds the point `PointAt(b, year)`: the raised base, the RSU value with 0 for a year without vesting, and the ESPP totals, assembled by `AssemblePoint` |
| Projection.AssemblePoint | src/features/compensation/lib/utils.ts:433-455 | the point of the loop body's arithmetic: its total is the sum of its five components, and the deducted contributions come back in the ESPP component (base + ESPP = raised base + returns) |
| Projection.YearZero | src/features/compensation/lib/utils.ts:256-348 | steps 3 to 5 build `Totals(b)` |
| Projection.BuildCompensationSummary | src/features/compensation/lib/utils.ts:224-474 | the whole computation returns `SummaryOf(values)` |
| Projection.TimelineCoversHorizon | src/features/compensation/lib/utils.ts:364-368 | the timeline has at least 5 points, reaches past every raise offset and RSU year, and point i is year i |
| Projection.ContributionsCancelInTotal | src/features/compensation/lib/utils.ts:435-444 | a year's total is the raised base + bonus + benefits + RSU + ESPP return: the deducted contributions come back in the ESPP component |
| Projection.BaseLosesSalaryShares | src/features/compensation/lib/utils.ts:375-435 | with no zero rate, a year's base is the raised salary less every plan's share of it, each share valued by the plan's override |
| Projection.GrossBaseCompounds | src/features/compensation/lib/utils.ts:368-375 | from one year to the next the raised base changes only by the next year's raise factor |
| Projection.MultiplierStep | src/features/compensation/lib/utils.ts:370-372 | the loop's update turns the multiplier of years `0..year-1` into that of years `0..year` |
| Projection.TotalsAreYearZero | src/features/compensation/lib/utils.ts:256-348 | the year-0 totals are the first timeline point (annual = total, base, bonus, benefits, RSU, ESPP) |
| Projection.YearZeroGrossBase | src/features/compensation/lib/utils.ts:256-261 | the raised base of year 0 is the base times the year-0 raise factor, and year 0's ESPP is computed from it |
| Projection.DistributionAddsUp | src/features/compensation/lib/utils.ts:338-359 | the distribution sums to the annual total, and the monthly total is a twelfth of it |
| LegacyProjection.LegacyEspp | src/app/_components/compensation/utils.ts:225-262 | enabled iff ESPP is on and both percentages and the purchase currency are set; zeros otherwise; `returns = contributions × growth/100` |
| LegacyProjection.LegacyDistribution | src/app/_components/compensation/utils.ts:275-281 | the slices are "Base + Allowances", "Bonus", "Benefits", "RSUs", "ESPP", in that order |
| LegacyProjection.SafeBase | src/app/_components/compensation/utils.ts:288 | `baseAnnual \|\| 1` is never 0 and is the base whenever the base is not 0 |
| LegacyProjection.LegacyTimeline | src/app/_components/compensation/utils.ts:290-329 | exactly n points, point i being relative year i |
| LegacyProjection.BuildLegacyCompensationSummary | src/app/_components/compensation/utils.ts:174-348 | the whole computation returns `LegacySummaryOf(values)` |
| LegacyProjection.LegacyYearZero | src/app/_components/compensation/utils.ts:264-281 | builds `LegacyTotals` and its distribution |
| LegacyProjection.BuildLegacyTimeline | src/app/_components/compensation/utils.ts:283-329 | the loop builds `LegacyTimeline(b, projectionYears)`; its invariant keeps the multiplier equal to the product of the raise factors of years 1 onward |
| LegacyProjection.ProjectLegacyYear | src/app/_components/compensation/utils.ts:295-328 | one loop body builds the point `LegacyPointAt(b, year)` |
| LegacyProjection.LegacyMultiplierStep | src/app/_components/compensation/utils.ts:291-293 | the loop's update, skipped at year 0, keeps the older multiplier |
| LegacyProjection.BenefitsAreShareOfPay | src/app/_components/compensation/utils.ts:192-216 | with no zero rate, the benefits are the benefits percentage of base plus allowances in the preferred currency: the detour through the calculation currency changes nothing |
| LegacyProjection.PercentOfSumConverts | src/app/_components/compensation/utils.ts:207-216 | converting a percentage of a sum is taking that percentage of the converted terms |
| LegacyProjection.PercentOfConverts | src/app/_components/compensation/utils.ts:247-254 | converting a percentage of an amount is taking that percentage of the converted amount |
| LegacyProjection.PivotPercent | src/app/_components/compensation/utils.ts:90-91 | the pivot commutes with taking a percentage |
| LegacyProjection.AnnualComposes | src/app/_components/compensation/utils.ts:192-216 | with no zero rate, an annual figure converted into one currency and on into another equals the direct annual conversion |
| LegacyProjection.LegacyEsppIsShareOfBase | src/app/_components/compensation/utils.ts:237-254 | with no zero rate and no ESPP override, the contributions are the contribution percentage of the annual base in the preferred currency, whatever the purchase currency |
| LegacyProjection.EsppFollowsRaises | src/app/_components/compensation/utils.ts:303-309 | a year's ESPP value is `(contributions + returns) × baseYear / baseAnnualSafe`, and with a nonzero base that is the year-0 value times the year's multiplier |
| LegacyProjection.LegacyRaisesCompound | src/app/_components/compensation/utils.ts:290-296 | from one year to the next, base and allowances both grow by the next year's raise factor |
| LegacyProjection.LegacyMultiplierNext | src/app/_components/compensation/utils.ts:291-293 | from year 1 on, each year's raise compounds |
| LegacyProjection.LegacyDistributionAddsUp | src/app/_components/compensation/utils.ts:264-281 | the distribution sums to the annual total, and the monthly total is a twelfth of it |
| LegacyProjection.LegacyTimelineCoversHorizon | src/app/_components/compensation/utils.ts:283-290 | at least 5 points, past every raise offset when raises are on and past every RSU year, and point i is year i |
| LegacyProjection.LegacyYearZeroAgrees | src/app/_components/compensation/utils.ts:264-329 | with no zero rate, the first timeline point reproduces the year-0 totals, ESPP and benefits included |
| LegacyProjection.PointZeroMatchesTotals | src/app/_components/compensation/utils.ts:264-329 | the first point agrees with the totals when the benefits and the year-0 ESPP value agree |
| LegacyProjection.EsppAtYearZero | src/app/_components/compensation/utils.ts:303-309 | with no zero rate, year 0's ESPP value is the contributions plus returns, also when the base is 0 |
| LegacyProjection.EsppVanishesWithBase | src/app/_components/compensation/utils.ts:237-255 | with no zero rate, a zero base gives zero contributions and returns |
| LegacyProjection.ZeroConvertsToZero | src/app/_components/compensation/utils.ts:75-91 | 0 and NaN convert to 0 |
| LegacyProjection.YearZeroIgnoresRaises | src/app/_components/compensation/utils.ts:291 | a year-0 raise never applies: year 0's multiplier is 1 |

## Left out

- Date handling is not modelled:
  - `new Date()` becomes a `currentYear` parameter.
  - A parsed start date becomes an optional year (RSU grants) or an optional year and month (ESPP plans); `None` stands for a date string that does not parse.
  - Adding months to a date is whole-month arithmetic, so JavaScript's `setMonth` day overflow (31 January plus one month) is not modelled.
- IEEE floating point is modelled only in part:
  - Numbers are exact `real`s.
  - NaN is modelled only for monetary amounts, where `convertAmount` tests for it.
  - Infinity and rounding are not modelled.
  - `safe` (src/features/compensation/lib/utils.ts:175 and src/app/_components/compensation/utils.ts:172) is not modelled. It only replaces non-finite values, and every value in the model is finite, so it would always return its argument.
- Both engines take the year-0 RSU value from the schedule's key 0. The schedule is a `map<nat, real>`, so `Object.keys` and `Number(key)` are not modelled.
- Both engines use the TypeScript field names `label` and `returns`. These are keywords in Dafny, so the fields are `category` (`DistributionItem`) and `gains` (`EsppSummary`, `EsppAmounts`).
- The form schemas, React components, settings context, number formatting and hooks are not part of this model. The context's rule that rates must be positive appears only as the `Money.NonzeroRates` hypothesis of the lemmas that need it.
- Every lemma whose `requires` names `Money.NonzeroRates` assumes a table with no zero rate. With a zero rate the engine's guard returns the amount unconverted, and these identities do not hold. The lemmas are:
  - Conversion.NonzeroRatesGiveNonzeroRate, Conversion.ConvertComposes, Conversion.ConvertRoundTrip, Conversion.ConvertZeroOnlyFromZero;
  - Espp.BackLegScales, Espp.BackLegWithPositiveOverride, Espp.BackLegWithoutOverride, Espp.SalaryComesBackScaled, Espp.ContributionIsShareOfSalary, Espp.PlanShareIsShareOfSalary, Espp.PlanYearIsShareOfSalary, Espp.PlanYearsAreShares, Espp.PlanYearIsShareAt, Espp.EsppTotalsAreShareOfSalary;
  - Projection.BaseLosesSalaryShares;
  - LegacyProjection.BenefitsAreShareOfPay, LegacyProjection.AnnualComposes, LegacyProjection.LegacyEsppIsShareOfBase, LegacyProjection.LegacyYearZeroAgrees, LegacyProjection.EsppAtYearZero, LegacyProjection.EsppVanishesWithBase.
- LegacyProjection.LegacyEsppIsShareOfBase assumes the ESPP configuration has no override. With an override, the contributions are converted back at the override rate while the base was converted in at the table rate, so the two do not cancel.
- Espp.AccumulateEspp: uses the corrected ESPP step of the "## Findings" row, so it can differ from the source only when a plan has a positive override. Without one they agree: Espp.TotalsAgreeWithoutOverride and Projection.EsppOfYearAgreesWithoutOverride.
- Projection.ProjectYear: uses the corrected ESPP step of the "## Findings" row, so it can differ from the source only when a plan has a positive override. Without one they agree: Espp.TotalsAgreeWithoutOverride and Projection.EsppOfYearAgreesWithoutOverride.
- Projection.BuildTimeline: uses the corrected ESPP step of the "## Findings" row, so it can differ from the source only when a plan has a positive override. Without one they agree: Espp.TotalsAgreeWithoutOverride and Projection.EsppOfYearAgreesWithoutOverride.
- Projection.YearZero: uses the corrected ESPP step of the "## Findings" row, so it can differ from the source only when a plan has a positive override. Without one they agree: Espp.TotalsAgreeWithoutOverride and Projection.EsppOfYearAgreesWithoutOverride.
- Projection.BuildCompensationSummary: uses the corrected ESPP step of the "## Findings" row, so it can differ from the source only when a plan has a positive override. Without one they agree: Espp.TotalsAgreeWithoutOverride and Projection.EsppOfYearAgreesWithoutOverride.
- Projection.BaseLosesSalaryShares: uses the corrected ESPP step of the "## Findings" row, so it can differ from the source only when a plan has a positive override. Without one they agree: Espp.TotalsAgreeWithoutOverride and Projection.EsppOfYearAgreesWithoutOverride.
- Espp.MonthsInYear states only its zero cases in its contract. The other branches are the function body, used through Espp.MonthsAddUpToDuration, Espp.MonthsInYearBounded and Espp.SixMonthPlanScenario.

## Findings

| source | as written | input that shows it | evidently intended | confidence | as-written member | corrected member |
|---|---|---|---|---|---|---|
| src/features/compensation/lib/utils.ts:402-408 | the year's salary is converted from the preferred currency into the plan's purchase currency with `convertAmount(baseYear, preferred, purchase, plan.overrideRate)`. `convertAmount` applies an override to the currency it converts from (line 85), so the plan's override stands in for the preferred currency's rate. The contribution is then converted back with the same override, this time as the purchase currency's rate (lines 419-425; the same pair is at 293-318 for year 0) | USD preferred, default rates, one ILS plan over all twelve months at 10 % with override 3.65, salary 120000: contribution 120000 / 3.65 × 0.1 ≈ 3287.67 instead of 12000 | the salary goes into the purchase currency at the table's rates (no override), and only the contribution's conversion back uses the override, as the purchase currency's rate. This is what the older engine does with its ESPP override (src/app/_components/compensation/utils.ts:237-254), and its form describes the field as an override for converting ESPP contributions. A plan then contributes its share of the salary times the purchase currency's table rate over the override, or exactly its share without a positive override. The alternative reading, with the override as the purchase currency's rate on both legs, would make the override cancel out and have no effect | not executed | Espp.PlanYearAsWrittenMisconverts | Espp.PlanYearIsShareOfSalary, Espp.PlanYearCorrectedScenario |
