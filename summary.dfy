/** The records both engines' buildCompensationSummary return. */
module Summary {
  import opened Money
  import opened Rsu

  /** One slice of the year-0 distribution chart (`category` is the source's `label`). */
  datatype DistributionItem = DistributionItem(category: string, value: real)

  /** One projected year (year 0 is the current year). */
  datatype TimelinePoint = TimelinePoint(
    year: int,
    base: real,
    allowances: real,
    bonus: real,
    benefits: real,
    rsu: real,
    espp: real,
    total: real)

  /** The year's ESPP figures; `gains` is the source's `returns`. */
  datatype EsppSummary = EsppSummary(enabled: bool, contributions: real, gains: real)

  datatype TotalsSummary = TotalsSummary(
    annual: real,
    monthly: real,
    base: real,
    allowances: real,
    bonus: real,
    benefits: real,
    rsuAnnual: real,
    espp: EsppSummary)

  datatype CompensationSummary = CompensationSummary(
    preferred: Currency,
    totals: TotalsSummary,
    distribution: seq<DistributionItem>,
    timeline: seq<TimelinePoint>,
    rsuBreakdown: seq<RsuBreakdownItem>)

  /** `schedule[k] ?? 0`: a year the schedule does not hold reads as 0. */
  function ScheduleAt(schedule: map<nat, real>, k: int): real
  {
    if k >= 0 && k in schedule then schedule[k] else 0.0
  }

  /** The sum of the distribution's values, in order. */
  function DistributionSum(items: seq<DistributionItem>): real
  {
    if items == [] then 0.0 else items[0].value + DistributionSum(items[1..])
  }

  /** A distribution of five slices adds up to the sum of their values. */
  lemma FiveSlicesSum(d: seq<DistributionItem>)
    requires |d| == 5
    ensures DistributionSum(d) == d[0].value + d[1].value + d[2].value + d[3].value + d[4].value
  {
    assert DistributionSum(d[4..]) == d[4].value by {
      assert d[4..][1..] == [];
    }
    assert d[3..][1..] == d[4..];
    assert DistributionSum(d[3..]) == d[3].value + DistributionSum(d[4..]);
    assert d[2..][1..] == d[3..];
    assert DistributionSum(d[2..]) == d[2].value + DistributionSum(d[3..]);
    assert d[1..][1..] == d[2..];
    assert DistributionSum(d[1..]) == d[1].value + DistributionSum(d[2..]);
  }

  /** The labels of the distribution, in order. */
  function Labels(items: seq<DistributionItem>): (labels: seq<string>)
    ensures |labels| == |items|
  {
    seq(|items|, i requires 0 <= i < |items| => items[i].category)
  }
}
