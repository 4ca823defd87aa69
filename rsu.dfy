/** The RSU vesting scheduler (getRsuSchedule): each grant's converted value is spread
    evenly over its vesting years, counted in years relative to the current year. */
module Rsu {
  import opened Money
  import opened Conversion

  /** A grant. Its start date is given already parsed: the calendar year, or None when
      the date string does not parse. */
  datatype RsuGrant = RsuGrant(name: string, startYear: Option<int>, vestingYears: int, totalValue: MonetaryField)

  /** One line of the breakdown: a grant's yearly tranche and its converted total. */
  datatype RsuBreakdownItem = RsuBreakdownItem(name: string, annualValue: real, totalValue: real)

  /** What the scheduler derives from a grant before it touches the schedule: the
      relative year of the first tranche, the number of tranches, and the tranche. */
  datatype Vesting = Vesting(startOffset: nat, vestingYears: int, annualValue: real)

  /** The relative year of a grant's first tranche: `max(0, startYear - currentYear)`,
      with an unparsable date counted as the current year. */
  function StartOffset(g: RsuGrant, currentYear: int): nat
  {
    var startYear := if g.startYear.Some? then g.startYear.value else currentYear;
    if startYear - currentYear > 0 then startYear - currentYear else 0
  }

  /** The grant's total value in the preferred currency. */
  function TotalConverted(g: RsuGrant, preferred: Currency, rates: Rates): real
  {
    ConvertField(g.totalValue, preferred, rates)
  }

  /** `max(vestingYears, 1)`, the divisor of the yearly tranche. */
  function TrancheCount(g: RsuGrant): int
  {
    if g.vestingYears > 1 then g.vestingYears else 1
  }

  /** `totalConverted / max(vestingYears, 1)`. */
  function AnnualValue(g: RsuGrant, preferred: Currency, rates: Rates): real
  {
    TotalConverted(g, preferred, rates) / TrancheCount(g) as real
  }

  function VestingOf(g: RsuGrant, preferred: Currency, rates: Rates, currentYear: int): Vesting
  {
    Vesting(StartOffset(g, currentYear), g.vestingYears, AnnualValue(g, preferred, rates))
  }

  /** The vestings of all grants, in input order. */
  function Vestings(grants: seq<RsuGrant>, preferred: Currency, rates: Rates, currentYear: int): (vs: seq<Vesting>)
    ensures |vs| == |grants|
  {
    seq(|grants|, j requires 0 <= j < |grants| => VestingOf(grants[j], preferred, rates, currentYear))
  }

  /** Whether a vesting pays a tranche in relative year k. */
  predicate VestsIn(v: Vesting, k: int)
  {
    v.startOffset <= k < v.startOffset + v.vestingYears
  }

  /** What a vesting pays in relative year k. */
  function Tranche(v: Vesting, k: int): real
  {
    if VestsIn(v, k) then v.annualValue else 0.0
  }

  /** What all vestings together pay in relative year k, summed in input order. */
  function Vested(vs: seq<Vesting>, k: int): real
  {
    if vs == [] then 0.0 else Vested(vs[..|vs| - 1], k) + Tranche(vs[|vs| - 1], k)
  }

  /** Whether some vesting pays a tranche in relative year k. */
  predicate AnyVests(vs: seq<Vesting>, k: int)
  {
    exists j :: 0 <= j < |vs| && VestsIn(vs[j], k)
  }

  /** The relative years start, start + 1, ..., start + n - 1 (none when n <= 0). */
  function YearRange(start: nat, n: int): (r: set<nat>)
    ensures forall k: nat :: k in r <==> start <= k < start + n
  {
    if n <= 0 then {} else YearRange(start, n - 1) + {start + n - 1}
  }

  /** The relative years in which some vesting pays. */
  function ScheduleKeys(vs: seq<Vesting>): (keys: set<nat>)
    ensures forall k: nat :: k in keys <==> AnyVests(vs, k)
  {
    if vs == [] then {}
    else
      var prefix, last := vs[..|vs| - 1], vs[|vs| - 1];
      AnyVestsSplit(prefix, last);
      assert prefix + [last] == vs;
      ScheduleKeys(prefix) + YearRange(last.startOffset, last.vestingYears)
  }

  /** Some vesting of `vs + [v]` pays in year k exactly when some vesting of `vs` or v does. */
  lemma AnyVestsSplit(vs: seq<Vesting>, v: Vesting)
    ensures forall k :: AnyVests(vs + [v], k) <==> AnyVests(vs, k) || VestsIn(v, k)
  {
    var all := vs + [v];
    forall k ensures AnyVests(all, k) <==> AnyVests(vs, k) || VestsIn(v, k) {
      if VestsIn(v, k) {
        assert VestsIn(all[|vs|], k);
      }
      if AnyVests(vs, k) {
        var j :| 0 <= j < |vs| && VestsIn(vs[j], k);
        assert VestsIn(all[j], k);
      }
    }
  }

  /** The schedule a run of vestings yields: exactly the relative years in which some
      vesting pays, each mapped to the sum of the tranches paid in it. */
  function ScheduleOf(vs: seq<Vesting>): (s: map<nat, real>)
    ensures forall k: nat :: k in s <==> AnyVests(vs, k)
    ensures forall k :: k in s ==> s[k] == Vested(vs, k)
  {
    map k | k in ScheduleKeys(vs) :: Vested(vs, k)
  }

  /** The schedule getRsuSchedule builds from the grants. */
  function Schedule(grants: seq<RsuGrant>, preferred: Currency, rates: Rates, currentYear: int): map<nat, real>
  {
    ScheduleOf(Vestings(grants, preferred, rates, currentYear))
  }

  /** The breakdown getRsuSchedule builds: one item per grant, in input order. */
  function Breakdown(grants: seq<RsuGrant>, preferred: Currency, rates: Rates): (b: seq<RsuBreakdownItem>)
    ensures |b| == |grants|
  {
    seq(|grants|, j requires 0 <= j < |grants| =>
      RsuBreakdownItem(grants[j].name, AnnualValue(grants[j], preferred, rates), TotalConverted(grants[j], preferred, rates)))
  }

  /** The inner loop of getRsuSchedule: adds a grant's yearly tranche to every relative
      year of its window, creating the years not yet in the schedule. */
  method AddTranches(schedule: map<nat, real>, startOffset: nat, vestingYears: int, annualValue: real)
    returns (updated: map<nat, real>)
    ensures forall k: nat :: k in updated <==> k in schedule || startOffset <= k < startOffset + vestingYears
    ensures forall k :: k in updated ==>
              updated[k] == (if k in schedule then schedule[k] else 0.0)
                            + (if startOffset <= k < startOffset + vestingYears then annualValue else 0.0)
  {
    updated := schedule;
    var year := 0;
    while year < vestingYears
      invariant 0 <= year <= (if vestingYears > 0 then vestingYears else 0)
      invariant forall k: nat :: k in updated <==> k in schedule || startOffset <= k < startOffset + year
      invariant forall k :: k in updated ==>
                  updated[k] == (if k in schedule then schedule[k] else 0.0)
                                + (if startOffset <= k < startOffset + year then annualValue else 0.0)
    {
      var key := startOffset + year;
      updated := updated[key := (if key in updated then updated[key] else 0.0) + annualValue];
      year := year + 1;
    }
  }

  /** getRsuSchedule: for each grant in turn, adds its yearly tranche to every relative
      year of its vesting window and appends its breakdown item. */
  method GetRsuSchedule(grants: seq<RsuGrant>, preferred: Currency, rates: Rates, currentYear: int)
    returns (schedule: map<nat, real>, breakdown: seq<RsuBreakdownItem>)
    ensures schedule == Schedule(grants, preferred, rates, currentYear)
    ensures breakdown == Breakdown(grants, preferred, rates)
  {
    ghost var vs := Vestings(grants, preferred, rates, currentYear);
    schedule := map[];
    breakdown := [];
    for i := 0 to |grants|
      invariant forall k: nat :: k in schedule <==> AnyVests(vs[..i], k)
      invariant forall k :: k in schedule ==> schedule[k] == Vested(vs[..i], k)
      invariant breakdown == Breakdown(grants[..i], preferred, rates)
    {
      var grant := grants[i];
      var startYear := if grant.startYear.Some? then grant.startYear.value else currentYear;
      var startOffset := if startYear - currentYear > 0 then startYear - currentYear else 0;
      var totalConverted := ConvertField(grant.totalValue, preferred, rates);
      var annualValue := totalConverted / (if grant.vestingYears > 1 then grant.vestingYears else 1) as real;
      VestingAt(grants, i, preferred, rates, currentYear);

      ghost var before := schedule;
      schedule := AddTranches(schedule, startOffset, grant.vestingYears, annualValue);
      breakdown := breakdown + [RsuBreakdownItem(grant.name, annualValue, totalConverted)];

      assert vs[..i + 1] == vs[..i] + [vs[i]];
      AddVestingKeepsSchedule(vs[..i], vs[i], before, schedule);
      BreakdownGrows(grants, i, preferred, rates);
    }
    assert vs[..|grants|] == vs;
    assert grants[..|grants|] == grants;
    ScheduleIsDetermined(vs, schedule);
  }

  /** The i-th vesting, spelled out the way getRsuSchedule computes it. */
  lemma VestingAt(grants: seq<RsuGrant>, i: int, preferred: Currency, rates: Rates, currentYear: int)
    requires 0 <= i < |grants|
    ensures var g := grants[i];
            var startYear := if g.startYear.Some? then g.startYear.value else currentYear;
            Vestings(grants, preferred, rates, currentYear)[i]
            == Vesting(if startYear - currentYear > 0 then startYear - currentYear else 0, g.vestingYears,
                       ConvertField(g.totalValue, preferred, rates) / (if g.vestingYears > 1 then g.vestingYears else 1) as real)
  {
  }

  /** A map with the schedule's keys and values is the schedule. */
  lemma ScheduleIsDetermined(vs: seq<Vesting>, m: map<nat, real>)
    requires forall k: nat :: k in m <==> AnyVests(vs, k)
    requires forall k :: k in m ==> m[k] == Vested(vs, k)
    ensures m == ScheduleOf(vs)
  {
    assert m.Keys == ScheduleOf(vs).Keys;
  }

  /** Taking one more grant appends its item to the breakdown. */
  lemma BreakdownGrows(grants: seq<RsuGrant>, i: int, preferred: Currency, rates: Rates)
    requires 0 <= i < |grants|
    ensures Breakdown(grants[..i + 1], preferred, rates)
            == Breakdown(grants[..i], preferred, rates)
               + [RsuBreakdownItem(grants[i].name, AnnualValue(grants[i], preferred, rates), TotalConverted(grants[i], preferred, rates))]
  {
  }

  /** One step of getRsuSchedule's outer loop: a schedule that is right for a prefix of
      the vestings, with the next vesting's tranches added, is right for the longer prefix. */
  lemma AddVestingKeepsSchedule(prefix: seq<Vesting>, v: Vesting, before: map<nat, real>, after: map<nat, real>)
    requires forall k: nat :: k in before <==> AnyVests(prefix, k)
    requires forall k :: k in before ==> before[k] == Vested(prefix, k)
    requires forall k: nat :: k in after <==> k in before || VestsIn(v, k)
    requires forall k :: k in after ==>
               after[k] == (if k in before then before[k] else 0.0) + (if VestsIn(v, k) then v.annualValue else 0.0)
    ensures forall k: nat :: k in after <==> AnyVests(prefix + [v], k)
    ensures forall k :: k in after ==> after[k] == Vested(prefix + [v], k)
  {
    AnyVestsSplit(prefix, v);
    forall k | k in after
      ensures after[k] == Vested(prefix + [v], k)
    {
      assert (prefix + [v])[..|prefix|] == prefix;
      if k !in before {
        UnvestedYearIsZero(prefix, k);
      }
    }
  }

  /** A relative year in which no vesting pays gets nothing: the schedule's missing
      keys read as 0, consistently with the sum over all grants. */
  lemma {:induction false} UnvestedYearIsZero(vs: seq<Vesting>, k: int)
    requires !AnyVests(vs, k)
    ensures Vested(vs, k) == 0.0
  {
    if vs != [] {
      var prefix := vs[..|vs| - 1];
      assert !VestsIn(vs[|vs| - 1], k);
      forall j | 0 <= j < |prefix| ensures !VestsIn(prefix[j], k) {
        assert prefix[j] == vs[j];
      }
      UnvestedYearIsZero(prefix, k);
    }
  }

  /** What one vesting pays over the n relative years from `from` on. */
  function TrancheSum(v: Vesting, from: int, n: nat): real
    decreases n
  {
    if n == 0 then 0.0 else Tranche(v, from) + TrancheSum(v, from + 1, n - 1)
  }

  /** How many of the n years from `from` on fall in the window [start, start + len). */
  function Overlap(from: int, n: nat, start: int, len: int): nat
  {
    var lo := if from > start then from else start;
    var hi := if from + n < start + len then from + n else start + len;
    if hi > lo then hi - lo else 0
  }

  /** Over any run of years, a vesting pays its tranche once per year of the run that
      lies in its window. */
  lemma {:induction false} TrancheSumCountsWindowYears(v: Vesting, from: int, n: nat)
    decreases n
    ensures TrancheSum(v, from, n) == Overlap(from, n, v.startOffset, v.vestingYears) as real * v.annualValue
  {
    if n > 0 {
      TrancheSumCountsWindowYears(v, from + 1, n - 1);
      if VestsIn(v, from) {
        assert Overlap(from, n, v.startOffset, v.vestingYears) == Overlap(from + 1, n - 1, v.startOffset, v.vestingYears) + 1;
        OneMoreTranche(Overlap(from + 1, n - 1, v.startOffset, v.vestingYears), v.annualValue);
      } else {
        assert Overlap(from, n, v.startOffset, v.vestingYears) == Overlap(from + 1, n - 1, v.startOffset, v.vestingYears);
      }
    }
  }

  lemma OneMoreTranche(m: nat, a: real)
    ensures (m + 1) as real * a == a + m as real * a
  {
  }

  /** A grant with at least one vesting year pays out exactly its converted total over
      any run of relative years that covers its vesting window. */
  lemma GrantVestsItsTotal(g: RsuGrant, preferred: Currency, rates: Rates, currentYear: int, from: int, n: nat)
    requires g.vestingYears >= 1
    requires from <= StartOffset(g, currentYear) && StartOffset(g, currentYear) + g.vestingYears <= from + n
    ensures TrancheSum(VestingOf(g, preferred, rates, currentYear), from, n) == TotalConverted(g, preferred, rates)
  {
    TrancheSumCountsWindowYears(VestingOf(g, preferred, rates, currentYear), from, n);
    assert Overlap(from, n, StartOffset(g, currentYear), g.vestingYears) == TrancheCount(g);
    TranchesMakeTotal(TotalConverted(g, preferred, rates), TrancheCount(g) as real);
  }

  lemma TranchesMakeTotal(total: real, count: real)
    requires count != 0.0
    ensures count * (total / count) == total
  {
  }

  /** One grant of 50000 USD vesting over 4 years from this year, with USD preferred:
      each of relative years 0 to 3 receives 12500 and year 4 nothing. */
  lemma FourYearGrantScenario(currentYear: int, rates: Rates)
    ensures var grants := [RsuGrant("Initial Grant", Some(currentYear), 4, MonetaryField(Finite(50000.0), USD, None))];
            var s := Schedule(grants, USD, rates, currentYear);
            (forall k: nat :: k < 4 ==> k in s && s[k] == 12500.0) && 4 !in s
  {
    var grants := [RsuGrant("Initial Grant", Some(currentYear), 4, MonetaryField(Finite(50000.0), USD, None))];
    var vs := Vestings(grants, USD, rates, currentYear);
    assert TotalConverted(grants[0], USD, rates) == 50000.0;
    assert vs == [Vesting(0, 4, 12500.0)];
    forall k: nat | k < 4 ensures Vested(vs, k) == 12500.0 {
      assert vs[..0] == [];
      assert VestsIn(vs[0], k);
    }
    assert !AnyVests(vs, 4);
  }
}
