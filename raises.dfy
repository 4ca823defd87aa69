/** Raises (buildRaisesMap of both engines) and the cumulative salary multiplier the
    yearly projections compound from them. */
module Raises {

  /** A raise of `percentage` percent taking effect in relative year `yearOffset`. */
  datatype Raise = Raise(yearOffset: int, percentage: real)

  /** The older engine's raises: a list behind an on/off switch. */
  datatype RaisesConfig = RaisesConfig(enabled: bool, items: seq<Raise>)

  /** The map buildRaisesMap fills: each raise's offset set to its rate in turn, so a
      later raise for the same offset overwrites an earlier one. */
  function RaisesMap(raises: seq<Raise>): map<int, real>
  {
    if raises == [] then map[]
    else
      var last := raises[|raises| - 1];
      RaisesMap(raises[..|raises| - 1])[last.yearOffset := last.percentage / 100.0]
  }

  /** buildRaisesMap of the newer engine. */
  method BuildRaisesMap(raises: seq<Raise>) returns (m: map<int, real>)
    ensures m == RaisesMap(raises)
  {
    m := map[];
    if |raises| > 0 {
      for i := 0 to |raises|
        invariant m == RaisesMap(raises[..i])
      {
        assert raises[..i + 1][..i] == raises[..i];
        m := m[raises[i].yearOffset := raises[i].percentage / 100.0];
      }
      assert raises[..|raises|] == raises;
    }
  }

  /** buildRaisesMap of the older engine: nothing when raises are switched off. */
  function LegacyRaisesMap(config: RaisesConfig): map<int, real>
  {
    if !config.enabled then map[] else RaisesMap(config.items)
  }

  /** The older engine's buildRaisesMap, loop and all. */
  method BuildLegacyRaisesMap(config: RaisesConfig) returns (m: map<int, real>)
    ensures m == LegacyRaisesMap(config)
    ensures !config.enabled ==> m == map[]
  {
    if !config.enabled {
      return map[];
    }
    m := map[];
    for i := 0 to |config.items|
      invariant m == RaisesMap(config.items[..i])
    {
      assert config.items[..i + 1][..i] == config.items[..i];
      m := m[config.items[i].yearOffset := config.items[i].percentage / 100.0];
    }
    assert config.items[..|config.items|] == config.items;
  }

  /** The offsets in the map are exactly the offsets of the raises. */
  lemma {:induction false} RaisesMapKeys(raises: seq<Raise>, k: int)
    ensures k in RaisesMap(raises) <==> exists j :: 0 <= j < |raises| && raises[j].yearOffset == k
  {
    if raises != [] {
      var prefix := raises[..|raises| - 1];
      RaisesMapKeys(prefix, k);
      if exists j :: 0 <= j < |prefix| && prefix[j].yearOffset == k {
        var j :| 0 <= j < |prefix| && prefix[j].yearOffset == k;
        assert raises[j].yearOffset == k;
      }
      if exists j :: 0 <= j < |raises| && raises[j].yearOffset == k {
        var j :| 0 <= j < |raises| && raises[j].yearOffset == k;
        if j < |prefix| {
          assert prefix[j].yearOffset == k;
        }
      }
    }
  }

  /** The last raise for an offset wins: its rate is the one the map holds. */
  lemma {:induction false} LastRaiseWins(raises: seq<Raise>, j: int)
    requires 0 <= j < |raises|
    requires forall i :: j < i < |raises| ==> raises[i].yearOffset != raises[j].yearOffset
    ensures raises[j].yearOffset in RaisesMap(raises)
    ensures RaisesMap(raises)[raises[j].yearOffset] == raises[j].percentage / 100.0
  {
    if j < |raises| - 1 {
      var prefix := raises[..|raises| - 1];
      assert prefix[j] == raises[j];
      LastRaiseWins(prefix, j);
    }
  }

  /** The factor a year's raise applies: 1 + rate for a year in the map, 1 otherwise. */
  function Step(m: map<int, real>, year: int): real
  {
    if year in m then 1.0 + m[year] else 1.0
  }

  /** The cumulative multiplier once the raises of relative years 0 .. n-1 have
      compounded (the newer engine: a year-0 raise counts). */
  function Multiplier(m: map<int, real>, n: nat): real
  {
    if n == 0 then 1.0 else Multiplier(m, n - 1) * Step(m, n - 1)
  }

  /** The older engine's cumulative multiplier: as Multiplier, but a year-0 raise
      is never applied. */
  function LegacyMultiplier(m: map<int, real>, n: nat): real
  {
    if n == 0 then 1.0
    else if n - 1 > 0 then LegacyMultiplier(m, n - 1) * Step(m, n - 1)
    else LegacyMultiplier(m, n - 1)
  }

  /** The older engine's multiplier is the newer one's over the map without year 0. */
  lemma {:induction false} LegacyIgnoresYearZero(m: map<int, real>, n: nat)
    ensures LegacyMultiplier(m, n) == Multiplier(m - {0}, n)
  {
    if n > 0 {
      LegacyIgnoresYearZero(m, n - 1);
      StepWithoutYearZero(m, n - 1);
    }
  }

  lemma StepWithoutYearZero(m: map<int, real>, year: int)
    ensures Step(m - {0}, year) == if year == 0 then 1.0 else Step(m, year)
  {
  }

  /** A year without a raise leaves the multiplier unchanged. */
  lemma NoRaiseNoChange(m: map<int, real>, year: nat)
    requires year !in m
    ensures Multiplier(m, year + 1) == Multiplier(m, year)
  {
  }

  /** A year with a raise of rate r multiplies the multiplier by 1 + r. */
  lemma RaiseCompounds(m: map<int, real>, year: nat)
    requires year in m
    ensures Multiplier(m, year + 1) == Multiplier(m, year) * (1.0 + m[year])
  {
  }

  /** With no raises, the multiplier stays 1. */
  lemma {:induction false} NoRaisesKeepOne(n: nat)
    ensures Multiplier(map[], n) == 1.0
  {
    if n > 0 {
      NoRaisesKeepOne(n - 1);
    }
  }

  /** With no cuts, the multiplier never falls as the years go by. */
  lemma {:induction false} MultiplierGrows(m: map<int, real>, n: nat)
    requires forall k :: k in m ==> m[k] >= 0.0
    ensures 1.0 <= Multiplier(m, n) <= Multiplier(m, n + 1)
  {
    if n > 0 {
      MultiplierGrows(m, n - 1);
    }
    GrowsByFactor(Multiplier(m, n), Step(m, n));
  }

  /** A salary times a compounded multiplier: the grouping does not matter. */
  lemma Regroup(x: real, m: real, f: real)
    ensures x * (m * f) == x * m * f
  {
  }

  lemma GrowsByFactor(x: real, f: real)
    requires x >= 1.0 && f >= 1.0
    ensures x <= x * f
  {
  }
}
