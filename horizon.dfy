/** The projection horizon (getProjectionYears, the same in both engines): at least five
    years, and long enough to reach the last raise and the last RSU tranche. */
module Horizon {

  /** The largest element of a non-empty finite set of integers (`Math.max(...keys)`). */
  function MaxOf(s: set<int>): (m: int)
    requires s != {}
    ensures m in s && forall k :: k in s ==> k <= m
  {
    MaxExists(s);
    var m :| m in s && forall k :: k in s ==> k <= m;
    m
  }

  lemma {:induction false} MaxExists(s: set<int>)
    requires s != {}
    decreases |s|
    ensures exists m :: m in s && forall k :: k in s ==> k <= m
  {
    var x := PickOne(s);
    var rest := s - {x};
    if s == {x} {
      assert x in s && forall k :: k in s ==> k <= x;
    } else {
      assert rest == {} ==> s == {x};
      MaxExists(rest);
      var m :| m in rest && forall k :: k in rest ==> k <= m;
      var top := if x > m then x else m;
      forall k | k in s ensures k <= top {
        if k != x {
          assert k in rest;
        }
      }
      assert top in s;
    }
  }

  /** Some element of a non-empty set. */
  lemma PickOne(s: set<int>) returns (x: int)
    requires s != {}
    ensures x in s
  {
    assert (forall y :: y !in s) ==> s == {};
    x :| x in s;
  }

  /** getProjectionYears over the keys of the RSU schedule and of the raises map:
      `max(5, maxRaise + 1, rsuYears + 1)`, where an empty key set counts as 0. */
  function ProjectionYears(scheduleKeys: set<int>, raiseKeys: set<int>): (years: int)
    ensures years >= 5
    ensures forall k :: k in raiseKeys ==> k < years
    ensures forall k :: k in scheduleKeys ==> k < years
    ensures years == 5 || years - 1 in raiseKeys || years - 1 in scheduleKeys
  {
    var maxRaise := if |raiseKeys| > 0 then MaxOf(raiseKeys) else 0;
    var rsuYears := if |scheduleKeys| > 0 then MaxOf(scheduleKeys) else 0;
    var years := if 5 >= maxRaise + 1 then 5 else maxRaise + 1;
    if years >= rsuYears + 1 then years else rsuYears + 1
  }

  /** The horizon is the least length of at least five years that passes every raise
      offset and every schedule year. */
  lemma ProjectionYearsIsLeast(scheduleKeys: set<int>, raiseKeys: set<int>, n: int)
    requires n >= 5
    requires forall k :: k in raiseKeys ==> k < n
    requires forall k :: k in scheduleKeys ==> k < n
    ensures ProjectionYears(scheduleKeys, raiseKeys) <= n
  {
    var years := ProjectionYears(scheduleKeys, raiseKeys);
    if years != 5 {
      assert years - 1 in raiseKeys || years - 1 in scheduleKeys;
    }
  }

  /** Without raises and RSUs the horizon is five years. */
  lemma DefaultHorizon()
    ensures ProjectionYears({}, {}) == 5
  {
  }
}
