/**
 * Range checks on generated parameters, over the fixed tables of valid
 * parameter ranges, and the scenario-versus-distribution heuristics.
 */
module Validators {
  import opened Common

  // The range tables.
  const ALPHA_MIN: real := 0.0
  const ALPHA_MAX: real := 1.0
  const VARIANCE_MIN: real := 0.0
  const MIN_UES: int := 1
  const MAX_UES: int := 10000
  const MIN_TICKS: int := 1
  const MAX_TICKS: int := 1000
  /** Allowed distance of the distribution's sum from 1.0. */
  const SUM_TOLERANCE: real := 0.01

  datatype VelocityRange = VelocityRange(min: real, max: real)

  /** Velocity range per mobility class, in m/s; None for a class the table lacks. */
  function VelocityRangeOf(mobilityClass: string): Option<VelocityRange> {
    if mobilityClass == "stationary" then Some(VelocityRange(0.0, 0.0))
    else if mobilityClass == "pedestrian" then Some(VelocityRange(0.5, 2.0))
    else if mobilityClass == "cyclist" then Some(VelocityRange(3.0, 8.0))
    else if mobilityClass == "car" then Some(VelocityRange(5.0, 30.0))
    else None
  }

  /** The error and warning texts; each constructor stands for one message template. */
  datatype Message =
    | AlphaOutOfRange(alpha: real, lo: real, hi: real)
    | VarianceNegative(variance: real)
    | UnknownMobilityClass(mobilityClass: string)
    | VelocityOutOfRange(velocity: real, mobilityClass: string, lo: real, hi: real)
    | NumUesOutOfRange(numUes: int, minUes: int, maxUes: int)
    | NumTicksOutOfRange(numTicks: int, minTicks: int, maxTicks: int)
    | DistributionSumOff(total: real)
    | DistributionEntryOutOfRange(className: string, percentage: real)
    | VelocityVarianceNegative(mobilityClass: string, velocityVariance: real)
    | HighwayPedestrians
    | HighwayCyclists
    | RuralStationary

  /** `(True, "")` or `(False, message)`. */
  datatype Check = Pass | Fail(message: Message)

  function ValidateAlpha(alpha: real): (r: Check)
    ensures r.Pass? <==> 0.0 <= alpha <= 1.0
    ensures r.Fail? ==> r.message == AlphaOutOfRange(alpha, 0.0, 1.0)
  {
    if alpha < ALPHA_MIN || alpha > ALPHA_MAX then Fail(AlphaOutOfRange(alpha, ALPHA_MIN, ALPHA_MAX))
    else Pass
  }

  function ValidateVariance(variance: real): (r: Check)
    ensures r.Pass? <==> variance >= 0.0
    ensures r.Fail? ==> r.message == VarianceNegative(variance)
  {
    if variance < VARIANCE_MIN then Fail(VarianceNegative(variance)) else Pass
  }

  function ValidateVelocity(mobilityClass: string, velocity: real): (r: Check)
    ensures VelocityRangeOf(mobilityClass).None? ==> r == Fail(UnknownMobilityClass(mobilityClass))
    ensures r.Pass? <==>
      VelocityRangeOf(mobilityClass).Some? &&
      VelocityRangeOf(mobilityClass).value.min <= velocity <= VelocityRangeOf(mobilityClass).value.max
  {
    match VelocityRangeOf(mobilityClass)
    case None => Fail(UnknownMobilityClass(mobilityClass))
    case Some(range) =>
      if velocity < range.min || velocity > range.max then
        Fail(VelocityOutOfRange(velocity, mobilityClass, range.min, range.max))
      else Pass
  }

  /** The velocity table read class by class. */
  lemma VelocityTable(velocity: real)
    ensures ValidateVelocity("stationary", velocity).Pass? <==> velocity == 0.0
    ensures ValidateVelocity("pedestrian", velocity).Pass? <==> 0.5 <= velocity <= 2.0
    ensures ValidateVelocity("cyclist", velocity).Pass? <==> 3.0 <= velocity <= 8.0
    ensures ValidateVelocity("car", velocity).Pass? <==> 5.0 <= velocity <= 30.0
  {
  }

  function ValidateNumUes(numUes: int): (r: Check)
    ensures r.Pass? <==> 1 <= numUes <= 10000
    ensures r.Fail? ==> r.message == NumUesOutOfRange(numUes, 1, 10000)
  {
    if numUes < MIN_UES || numUes > MAX_UES then Fail(NumUesOutOfRange(numUes, MIN_UES, MAX_UES)) else Pass
  }

  function ValidateNumTicks(numTicks: int): (r: Check)
    ensures r.Pass? <==> 1 <= numTicks <= 1000
    ensures r.Fail? ==> r.message == NumTicksOutOfRange(numTicks, 1, 1000)
  {
    if numTicks < MIN_TICKS || numTicks > MAX_TICKS then Fail(NumTicksOutOfRange(numTicks, MIN_TICKS, MAX_TICKS))
    else Pass
  }

  // ---------------------------------------------------------------------------
  // The distribution check

  predicate OutOfUnit(p: real) { p < 0.0 || p > 1.0 }

  /** The index of the first entry whose fraction lies outside [0, 1]. */
  function FirstOutOfUnit(d: seq<(string, real)>): (r: Option<nat>)
    ensures r.None? <==> forall j :: 0 <= j < |d| ==> !OutOfUnit(d[j].1)
    ensures r.Some? ==> r.value < |d| && OutOfUnit(d[r.value].1)
    ensures r.Some? ==> forall j :: 0 <= j < r.value ==> !OutOfUnit(d[j].1)
  {
    if |d| == 0 then None
    else if OutOfUnit(d[0].1) then Some(0)
    else match FirstOutOfUnit(d[1..])
      case None => None
      case Some(k) => Some(k + 1)
  }

  function DistributionTotal(d: seq<(string, real)>): real {
    SumReal(Values(d))
  }

  /**
   * What the distribution check decides: the sum test comes first, then
   * the first entry outside [0, 1] is reported.
   */
  function DistributionVerdict(d: seq<(string, real)>): Check {
    var total := DistributionTotal(d);
    if Abs(total - 1.0) > SUM_TOLERANCE then Fail(DistributionSumOff(total))
    else match FirstOutOfUnit(d)
      case None => Pass
      case Some(k) => Fail(DistributionEntryOutOfRange(d[k].0, d[k].1))
  }

  /** The verdict passes exactly for a sum within tolerance and every fraction in [0, 1]. */
  lemma DistributionVerdictIff(d: seq<(string, real)>)
    ensures DistributionVerdict(d).Pass? <==>
      (Abs(DistributionTotal(d) - 1.0) <= 0.01 && forall j :: 0 <= j < |d| ==> 0.0 <= d[j].1 <= 1.0)
    ensures Abs(DistributionTotal(d) - 1.0) > 0.01 ==>
      DistributionVerdict(d) == Fail(DistributionSumOff(DistributionTotal(d)))
    ensures DistributionVerdict(d).Fail? && Abs(DistributionTotal(d) - 1.0) <= 0.01 ==>
      exists k :: 0 <= k < |d| && OutOfUnit(d[k].1) && (forall j :: 0 <= j < k ==> !OutOfUnit(d[j].1)) &&
        DistributionVerdict(d) == Fail(DistributionEntryOutOfRange(d[k].0, d[k].1))
  {
  }

  /** An empty distribution sums to 0 and so fails the sum test. */
  lemma EmptyDistributionFails()
    ensures DistributionVerdict([]) == Fail(DistributionSumOff(0.0))
  {
  }

  method ValidateDistribution(distribution: Dict<real>) returns (r: Check)
    ensures r == DistributionVerdict(distribution)
  {
    var total := SumReal(Values(distribution));
    if Abs(total - 1.0) > SUM_TOLERANCE {
      return Fail(DistributionSumOff(total));
    }
    var i := 0;
    while i < |distribution|
      invariant 0 <= i <= |distribution|
      invariant forall j :: 0 <= j < i ==> !OutOfUnit(distribution[j].1)
    {
      var (className, percentage) := distribution[i];
      if percentage < 0.0 || percentage > 1.0 {
        return Fail(DistributionEntryOutOfRange(className, percentage));
      }
      i := i + 1;
    }
    return Pass;
  }

  // ---------------------------------------------------------------------------
  // Scenario consistency

  /** The warnings the consistency heuristics raise, in the order they are appended. */
  function ScenarioWarnings(scenarioType: string, distribution: seq<(string, real)>): seq<Message> {
    (if scenarioType == "highway" && Lookup(distribution, "pedestrian").GetOr(0.0) > 0.0 then [HighwayPedestrians] else []) +
    (if scenarioType == "highway" && Lookup(distribution, "cyclist").GetOr(0.0) > 0.0 then [HighwayCyclists] else []) +
    (if scenarioType == "rural" && Lookup(distribution, "stationary").GetOr(0.0) > 0.5 then [RuralStationary] else [])
  }

  /** Which warning appears when, and that no other scenario warns at all. */
  lemma ScenarioWarningsIff(scenarioType: string, distribution: seq<(string, real)>)
    ensures var w := ScenarioWarnings(scenarioType, distribution);
      && (HighwayPedestrians in w <==> scenarioType == "highway" && Lookup(distribution, "pedestrian").GetOr(0.0) > 0.0)
      && (HighwayCyclists in w <==> scenarioType == "highway" && Lookup(distribution, "cyclist").GetOr(0.0) > 0.0)
      && (RuralStationary in w <==> scenarioType == "rural" && Lookup(distribution, "stationary").GetOr(0.0) > 0.5)
      && (scenarioType == "highway" ==> |w| <= 2 && RuralStationary !in w)
      && (scenarioType == "rural" ==> |w| <= 1)
      && (scenarioType != "highway" && scenarioType != "rural" ==> w == [])
      && (forall i, j :: 0 <= i < j < |w| ==> w[i] != w[j])
  {
  }

  method CheckScenarioConsistency(scenarioType: string, distribution: Dict<real>) returns (warnings: seq<Message>)
    ensures warnings == ScenarioWarnings(scenarioType, distribution)
  {
    warnings := [];
    if scenarioType == "highway" {
      if Lookup(distribution, "pedestrian").GetOr(0.0) > 0.0 {
        warnings := warnings + [HighwayPedestrians];
      }
      if Lookup(distribution, "cyclist").GetOr(0.0) > 0.0 {
        warnings := warnings + [HighwayCyclists];
      }
    }
    if scenarioType == "rural" {
      if Lookup(distribution, "stationary").GetOr(0.0) > 0.5 {
        warnings := warnings + [RuralStationary];
      }
    }
  }
}
