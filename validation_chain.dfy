/**
 * The two-tier validation of generated parameters: every physics check
 * (critical) and every scenario-consistency check (warning) runs, the
 * messages are collected in one list, and the result is classified as a
 * critical failure, a warning-only failure or a success.
 */
module ValidationChain {
  import opened Common
  import opened Models
  import opened Validators

  datatype Severity = Critical | Warning

  /** The `allowed_range` field of a physics violation. */
  datatype AllowedRange = Between(lo: real, hi: real) | AtLeast(lo: real) | SeeVelocityRanges

  /** One entry of `physics_violations`. */
  datatype Violation = Violation(param: string, value: real, allowedRange: AllowedRange, severity: Severity)

  /** One entry of `consistency_issues`. */
  datatype Issue = Issue(issue: string, details: Message, severity: Severity)

  datatype FailureReasons = FailureReasons(physicsViolations: seq<Violation>, consistencyIssues: seq<Issue>, severity: Severity)

  /** `{"status": "success", ...}` or `{"status": "failed", ...}`. */
  datatype ValidationResult =
    | Passed(validatedParams: GenParams)
    | Failed(validationErrors: seq<Message>, failureReasons: FailureReasons)
  {
    function Status(): string {
      if Passed? then "success" else "failed"
    }
  }

  /** A physics violation together with the message appended for it. */
  datatype Finding = Finding(message: Message, violation: Violation)

  const SCENARIO_MISMATCH: string := "scenario_mobility_mismatch"

  function Messages(fs: seq<Finding>): (r: seq<Message>)
    ensures |r| == |fs| && forall i :: 0 <= i < |fs| ==> r[i] == fs[i].message
  {
    seq(|fs|, i requires 0 <= i < |fs| => fs[i].message)
  }

  function Violations(fs: seq<Finding>): (r: seq<Violation>)
    ensures |r| == |fs| && forall i :: 0 <= i < |fs| ==> r[i] == fs[i].violation
  {
    seq(|fs|, i requires 0 <= i < |fs| => fs[i].violation)
  }

  function Issues(warnings: seq<Message>): (r: seq<Issue>)
    ensures |r| == |warnings| && forall i :: 0 <= i < |warnings| ==> r[i] == Issue(SCENARIO_MISMATCH, warnings[i], Warning)
  {
    seq(|warnings|, i requires 0 <= i < |warnings| => Issue(SCENARIO_MISMATCH, warnings[i], Warning))
  }

  // ---------------------------------------------------------------------------
  // The checks, one record each

  function AlphaFindings(alpha: real): seq<Finding> {
    match ValidateAlpha(alpha)
    case Pass => []
    case Fail(m) => [Finding(m, Violation("alpha", alpha, Between(0.0, 1.0), Critical))]
  }

  function VarianceFindings(variance: real): seq<Finding> {
    match ValidateVariance(variance)
    case Pass => []
    case Fail(m) => [Finding(m, Violation("variance", variance, AtLeast(0.0), Critical))]
  }

  /** The distribution record reports the sum of the fractions as its value. */
  function DistributionFindings(dist: seq<(string, real)>): seq<Finding> {
    match DistributionVerdict(dist)
    case Pass => []
    case Fail(m) => [Finding(m, Violation("ue_class_distribution", SumReal(Values(dist)), Between(1.0, 1.0), Critical))]
  }

  /** The velocity and velocity-variance checks of one adjustment entry; a missing key reads as 0. */
  function EntryFindings(mobilityClass: string, adj: VelocityAdj): seq<Finding> {
    var velocity := adj.velocity.GetOr(0.0);
    var velocityVariance := adj.velocityVariance.GetOr(0.0);
    (match ValidateVelocity(mobilityClass, velocity)
     case Pass => []
     case Fail(m) => [Finding(m, Violation("velocity_" + mobilityClass, velocity, SeeVelocityRanges, Critical))]) +
    (if velocityVariance < 0.0 then
       [Finding(VelocityVarianceNegative(mobilityClass, velocityVariance),
                Violation("velocity_variance_" + mobilityClass, velocityVariance, AtLeast(0.0), Critical))]
     else [])
  }

  /** The per-entry findings for the adjustment entries, in dict order. */
  function VelocityFindings(adjustments: seq<(string, VelocityAdj)>): seq<Finding> {
    if |adjustments| == 0 then []
    else
      var last := adjustments[|adjustments| - 1];
      VelocityFindings(adjustments[..|adjustments| - 1]) + EntryFindings(last.0, last.1)
  }

  /** All physics findings, in the order the checks run. */
  function PhysicsFindings(gen: GenParams): seq<Finding> {
    AlphaFindings(gen.alpha) + VarianceFindings(gen.variance) + DistributionFindings(gen.ueClassDistribution) +
    VelocityFindings(gen.velocityAdjustments)
  }

  /** The result of validating `gen` against the scenario of `intent`. */
  function ValidateSpec(gen: GenParams, intent: QueryIntent): ValidationResult {
    var physics := PhysicsFindings(gen);
    var warnings := ScenarioWarnings(ScenarioValue(intent.scenarioType), gen.ueClassDistribution);
    var errors := Messages(physics) + warnings;
    if |physics| > 0 then Failed(errors, FailureReasons(Violations(physics), Issues(warnings), Critical))
    else if |warnings| > 0 then Failed(errors, FailureReasons([], Issues(warnings), Warning))
    else Passed(gen)
  }

  // ---------------------------------------------------------------------------
  // The chain as the program runs it

  lemma FindingsAppend(a: seq<Finding>, b: seq<Finding>)
    ensures Messages(a + b) == Messages(a) + Messages(b)
    ensures Violations(a + b) == Violations(a) + Violations(b)
  {
  }

  /** The body of the loop over `velocity_adjustments`: the two checks of one entry. */
  method CheckEntry(mobilityClass: string, adj: VelocityAdj) returns (errors: seq<Message>, violations: seq<Violation>)
    ensures errors == Messages(EntryFindings(mobilityClass, adj))
    ensures violations == Violations(EntryFindings(mobilityClass, adj))
  {
    errors, violations := [], [];
    var velocity := adj.velocity.GetOr(0.0);
    var velocityCheck := ValidateVelocity(mobilityClass, velocity);
    if velocityCheck.Fail? {
      errors := errors + [velocityCheck.message];
      violations := violations + [Violation("velocity_" + mobilityClass, velocity, SeeVelocityRanges, Critical)];
    }
    var velocityVariance := adj.velocityVariance.GetOr(0.0);
    if velocityVariance < 0.0 {
      errors := errors + [VelocityVarianceNegative(mobilityClass, velocityVariance)];
      violations := violations + [Violation("velocity_variance_" + mobilityClass, velocityVariance, AtLeast(0.0), Critical)];
    }
  }

  /** The loop over `velocity_adjustments`. */
  method CheckVelocities(adjustments: seq<(string, VelocityAdj)>)
    returns (errors: seq<Message>, violations: seq<Violation>)
    ensures errors == Messages(VelocityFindings(adjustments))
    ensures violations == Violations(VelocityFindings(adjustments))
  {
    errors, violations := [], [];
    var i := 0;
    while i < |adjustments|
      invariant 0 <= i <= |adjustments|
      invariant errors == Messages(VelocityFindings(adjustments[..i]))
      invariant violations == Violations(VelocityFindings(adjustments[..i]))
    {
      var (mobilityClass, adj) := adjustments[i];
      var entryErrors, entryViolations := CheckEntry(mobilityClass, adj);
      errors := errors + entryErrors;
      violations := violations + entryViolations;
      assert adjustments[..i + 1][..i] == adjustments[..i];
      assert VelocityFindings(adjustments[..i + 1]) == VelocityFindings(adjustments[..i]) + EntryFindings(mobilityClass, adj);
      FindingsAppend(VelocityFindings(adjustments[..i]), EntryFindings(mobilityClass, adj));
      i := i + 1;
    }
    assert adjustments[..i] == adjustments;
  }

  /** The physics tier: alpha, variance, distribution, then the velocity entries. */
  method CheckPhysics(gen: GenParams) returns (errors: seq<Message>, violations: seq<Violation>)
    ensures errors == Messages(PhysicsFindings(gen)) && violations == Violations(PhysicsFindings(gen))
  {
    errors, violations := [], [];
    var alphaCheck := ValidateAlpha(gen.alpha);
    if alphaCheck.Fail? {
      errors := errors + [alphaCheck.message];
      violations := violations + [Violation("alpha", gen.alpha, Between(0.0, 1.0), Critical)];
    }
    var varianceCheck := ValidateVariance(gen.variance);
    if varianceCheck.Fail? {
      errors := errors + [varianceCheck.message];
      violations := violations + [Violation("variance", gen.variance, AtLeast(0.0), Critical)];
    }
    var distCheck := ValidateDistribution(gen.ueClassDistribution);
    if distCheck.Fail? {
      errors := errors + [distCheck.message];
      violations := violations +
        [Violation("ue_class_distribution", SumReal(Values(gen.ueClassDistribution)), Between(1.0, 1.0), Critical)];
    }
    ghost var fixed := AlphaFindings(gen.alpha) + VarianceFindings(gen.variance) + DistributionFindings(gen.ueClassDistribution);
    assert errors == Messages(fixed) && violations == Violations(fixed);
    var velocityErrors, velocityViolations := CheckVelocities(gen.velocityAdjustments);
    FindingsAppend(fixed, VelocityFindings(gen.velocityAdjustments));
    errors := errors + velocityErrors;
    violations := violations + velocityViolations;
  }

  /** The loop that files each consistency warning as a message and as an issue. */
  method CollectWarnings(physicsErrors: seq<Message>, scenarioWarnings: seq<Message>)
    returns (validationErrors: seq<Message>, consistencyIssues: seq<Issue>)
    ensures validationErrors == physicsErrors + scenarioWarnings && consistencyIssues == Issues(scenarioWarnings)
  {
    validationErrors, consistencyIssues := physicsErrors, [];
    var k := 0;
    while k < |scenarioWarnings|
      invariant 0 <= k <= |scenarioWarnings|
      invariant validationErrors == physicsErrors + scenarioWarnings[..k]
      invariant consistencyIssues == Issues(scenarioWarnings[..k])
    {
      var warning := scenarioWarnings[k];
      validationErrors := validationErrors + [warning];
      consistencyIssues := consistencyIssues + [Issue(SCENARIO_MISMATCH, warning, Warning)];
      assert scenarioWarnings[..k + 1] == scenarioWarnings[..k] + [warning];
      k := k + 1;
    }
    assert scenarioWarnings[..k] == scenarioWarnings;
  }

  method Validate(gen: GenParams, intent: QueryIntent) returns (r: ValidationResult)
    ensures r == ValidateSpec(gen, intent)
  {
    // 1. Physics validation (critical).
    var validationErrors, physicsViolations := CheckPhysics(gen);

    // 2. Consistency validation (warnings).
    var scenarioWarnings := CheckScenarioConsistency(ScenarioValue(intent.scenarioType), gen.ueClassDistribution);
    var consistencyIssues;
    validationErrors, consistencyIssues := CollectWarnings(validationErrors, scenarioWarnings);

    if |physicsViolations| > 0 {
      return Failed(validationErrors, FailureReasons(physicsViolations, consistencyIssues, Critical));
    } else if |consistencyIssues| > 0 {
      return Failed(validationErrors, FailureReasons([], consistencyIssues, Warning));
    } else {
      return Passed(gen);
    }
  }

  // ---------------------------------------------------------------------------
  // Properties

  /** One adjustment entry passes both its checks. */
  predicate EntryClean(mobilityClass: string, adj: VelocityAdj) {
    ValidateVelocity(mobilityClass, adj.velocity.GetOr(0.0)).Pass? && adj.velocityVariance.GetOr(0.0) >= 0.0
  }

  lemma {:induction false} VelocityFindingsEmptyIff(adjustments: seq<(string, VelocityAdj)>)
    ensures |VelocityFindings(adjustments)| == 0 <==>
      forall i :: 0 <= i < |adjustments| ==> EntryClean(adjustments[i].0, adjustments[i].1)
  {
    if |adjustments| > 0 {
      var front := adjustments[..|adjustments| - 1];
      VelocityFindingsEmptyIff(front);
      assert forall i :: 0 <= i < |front| ==> front[i] == adjustments[i];
    }
  }

  /**
   * No physics violation is recorded exactly when alpha lies in [0, 1],
   * variance is non-negative, the distribution check passes and every
   * velocity entry passes both its checks.
   */
  lemma PhysicsCleanIff(gen: GenParams)
    ensures |PhysicsFindings(gen)| == 0 <==>
      && 0.0 <= gen.alpha <= 1.0
      && gen.variance >= 0.0
      && DistributionVerdict(gen.ueClassDistribution).Pass?
      && forall i :: 0 <= i < |gen.velocityAdjustments| ==>
           EntryClean(gen.velocityAdjustments[i].0, gen.velocityAdjustments[i].1)
  {
    VelocityFindingsEmptyIff(gen.velocityAdjustments);
  }

  /**
   * The classification: success exactly when neither tier found anything;
   * any physics violation makes a critical failure that still carries every
   * consistency issue; consistency issues alone make a warning failure with
   * an empty physics list. Every failure lists the physics messages, then the
   * warnings, one message per record.
   */
  lemma Classification(gen: GenParams, intent: QueryIntent)
    ensures var r := ValidateSpec(gen, intent);
      var physics := PhysicsFindings(gen);
      var warnings := ScenarioWarnings(ScenarioValue(intent.scenarioType), gen.ueClassDistribution);
      && (r.Status() == "success" <==> r.Passed?)
      && (r.Passed? <==> |physics| == 0 && |warnings| == 0)
      && (r.Passed? ==> r.validatedParams == gen)
      && (|physics| > 0 ==>
            r.Failed? && r.failureReasons.severity == Critical &&
            r.failureReasons.physicsViolations == Violations(physics) &&
            r.failureReasons.consistencyIssues == Issues(warnings))
      && (|physics| == 0 && |warnings| > 0 ==>
            r.Failed? && r.failureReasons.severity == Warning &&
            r.failureReasons.physicsViolations == [] &&
            r.failureReasons.consistencyIssues == Issues(warnings))
      && (r.Failed? ==>
            r.validationErrors == Messages(physics) + warnings &&
            |r.validationErrors| == |r.failureReasons.physicsViolations| + |r.failureReasons.consistencyIssues|)
  {
  }

  /** The message appended with a violation names the same parameter and value. */
  predicate Describes(f: Finding) {
    var v := f.violation;
    v.severity == Critical &&
    match f.message
    case AlphaOutOfRange(alpha, lo, hi) => v == Violation("alpha", alpha, Between(lo, hi), Critical)
    case VarianceNegative(variance) => v == Violation("variance", variance, AtLeast(0.0), Critical)
    case DistributionSumOff(total) => v == Violation("ue_class_distribution", total, Between(1.0, 1.0), Critical)
    case DistributionEntryOutOfRange(_, _) => v.param == "ue_class_distribution"
    case UnknownMobilityClass(c) => v.param == "velocity_" + c && v.allowedRange == SeeVelocityRanges
    case VelocityOutOfRange(velocity, c, _, _) => v == Violation("velocity_" + c, velocity, SeeVelocityRanges, Critical)
    case VelocityVarianceNegative(c, vv) => v == Violation("velocity_variance_" + c, vv, AtLeast(0.0), Critical)
    case _ => false
  }

  lemma {:induction false} VelocityFindingsDescribed(adjustments: seq<(string, VelocityAdj)>)
    ensures forall f :: f in VelocityFindings(adjustments) ==> Describes(f)
  {
    if |adjustments| > 0 {
      VelocityFindingsDescribed(adjustments[..|adjustments| - 1]);
    }
  }

  /** Every physics record is critical and is described by the message paired with it. */
  lemma PhysicsFindingsDescribed(gen: GenParams)
    ensures forall f :: f in PhysicsFindings(gen) ==> Describes(f)
  {
    VelocityFindingsDescribed(gen.velocityAdjustments);
  }

  /**
   * The findings for the first i adjustment entries open the findings for
   * all of them, so entries are reported in dict order; each entry adds at
   * most two records.
   */
  lemma {:induction false} VelocityFindingsInOrder(adjustments: seq<(string, VelocityAdj)>, i: nat)
    requires i <= |adjustments|
    ensures VelocityFindings(adjustments[..i]) <= VelocityFindings(adjustments)
    ensures |VelocityFindings(adjustments)| <= 2 * |adjustments|
  {
    if |adjustments| > 0 {
      var front := adjustments[..|adjustments| - 1];
      if i < |adjustments| {
        assert adjustments[..i] == front[..i];
        VelocityFindingsInOrder(front, i);
      } else {
        assert adjustments[..i] == adjustments;
        VelocityFindingsInOrder(front, 0);
      }
    }
  }

  /**
   * The alpha record, when present, comes first; the variance record comes
   * before the distribution record, and the distribution record before the
   * velocity records.
   */
  lemma FixedRecordsFirst(gen: GenParams)
    ensures var fs := PhysicsFindings(gen);
      && (!(0.0 <= gen.alpha <= 1.0) ==> fs[0].violation.param == "alpha")
      && (0.0 <= gen.alpha <= 1.0 && gen.variance < 0.0 ==> fs[0].violation.param == "variance")
      && (0.0 <= gen.alpha <= 1.0 && gen.variance >= 0.0 && DistributionVerdict(gen.ueClassDistribution).Fail? ==>
            fs[0] == Finding(DistributionVerdict(gen.ueClassDistribution).message,
              Violation("ue_class_distribution", SumReal(Values(gen.ueClassDistribution)), Between(1.0, 1.0), Critical)))
  {
  }

  /**
   * A pedestrian, cyclist or car entry without a velocity reads as 0, which
   * is outside its range, so its first record is a velocity violation; a
   * stationary entry without a velocity passes.
   */
  lemma MissingVelocityIsViolation(mobilityClass: string, adj: VelocityAdj)
    requires adj.velocity.None?
    ensures mobilityClass in {"pedestrian", "cyclist", "car"} ==>
      |EntryFindings(mobilityClass, adj)| >= 1 &&
      EntryFindings(mobilityClass, adj)[0].violation == Violation("velocity_" + mobilityClass, 0.0, SeeVelocityRanges, Critical)
    ensures mobilityClass == "stationary" ==> ValidateVelocity(mobilityClass, adj.velocity.GetOr(0.0)).Pass?
  {
  }

  /**
   * Both tiers run: on a highway with alpha 1.5 and pedestrians present,
   * the result is a critical failure whose errors hold the alpha message
   * and then the highway warning.
   */
  lemma BothTiersCollected()
    ensures var gen := GenParams(1.5, 0.5, [("pedestrian", 0.2), ("car", 0.8)], []);
      var r := ValidateSpec(gen, QueryIntent(Highway, "A1", 100, 100));
      && r.Failed? && r.failureReasons.severity == Critical
      && r.validationErrors == [AlphaOutOfRange(1.5, 0.0, 1.0), HighwayPedestrians]
      && r.failureReasons.consistencyIssues == [Issue("scenario_mobility_mismatch", HighwayPedestrians, Warning)]
  {
    var dist := [("pedestrian", 0.2), ("car", 0.8)];
    assert Values(dist) == [0.2, 0.8];
    assert SumReal([0.2, 0.8]) == 1.0;
    assert DistributionVerdict(dist) == Pass;
    assert Lookup(dist, "pedestrian") == Some(0.2);
    assert Lookup(dist, "cyclist") == None;
  }
}
