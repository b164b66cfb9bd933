/**
 * Conversion of generated mobility parameters into the simulator's
 * UE-tracks-generation record: per-class UE counts by largest-remainder
 * (Hamilton) apportionment, a fixed four-class distribution with defaults,
 * the copied boundaries and the fixed Gauss-Markov constants.
 *
 * Fractions and products are exact reals; Python's `int()` of a float is
 * truncation toward zero.
 */
module RadpFormatter {
  import opened Common
  import opened Models
  import opened StableSort
  import Validators

  /** The classes the output always lists, in this order. */
  const CANONICAL_CLASSES: seq<string> := ["stationary", "pedestrian", "cyclist", "car"]
  const RNG_SEED: int := 42
  const LON_X_DIMS: int := 100
  const LON_Y_DIMS: int := 100
  const SIMULATION_DURATION: int := 3600
  const SIMULATION_TIME_INTERVAL_SECONDS: real := 0.01
  const NUM_BATCHES: int := 1

  /** Indexing past the end of the sorted class list raises IndexError. */
  datatype FormatError = IndexError

  /** One class of the emitted distribution. */
  datatype ClassRecord = ClassRecord(count: int, velocity: real, velocityVariance: real)

  datatype Boundaries = Boundaries(minLat: real, maxLat: real, minLon: real, maxLon: real)

  datatype GaussMarkovParams = GaussMarkovParams(
    alpha: real, variance: real, rngSeed: int, lonXDims: int, lonYDims: int)

  /** The `params` record nested under `ue_tracks_generation`. */
  datatype RadpParams = RadpParams(
    simulationDuration: int,
    simulationTimeIntervalSeconds: real,
    numTicks: int,
    numBatches: int,
    ueClassDistribution: seq<(string, ClassRecord)>,
    latLonBoundaries: Boundaries,
    gaussMarkovParams: GaussMarkovParams)

  /** Python's `int(x)` on a float: truncation toward zero. */
  function Trunc(x: real): (r: int)
    ensures x >= 0.0 ==> r == x.Floor
    ensures x >= 0.0 ==> r as real <= x < r as real + 1.0
    ensures x < 0.0 ==> x <= r as real < x + 1.0
  {
    if x >= 0.0 then x.Floor else -((-x).Floor)
  }

  // ---------------------------------------------------------------------------
  // The apportionment, stated declaratively

  /** `num_ues * percentage`. */
  function ExactCount(numUes: int, percentage: real): real {
    numUes as real * percentage
  }

  /** `int(num_ues * percentage)` for each entry, in distribution order. */
  function BaseCounts(numUes: int, dist: seq<(string, real)>): (r: seq<int>)
    ensures |r| == |dist|
    ensures forall i :: 0 <= i < |dist| ==> r[i] == Trunc(ExactCount(numUes, dist[i].1))
  {
    seq(|dist|, i requires 0 <= i < |dist| => Trunc(ExactCount(numUes, dist[i].1)))
  }

  /** `exact_count - int(exact_count)` for each entry. */
  function Fractions(numUes: int, dist: seq<(string, real)>): (r: seq<real>)
    ensures |r| == |dist|
  {
    seq(|dist|, i requires 0 <= i < |dist| =>
      ExactCount(numUes, dist[i].1) - Trunc(ExactCount(numUes, dist[i].1)) as real)
  }

  /** `num_ues - sum(base counts)`. */
  function Shortfall(numUes: int, dist: seq<(string, real)>): int {
    numUes - SumInt(BaseCounts(numUes, dist))
  }

  /** A shortfall r > 0: a class gets one more UE exactly when fewer than r classes precede it in the descending stable order. */
  function WithShortfall(base: seq<int>, fracs: seq<real>, remaining: int): (r: seq<int>)
    requires |base| == |fracs|
    ensures |r| == |base|
  {
    seq(|base|, c requires 0 <= c < |base| => base[c] + (if Rank(fracs, true, c) < remaining then 1 else 0))
  }

  /**
   * A surplus s > 0: a class loses one UE exactly when fewer than s classes
   * precede it in the ascending stable order and its count is positive.
   */
  function WithSurplus(base: seq<int>, fracs: seq<real>, surplus: int): (r: seq<int>)
    requires |base| == |fracs|
    ensures |r| == |base|
  {
    seq(|base|, c requires 0 <= c < |base| => base[c] - (if Rank(fracs, false, c) < surplus && base[c] > 0 then 1 else 0))
  }

  /**
   * The counts after adjustment. A shortfall or surplus larger than the
   * number of classes runs off the end of the sorted list.
   */
  function Apportion(numUes: int, dist: seq<(string, real)>): Result<seq<int>, FormatError> {
    var base := BaseCounts(numUes, dist);
    var fracs := Fractions(numUes, dist);
    var remaining := Shortfall(numUes, dist);
    if remaining > |dist| || -remaining > |dist| then Failure(IndexError)
    else if remaining > 0 then Success(WithShortfall(base, fracs, remaining))
    else if remaining < 0 then Success(WithSurplus(base, fracs, -remaining))
    else Success(base)
  }

  /** The `ue_class_counts` dict: the distribution's keys with their counts. */
  function CountsDict(dist: Dict<real>, counts: seq<int>): (r: Dict<int>)
    requires |counts| == |dist|
    ensures Keys(r) == Keys(dist) && Values(r) == counts
  {
    var r := seq(|dist|, i requires 0 <= i < |dist| => (dist[i].0, counts[i]));
    assert forall i, j :: 0 <= i < j < |r| ==> r[i].0 == dist[i].0 && r[j].0 == dist[j].0;
    r
  }

  /** The emitted record for one canonical class, with the defaults for a missing entry. */
  function ClassRecordFor(cls: string, counts: Dict<int>, velocityAdj: Dict<VelocityAdj>): ClassRecord {
    var adj := Lookup(velocityAdj, cls).GetOr(VelocityAdj(Some(0.0), Some(0.0)));
    ClassRecord(Lookup(counts, cls).GetOr(0), adj.velocity.GetOr(0.0), adj.velocityVariance.GetOr(0.0))
  }

  function ClassDistribution(counts: Dict<int>, velocityAdj: Dict<VelocityAdj>): seq<(string, ClassRecord)> {
    seq(4, k requires 0 <= k < 4 =>
      (CANONICAL_CLASSES[k], ClassRecordFor(CANONICAL_CLASSES[k], counts, velocityAdj)))
  }

  /** The whole conversion. */
  function FormatSpec(genParams: GenParams, locationData: LocationData, queryIntent: QueryIntent): Result<RadpParams, FormatError> {
    var dist := genParams.ueClassDistribution;
    match Apportion(queryIntent.numUes, dist)
    case Failure(e) => Failure(e)
    case Success(counts) =>
      Success(RadpParams(
        SIMULATION_DURATION,
        SIMULATION_TIME_INTERVAL_SECONDS,
        queryIntent.numTicks,
        NUM_BATCHES,
        ClassDistribution(CountsDict(dist, counts), genParams.velocityAdjustments),
        Boundaries(locationData.minLat, locationData.maxLat, locationData.minLon, locationData.maxLon),
        GaussMarkovParams(genParams.alpha, genParams.variance, RNG_SEED, LON_X_DIMS, LON_Y_DIMS)))
  }

  // ---------------------------------------------------------------------------
  // The conversion as the program performs it

  /** The rank of the entry at index k of a sorted order is k, and no other entry has that rank. */
  lemma RankStep(keys: seq<real>, desc: bool, k: nat)
    requires k < |keys|
    ensures SortedOrder(keys, desc)[k] < |keys|
    ensures Rank(keys, desc, SortedOrder(keys, desc)[k]) == k
    ensures forall c :: 0 <= c < |keys| && Rank(keys, desc, c) == k ==> c == SortedOrder(keys, desc)[k]
  {
    var order := SortedOrder(keys, desc);
    SortIndicesSorted(keys, desc, |keys|);
    RankIsPosition(keys, desc, order, k);
    forall c | 0 <= c < |keys| && Rank(keys, desc, c) == k ensures c == order[k] {
      RankInverse(keys, desc, c);
    }
  }

  /** The first loop: `int(exact_count)` and its fractional part for each entry. */
  method SplitCounts(numUes: int, dist: seq<(string, real)>) returns (counts: seq<int>, fracs: seq<real>)
    ensures counts == BaseCounts(numUes, dist) && fracs == Fractions(numUes, dist)
  {
    ghost var base := BaseCounts(numUes, dist);
    ghost var parts := Fractions(numUes, dist);
    counts, fracs := [], [];
    var i := 0;
    while i < |dist|
      invariant 0 <= i <= |dist|
      invariant counts == base[..i] && fracs == parts[..i]
    {
      var exactCount := ExactCount(numUes, dist[i].1);
      counts := counts + [Trunc(exactCount)];
      fracs := fracs + [exactCount - Trunc(exactCount) as real];
      assert base[..i + 1] == base[..i] + [base[i]];
      assert parts[..i + 1] == parts[..i] + [parts[i]];
      i := i + 1;
    }
    assert counts == base && fracs == parts;
  }

  /** The `+= 1` loop over the classes sorted by fractional part, largest first. */
  method AddShortfall(base: seq<int>, fracs: seq<real>, remaining: int) returns (r: Result<seq<int>, FormatError>)
    requires |base| == |fracs| && remaining > 0
    ensures r == if remaining > |base| then Failure(IndexError) else Success(WithShortfall(base, fracs, remaining))
  {
    var sortedClasses := SortedOrder(fracs, true);
    var counts := base;
    var k := 0;
    while k < remaining
      invariant 0 <= k <= remaining && k <= |base|
      invariant |counts| == |base|
      invariant forall c :: 0 <= c < |base| ==> counts[c] == base[c] + (if Rank(fracs, true, c) < k then 1 else 0)
    {
      if k >= |sortedClasses| {
        return Failure(IndexError);
      }
      RankStep(fracs, true, k);
      var cls := sortedClasses[k];
      counts := counts[cls := counts[cls] + 1];
      k := k + 1;
    }
    assert counts == WithShortfall(base, fracs, remaining);
    return Success(counts);
  }

  /** The `-= 1` loop over the classes sorted by fractional part, smallest first. */
  method RemoveSurplus(base: seq<int>, fracs: seq<real>, surplus: int) returns (r: Result<seq<int>, FormatError>)
    requires |base| == |fracs| && surplus > 0
    ensures r == if surplus > |base| then Failure(IndexError) else Success(WithSurplus(base, fracs, surplus))
  {
    var sortedClasses := SortedOrder(fracs, false);
    var counts := base;
    var k := 0;
    while k < surplus
      invariant 0 <= k <= surplus && k <= |base|
      invariant |counts| == |base|
      invariant forall c :: 0 <= c < |base| ==>
        counts[c] == base[c] - (if Rank(fracs, false, c) < k && base[c] > 0 then 1 else 0)
    {
      if k >= |sortedClasses| {
        return Failure(IndexError);
      }
      RankStep(fracs, false, k);
      var cls := sortedClasses[k];
      if counts[cls] > 0 {
        counts := counts[cls := counts[cls] - 1];
      }
      k := k + 1;
    }
    assert counts == WithSurplus(base, fracs, surplus);
    return Success(counts);
  }

  /** The loop that fills the four-class distribution. */
  method EmitClasses(counts: Dict<int>, velocityAdj: Dict<VelocityAdj>) returns (classDist: seq<(string, ClassRecord)>)
    ensures classDist == ClassDistribution(counts, velocityAdj)
  {
    classDist := [];
    for k := 0 to 4
      invariant classDist == ClassDistribution(counts, velocityAdj)[..k]
    {
      var cls := CANONICAL_CLASSES[k];
      var adj := Lookup(velocityAdj, cls).GetOr(VelocityAdj(Some(0.0), Some(0.0)));
      var record := ClassRecord(Lookup(counts, cls).GetOr(0), adj.velocity.GetOr(0.0), adj.velocityVariance.GetOr(0.0));
      classDist := classDist + [(cls, record)];
    }
    assert classDist == ClassDistribution(counts, velocityAdj);
  }

  method FormatToRadp(genParams: GenParams, locationData: LocationData, queryIntent: QueryIntent)
    returns (r: Result<RadpParams, FormatError>)
    ensures r == FormatSpec(genParams, locationData, queryIntent)
  {
    var dist := genParams.ueClassDistribution;
    var numUes := queryIntent.numUes;
    var counts, fracs := SplitCounts(numUes, dist);
    var remaining := numUes - SumInt(counts);
    if remaining > 0 {
      var adjusted := AddShortfall(counts, fracs, remaining);
      if adjusted.Failure? {
        return Failure(adjusted.error);
      }
      counts := adjusted.value;
    } else if remaining < 0 {
      var adjusted := RemoveSurplus(counts, fracs, -remaining);
      if adjusted.Failure? {
        return Failure(adjusted.error);
      }
      counts := adjusted.value;
    }
    assert Apportion(numUes, dist) == Success(counts);

    var classDist := EmitClasses(CountsDict(dist, counts), genParams.velocityAdjustments);
    var boundaries := Boundaries(locationData.minLat, locationData.maxLat, locationData.minLon, locationData.maxLon);
    var gaussMarkov := GaussMarkovParams(genParams.alpha, genParams.variance, RNG_SEED, LON_X_DIMS, LON_Y_DIMS);
    return Success(RadpParams(
      SIMULATION_DURATION, SIMULATION_TIME_INTERVAL_SECONDS, queryIntent.numTicks, NUM_BATCHES,
      classDist, boundaries, gaussMarkov));
  }

  // ---------------------------------------------------------------------------
  // Properties of the apportionment

  /** With non-negative inputs the base count is the floor and the fractional part lies in [0, 1). */
  lemma BaseAndFraction(numUes: int, dist: seq<(string, real)>, i: nat)
    requires numUes >= 0 && i < |dist| && dist[i].1 >= 0.0
    ensures BaseCounts(numUes, dist)[i] == (numUes as real * dist[i].1).Floor
    ensures 0.0 <= Fractions(numUes, dist)[i] < 1.0
    ensures BaseCounts(numUes, dist)[i] as real + Fractions(numUes, dist)[i] == numUes as real * dist[i].1
  {
    assert numUes as real * dist[i].1 >= 0.0;
  }

  /** Each class's exact share splits into its floor and its fractional part. */
  lemma {:induction false} SharesSplit(numUes: int, dist: seq<(string, real)>)
    requires numUes >= 0 && forall i :: 0 <= i < |dist| ==> dist[i].1 >= 0.0
    ensures forall i :: 0 <= i < |dist| ==> 0.0 <= Fractions(numUes, dist)[i] < 1.0
    ensures forall i :: 0 <= i < |dist| ==>
      numUes as real * dist[i].1 == BaseCounts(numUes, dist)[i] as real + Fractions(numUes, dist)[i]
  {
    forall i | 0 <= i < |dist|
      ensures 0.0 <= Fractions(numUes, dist)[i] < 1.0
      ensures numUes as real * dist[i].1 == BaseCounts(numUes, dist)[i] as real + Fractions(numUes, dist)[i]
    {
      BaseAndFraction(numUes, dist, i);
    }
  }

  /** Exact shares summing to n, split into integer floors and fractions in [0, 1), leave a shortfall in [0, #shares). */
  lemma ShortfallArith(n: int, exact: seq<real>, base: seq<int>, fracs: seq<real>)
    requires 0 < |exact| == |base| == |fracs| && SumReal(exact) == n as real
    requires forall i :: 0 <= i < |fracs| ==> 0.0 <= fracs[i] < 1.0
    requires forall i :: 0 <= i < |exact| ==> exact[i] == base[i] as real + fracs[i]
    ensures 0 <= n - SumInt(base) < |exact|
  {
    var baseReal := seq(|base|, i requires 0 <= i < |base| => base[i] as real);
    SumRealPointwise(baseReal, fracs, exact);
    SumIntAsReal(base, baseReal);
    SumRealUnitBounds(fracs);
    var d := n - SumInt(base);
    assert d as real == SumReal(fracs);
  }

  /** The exact (unrounded) UE counts, `num_ues * fraction` per class. */
  function ExactShares(numUes: int, dist: seq<(string, real)>): (r: seq<real>)
    ensures |r| == |dist|
  {
    seq(|dist|, i requires 0 <= i < |dist| => numUes as real * dist[i].1)
  }

  /** Fractions that are non-negative and sum to 1 leave a shortfall in [0, #classes). */
  lemma ShortfallBounds(numUes: int, dist: seq<(string, real)>)
    requires numUes >= 0 && forall i :: 0 <= i < |dist| ==> dist[i].1 >= 0.0
    requires SumReal(Values(dist)) == 1.0
    ensures 0 <= Shortfall(numUes, dist) < |dist|
  {
    var k := numUes as real;
    var exact := ExactShares(numUes, dist);
    SumRealScale(k, Values(dist), exact);
    assert SumReal(exact) == k by {
      assert k * SumReal(Values(dist)) == k * 1.0;
    }
    SharesSplit(numUes, dist);
    assert |dist| > 0;
    ShortfallArith(numUes, exact, BaseCounts(numUes, dist), Fractions(numUes, dist));
  }

  /** The 0/1 bonus column of the shortfall adjustment, over the first m classes. */
  function Bonus(fracs: seq<real>, remaining: int, m: nat): (r: seq<int>)
    requires m <= |fracs|
    ensures |r| == m
  {
    seq(m, c requires 0 <= c < m => if Rank(fracs, true, c) < remaining then 1 else 0)
  }

  /** The classes among the first m whose rank earns a bonus. */
  function Winners(fracs: seq<real>, remaining: int, m: nat): set<nat>
    requires m <= |fracs|
  {
    set c | 0 <= c < m && Rank(fracs, true, c) < remaining
  }

  lemma WinnersSnoc(fracs: seq<real>, remaining: int, m: nat)
    requires 0 < m <= |fracs|
    ensures Winners(fracs, remaining, m)
      == Winners(fracs, remaining, m - 1) + (if Rank(fracs, true, m - 1) < remaining then {m - 1} else {})
    ensures m - 1 !in Winners(fracs, remaining, m - 1)
  {
  }

  lemma {:induction false} BonusSum(fracs: seq<real>, remaining: int, m: nat)
    requires m <= |fracs|
    ensures SumInt(Bonus(fracs, remaining, m)) == |Winners(fracs, remaining, m)|
  {
    if m > 0 {
      BonusSum(fracs, remaining, m - 1);
      assert Bonus(fracs, remaining, m)[..m - 1] == Bonus(fracs, remaining, m - 1);
      WinnersSnoc(fracs, remaining, m);
    }
  }

  /** Handing out a shortfall r <= #classes adds exactly r UEs in all. */
  lemma ShortfallSum(base: seq<int>, fracs: seq<real>, remaining: int)
    requires |base| == |fracs| && 0 <= remaining <= |base|
    ensures SumInt(WithShortfall(base, fracs, remaining)) == SumInt(base) + remaining
  {
    SumIntPointwise(base, Bonus(fracs, remaining, |fracs|), WithShortfall(base, fracs, remaining));
    BonusSum(fracs, remaining, |fracs|);
    CountRanksBelow(fracs, true, remaining);
    assert Winners(fracs, remaining, |fracs|) == set c | 0 <= c < |fracs| && Rank(fracs, true, c) < remaining;
  }

  /**
   * Largest remainder: when the fractions are non-negative and sum to 1, no
   * IndexError arises, no count is negative, and the counts add up to
   * exactly `num_ues`.
   */
  lemma ApportionExact(numUes: int, dist: seq<(string, real)>)
    requires numUes >= 0 && forall i :: 0 <= i < |dist| ==> dist[i].1 >= 0.0
    requires SumReal(Values(dist)) == 1.0
    ensures Apportion(numUes, dist).Success?
    ensures SumInt(Apportion(numUes, dist).value) == numUes
    ensures forall c :: 0 <= c < |dist| ==> Apportion(numUes, dist).value[c] >= 0
  {
    ShortfallBounds(numUes, dist);
    var base := BaseCounts(numUes, dist);
    forall c | 0 <= c < |dist| ensures base[c] >= 0 {
      BaseAndFraction(numUes, dist, c);
    }
    ShortfallSum(base, Fractions(numUes, dist), Shortfall(numUes, dist));
  }

  /**
   * Exactly the first `remaining` classes of the descending stable sort get
   * one more UE, and each gets at most one.
   */
  lemma ShortfallGoesToSortedPrefix(base: seq<int>, fracs: seq<real>, remaining: int, c: nat)
    requires |base| == |fracs| && 0 <= remaining <= |base| && c < |base|
    ensures WithShortfall(base, fracs, remaining)[c] == base[c] + 1 <==> c in SortedOrder(fracs, true)[..remaining]
    ensures WithShortfall(base, fracs, remaining)[c] == base[c] || WithShortfall(base, fracs, remaining)[c] == base[c] + 1
  {
    var order := SortedOrder(fracs, true);
    SortIndicesSorted(fracs, true, |fracs|);
    RankInverse(fracs, true, c);
    if c in order[..remaining] {
      var p :| 0 <= p < remaining && order[p] == c;
      RankIsPosition(fracs, true, order, p);
    }
  }

  /**
   * Tie-breaking: a class that gets the extra UE while another does not has
   * a larger fractional part, or an equal one and an earlier position in the
   * distribution.
   */
  lemma LargestRemaindersWin(base: seq<int>, fracs: seq<real>, remaining: int, c: nat, d: nat)
    requires |base| == |fracs| && c < |base| && d < |base|
    requires WithShortfall(base, fracs, remaining)[c] == base[c] + 1
    requires WithShortfall(base, fracs, remaining)[d] == base[d]
    ensures fracs[c] > fracs[d] || (fracs[c] == fracs[d] && c < d)
  {
    RankOrder(fracs, true, c, d);
  }

  /**
   * Removing a surplus never takes a class below zero, takes at most one UE
   * from a class, and takes one exactly from the positive classes among the
   * first `surplus` of the ascending stable sort.
   */
  lemma SurplusNeverNegative(base: seq<int>, fracs: seq<real>, surplus: int, c: nat)
    requires |base| == |fracs| && 0 <= surplus <= |base| && c < |base|
    ensures base[c] >= 0 ==> WithSurplus(base, fracs, surplus)[c] >= 0
    ensures WithSurplus(base, fracs, surplus)[c] == base[c] - 1 <==>
      base[c] > 0 && c in SortedOrder(fracs, false)[..surplus]
    ensures WithSurplus(base, fracs, surplus)[c] == base[c] || WithSurplus(base, fracs, surplus)[c] == base[c] - 1
  {
    var order := SortedOrder(fracs, false);
    SortIndicesSorted(fracs, false, |fracs|);
    RankInverse(fracs, false, c);
    if c in order[..surplus] {
      var p :| 0 <= p < surplus && order[p] == c;
      RankIsPosition(fracs, false, order, p);
    }
  }

  // ---------------------------------------------------------------------------
  // Properties of the emitted record

  /**
   * The emitted distribution lists exactly the four canonical classes in
   * order; a class missing from the distribution gets count 0, a class
   * missing from the velocity adjustments gets velocity and variance 0, and
   * a class present in the distribution carries its apportioned count. The
   * boundaries are copied, `num_ticks` comes from the intent and the other
   * settings are the fixed constants.
   */
  lemma FormatShape(genParams: GenParams, locationData: LocationData, queryIntent: QueryIntent)
    requires FormatSpec(genParams, locationData, queryIntent).Success?
    ensures var p := FormatSpec(genParams, locationData, queryIntent).value;
      var dist := genParams.ueClassDistribution;
      var counts := Apportion(queryIntent.numUes, dist).value;
      && Keys(p.ueClassDistribution) == ["stationary", "pedestrian", "cyclist", "car"]
      && (forall k :: 0 <= k < 4 && Lookup(dist, CANONICAL_CLASSES[k]).None? ==>
            p.ueClassDistribution[k].1.count == 0)
      && (forall k :: 0 <= k < 4 && Lookup(genParams.velocityAdjustments, CANONICAL_CLASSES[k]).None? ==>
            p.ueClassDistribution[k].1.velocity == 0.0 && p.ueClassDistribution[k].1.velocityVariance == 0.0)
      && (forall k, i :: 0 <= k < 4 && 0 <= i < |dist| && dist[i].0 == CANONICAL_CLASSES[k] ==>
            p.ueClassDistribution[k].1.count == counts[i])
      && p.latLonBoundaries == Boundaries(locationData.minLat, locationData.maxLat, locationData.minLon, locationData.maxLon)
      && p.numTicks == queryIntent.numTicks
      && p.gaussMarkovParams == GaussMarkovParams(genParams.alpha, genParams.variance, 42, 100, 100)
      && p.simulationDuration == 3600 && p.simulationTimeIntervalSeconds == 0.01 && p.numBatches == 1
  {
    var dist := genParams.ueClassDistribution;
    var counts := Apportion(queryIntent.numUes, dist).value;
    var cd := CountsDict(dist, counts);
    forall k, i | 0 <= k < 4 && 0 <= i < |dist| && dist[i].0 == CANONICAL_CLASSES[k]
      ensures Lookup(cd, CANONICAL_CLASSES[k]) == Some(counts[i])
    {
      LookupAt(cd, i);
    }
    forall k | 0 <= k < 4 && Lookup(dist, CANONICAL_CLASSES[k]).None?
      ensures Lookup(cd, CANONICAL_CLASSES[k]).None?
    {
    }
  }

  /** The emitted counts, in canonical order. */
  function EmittedCounts(p: RadpParams): seq<int> {
    seq(|p.ueClassDistribution|, k requires 0 <= k < |p.ueClassDistribution| => p.ueClassDistribution[k].1.count)
  }

  /**
   * When every key of a well-formed distribution is one of the four
   * canonical classes, the emitted counts add up to exactly `num_ues`.
   */
  lemma EmittedSumExact(genParams: GenParams, locationData: LocationData, queryIntent: QueryIntent)
    requires queryIntent.numUes >= 0
    requires forall i :: 0 <= i < |genParams.ueClassDistribution| ==>
      genParams.ueClassDistribution[i].1 >= 0.0 && genParams.ueClassDistribution[i].0 in CANONICAL_CLASSES
    requires SumReal(Values(genParams.ueClassDistribution)) == 1.0
    ensures FormatSpec(genParams, locationData, queryIntent).Success?
    ensures SumInt(EmittedCounts(FormatSpec(genParams, locationData, queryIntent).value)) == queryIntent.numUes
  {
    var dist := genParams.ueClassDistribution;
    ApportionExact(queryIntent.numUes, dist);
    var counts := Apportion(queryIntent.numUes, dist).value;
    var cd := CountsDict(dist, counts);
    SumLookups(CANONICAL_CLASSES, cd);
    assert EmittedCounts(FormatSpec(genParams, locationData, queryIntent).value) == LookupsOrZero(CANONICAL_CLASSES, cd);
  }

  // ---------------------------------------------------------------------------
  // Worked cases

  /** A tie on the fractional part goes to the class inserted first. */
  lemma TieGoesToFirstInserted()
    ensures Apportion(1, [("car", 0.5), ("pedestrian", 0.5)]) == Success([1, 0])
  {
    var dist := [("car", 0.5), ("pedestrian", 0.5)];
    var fracs := Fractions(1, dist);
    assert BaseCounts(1, dist) == [0, 0];
    assert fracs == [0.5, 0.5];
    assert SumInt([0, 0]) == 0;
    assert SortedBy(fracs, true, [0, 1]) && CoversRange([0, 1], 2);
    RankIsPosition(fracs, true, [0, 1], 0);
    RankIsPosition(fracs, true, [0, 1], 1);
    assert Shortfall(1, dist) == 1;
    assert WithShortfall([0, 0], fracs, 1) == [1, 0];
  }

  /**
   * A class outside the four canonical names is counted but not emitted:
   * half of ten UEs as "bus" leaves an emitted total of five.
   */
  lemma DroppedClassLosesUes()
    ensures var gen := GenParams(0.5, 0.5, [("stationary", 0.5), ("bus", 0.5)], []);
      var intent := QueryIntent(Urban, "x", 10, 100);
      var loc := LocationData(0.0, 0.0, -1.0, 1.0, -1.0, 1.0, "urban");
      && FormatSpec(gen, loc, intent).Success?
      && EmittedCounts(FormatSpec(gen, loc, intent).value) == [5, 0, 0, 0]
      && SumInt(EmittedCounts(FormatSpec(gen, loc, intent).value)) == 5
  {
    var dist := [("stationary", 0.5), ("bus", 0.5)];
    HalfHalfApportion();
    HalfHalfLookups();
    var gen := GenParams(0.5, 0.5, dist, []);
    var intent := QueryIntent(Urban, "x", 10, 100);
    var loc := LocationData(0.0, 0.0, -1.0, 1.0, -1.0, 1.0, "urban");
    assert FormatSpec(gen, loc, intent).value.ueClassDistribution == ClassDistribution(CountsDict(dist, [5, 5]), []);
    SumIntSingleton([5, 0, 0, 0], 0);
  }

  lemma HalfHalfApportion()
    ensures Apportion(10, [("stationary", 0.5), ("bus", 0.5)]) == Success([5, 5])
  {
    assert BaseCounts(10, [("stationary", 0.5), ("bus", 0.5)]) == [5, 5];
    assert SumInt([5, 5]) == 10;
  }

  lemma HalfHalfLookups()
    ensures var cd := CountsDict([("stationary", 0.5), ("bus", 0.5)], [5, 5]);
      && Lookup(cd, "stationary") == Some(5)
      && Lookup(cd, "pedestrian") == None
      && Lookup(cd, "cyclist") == None
      && Lookup(cd, "car") == None
  {
  }


  /**
   * A distribution inside the validator's 0.01 tolerance can still leave a
   * surplus larger than the number of classes: 0.505 + 0.5 of 1000 UEs
   * allocates 1005, and removing five from two classes indexes past the end.
   */
  lemma SurplusBeyondClassesFails()
    ensures Validators.DistributionVerdict([("car", 0.505), ("pedestrian", 0.5)]).Pass?
    ensures Apportion(1000, [("car", 0.505), ("pedestrian", 0.5)]) == Failure(IndexError)
  {
    var dist := [("car", 0.505), ("pedestrian", 0.5)];
    assert Values(dist) == [0.505, 0.5];
    assert SumReal([0.505, 0.5]) == 1.005;
    assert BaseCounts(1000, dist) == [505, 500];
    assert SumInt([505, 500]) == 1005;
  }
}
