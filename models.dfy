/**
 * The records that flow through the pipeline: the parsed intent, the
 * generated mobility parameters and the resolved location.
 */
module Models {
  import opened Common

  /** The scenario class of a parsed intent. */
  datatype Scenario = Urban | Suburban | Rural | Highway | Mixed

  /** The enum's string value, as handed to the consistency check. */
  function ScenarioValue(s: Scenario): string {
    match s
    case Urban => "urban"
    case Suburban => "suburban"
    case Rural => "rural"
    case Highway => "highway"
    case Mixed => "mixed"
  }

  /** The fields of a parsed intent that the core reads. */
  datatype QueryIntent = QueryIntent(scenarioType: Scenario, location: string, numUes: int, numTicks: int)

  /** One entry of `velocity_adjustments`: either key may be missing. */
  datatype VelocityAdj = VelocityAdj(velocity: Option<real>, velocityVariance: Option<real>)

  /** Generated mobility parameters. */
  datatype GenParams = GenParams(
    alpha: real,
    variance: real,
    ueClassDistribution: Dict<real>,
    velocityAdjustments: Dict<VelocityAdj>)

  /** Geographic bounds of the scenario. */
  datatype LocationData = LocationData(
    centerLat: real, centerLon: real,
    minLat: real, maxLat: real, minLon: real, maxLon: real,
    areaType: string)
}
