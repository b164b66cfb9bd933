/**
 * The location-resolver node: geocodes the intent's location, falling back
 * to a fixed box around (0, 0) when the geocoder finds nothing.
 */
module LocationResolver {
  import opened Common
  import opened Models
  import opened State

  /** The node's update: the `location_data` key and nothing else. */
  datatype LocationUpdate = LocationUpdate(locationData: LocationData)

  /** The ValueError raised when the intent has not been parsed yet. */
  datatype NodeError = MissingQueryIntent

  /** The fallback bounds. */
  const DEFAULT_LOCATION: LocationData := LocationData(0.0, 0.0, -0.05, 0.05, -0.05, 0.05, "urban")

  /**
   * `geocode` is the geocoding service's answer for a location string.
   * A missing intent is an error; otherwise the update holds the geocoded
   * bounds, or the fallback box when there are none.
   */
  function LocationResolverNode(state: PipelineState, geocode: string -> Option<LocationData>): (r: Result<LocationUpdate, NodeError>)
    reads state
    ensures r.Failure? <==> state.queryIntent.None?
    ensures r.Success? && geocode(state.queryIntent.value.location).Some? ==>
      r.value.locationData == geocode(state.queryIntent.value.location).value
    ensures r.Success? && geocode(state.queryIntent.value.location).None? ==>
      var d := r.value.locationData;
      d.centerLat == 0.0 && d.centerLon == 0.0 && d.areaType == "urban" &&
      d.minLat == -0.05 && d.maxLat == 0.05 && d.minLon == -0.05 && d.maxLon == 0.05
  {
    match state.queryIntent
    case None => Failure(MissingQueryIntent)
    case Some(intent) =>
      match geocode(intent.location)
      case None => Success(LocationUpdate(DEFAULT_LOCATION))
      case Some(data) => Success(LocationUpdate(data))
  }
}
