/**
 * The deterministic parts of geocoding: the area-type decision table, the
 * bounding-box arithmetic and the cache-first lookup around the geocoder.
 */
module Geocoding {
  import opened Common
  import opened Models
  import opened Cache

  /** Kilometres per degree of latitude. */
  const KM_PER_DEGREE: real := 111.0

  /**
   * The area type read off the keys of the address details: a city or a
   * town is urban when it also names a district or neighbourhood and
   * suburban otherwise; a village or hamlet is rural; anything else is
   * suburban.
   */
  function InferAreaType(address: set<string>): (r: string)
    ensures r in {"urban", "suburban", "rural"}
    ensures r == "urban" <==>
      ("city" in address || "town" in address) && ("city_district" in address || "neighbourhood" in address)
    ensures r == "rural" <==>
      !("city" in address || "town" in address) && ("village" in address || "hamlet" in address)
  {
    if "city" in address || "town" in address then
      if "city_district" in address || "neighbourhood" in address then "urban" else "suburban"
    else if "village" in address || "hamlet" in address then "rural"
    else "suburban"
  }

  /** Address details with none of the recognised keys give "suburban". */
  lemma UnrecognisedAddressIsSuburban(address: set<string>)
    requires forall k :: k in address ==> k !in {"city", "town", "city_district", "neighbourhood", "village", "hamlet"}
    ensures InferAreaType(address) == "suburban"
  {
  }

  /** The latitude bounds: `km / 111` degrees either side of the centre. */
  function LatBounds(lat: real, boundsSizeKm: real): (r: (real, real))
    ensures r.0 == lat - boundsSizeKm / 111.0 && r.1 == lat + boundsSizeKm / 111.0
    ensures (r.0 + r.1) / 2.0 == lat && r.1 - r.0 == 2.0 * boundsSizeKm / 111.0
    ensures boundsSizeKm > 0.0 ==> r.0 < lat < r.1
  {
    (lat - boundsSizeKm / KM_PER_DEGREE, lat + boundsSizeKm / KM_PER_DEGREE)
  }

  /** The geocoder's answer: a hit with coordinates and address keys, no hit, or a timeout or service error. */
  datatype GeocoderAnswer = Found(latitude: real, longitude: real, address: set<string>) | NotFound | ServiceError

  /** The key `f"{location}_{bounds_size_km}"`; `boundsText` is the number as Python prints it. */
  function CacheKey(location: string, boundsText: string): string {
    location + "_" + boundsText
  }

  /**
   * The record built from a hit. `lonOffset` is the longitude half-width,
   * `km / (111 |cos(lat)|)`, whose trigonometry is an input here.
   */
  function BuildLocation(answer: GeocoderAnswer, boundsSizeKm: real, lonOffset: real): LocationData
    requires answer.Found?
  {
    var (minLat, maxLat) := LatBounds(answer.latitude, boundsSizeKm);
    LocationData(answer.latitude, answer.longitude, minLat, maxLat,
      answer.longitude - lonOffset, answer.longitude + lonOffset, InferAreaType(answer.address))
  }

  /**
   * A live cache entry under the key is returned without asking the
   * geocoder. Otherwise no hit and a service error both give None and store
   * nothing, and a hit gives the built record, which is stored under the
   * same key. Without a cache only the geocoder is consulted. `now` is the
   * clock read by the cache lookup and `storedAt` the later one read when
   * the record is stored.
   */
  method GeocodeLocation(
    cache: SimpleCache?<LocationData>,
    location: string,
    boundsSizeKm: real,
    boundsText: string,
    answer: GeocoderAnswer,
    lonOffset: real,
    now: real,
    storedAt: real)
    returns (r: Option<LocationData>)
    modifies cache
    ensures var key := CacheKey(location, boundsText);
      cache != null && key in old(cache.entries) && !IsExpired(cache.ttl, old(cache.entries)[key].1, now) ==>
        r == Some(old(cache.entries)[key].0) && cache.entries == old(cache.entries)
    ensures var key := CacheKey(location, boundsText);
      (cache == null || key !in old(cache.entries) || IsExpired(cache.ttl, old(cache.entries)[key].1, now)) ==>
        && (answer.Found? ==> r == Some(BuildLocation(answer, boundsSizeKm, lonOffset)))
        && (!answer.Found? ==> r.None?)
        && (cache != null && answer.Found? ==>
              cache.entries == (old(cache.entries) - {key})[key := (r.value, storedAt)])
        && (cache != null && !answer.Found? ==> cache.entries == old(cache.entries) - {key})
  {
    var key := CacheKey(location, boundsText);
    if cache != null {
      var cached := cache.Get(key, now);
      if cached.Some? {
        return cached;
      }
    }
    if !answer.Found? {
      return None;
    }
    var lat := answer.latitude;
    var lon := answer.longitude;
    var latOffset := boundsSizeKm / KM_PER_DEGREE;
    var result := LocationData(lat, lon, lat - latOffset, lat + latOffset, lon - lonOffset, lon + lonOffset,
      InferAreaType(answer.address));
    if cache != null {
      cache.Set(key, result, storedAt);
    }
    return Some(result);
  }
}
