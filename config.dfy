/** Process configuration, fixed at the defaults of the environment loader. */
module Config {
  /** Number of suggestion rounds before the last parameters are accepted anyway. */
  const MAX_RETRY_ATTEMPTS: int := 2

  /** Lifetime of a geocoding cache entry, in seconds. */
  const GEOCODING_CACHE_TTL: int := 3600
}
