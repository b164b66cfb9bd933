/**
 * The validate, suggest and retry loop, run sequentially: parse the current
 * query, resolve its location and generate parameters, validate, route,
 * and on "retry" let the suggestion node rewrite the query.
 *
 * The parser, the geocoder, the parameter generator and the suggestion
 * generator are external services; their answers are function inputs.
 */
module Workflow {
  import opened Common
  import opened Config
  import opened Models
  import opened ValidationChain
  import opened State
  import opened Routing
  import opened Suggestion
  import opened LocationResolver

  /** The bounds the resolver settles on for a location. */
  function ResolvedLocation(geocode: string -> Option<LocationData>, location: string): LocationData {
    geocode(location).GetOr(DEFAULT_LOCATION)
  }

  /**
   * One pass from the parser to the validator. The resolver runs on the
   * freshly parsed intent, so it never meets a missing one.
   */
  method RunPass(
    state: PipelineState,
    parse: string -> QueryIntent,
    geocode: string -> Option<LocationData>,
    generate: QueryIntent -> GenParams)
    modifies state
    ensures var intent := parse(old(state.currentQuery));
      && state.queryIntent == Some(intent)
      && state.locationData == Some(ResolvedLocation(geocode, intent.location))
      && state.genParams == Some(generate(intent))
      && state.validationResult == Some(ValidateSpec(generate(intent), intent))
    ensures state.userQuery == old(state.userQuery) && state.currentQuery == old(state.currentQuery)
    ensures state.retryCount == old(state.retryCount)
  {
    state.queryIntent := Some(parse(state.currentQuery));
    var update := LocationResolverNode(state, geocode);
    state.locationData := Some(update.value.locationData);
    var intent := state.queryIntent.value;
    var gen := generate(intent);
    state.genParams := Some(gen);
    var result := Validate(gen, intent);
    state.validationResult := Some(result);
  }

  /**
   * The whole run. Starting from any count within the limit it ends on
   * "success" or "max_retries", never on "retry"; each suggestion raises
   * the count by one, the count never passes the limit, and "max_retries"
   * is reached exactly at the limit. From the initial count 0 there are
   * therefore at most MAX_RETRY_ATTEMPTS suggestions.
   */
  method Run(
    state: PipelineState,
    parse: string -> QueryIntent,
    geocode: string -> Option<LocationData>,
    generate: QueryIntent -> GenParams,
    suggest: SuggestionRequest -> string)
    returns (route: Route, ghost suggestions: nat)
    requires 0 <= state.retryCount <= MAX_RETRY_ATTEMPTS
    modifies state
    ensures route != Retry && route == ShouldRetry(state)
    ensures state.retryCount == old(state.retryCount) + suggestions <= MAX_RETRY_ATTEMPTS
    ensures route == MaxRetries ==> state.retryCount == MAX_RETRY_ATTEMPTS
    ensures route == Succeeded <==> state.validationResult.Some? && state.validationResult.value.Passed?
    ensures state.userQuery == old(state.userQuery)
    ensures state.queryIntent.Some? && state.genParams == Some(generate(state.queryIntent.value))
    ensures state.locationData == Some(ResolvedLocation(geocode, state.queryIntent.value.location))
    ensures state.validationResult == Some(ValidateSpec(state.genParams.value, state.queryIntent.value))
  {
    suggestions := 0;
    RunPass(state, parse, geocode, generate);
    route := ShouldRetry(state);
    while route == Retry
      invariant 0 <= state.retryCount <= MAX_RETRY_ATTEMPTS
      invariant state.retryCount == old(state.retryCount) + suggestions
      invariant route == ShouldRetry(state)
      invariant route == Retry ==> state.retryCount < MAX_RETRY_ATTEMPTS
      invariant state.userQuery == old(state.userQuery)
      invariant state.queryIntent.Some? && state.genParams == Some(generate(state.queryIntent.value))
      invariant state.locationData == Some(ResolvedLocation(geocode, state.queryIntent.value.location))
      invariant state.validationResult == Some(ValidateSpec(state.genParams.value, state.queryIntent.value))
      decreases MAX_RETRY_ATTEMPTS - state.retryCount
    {
      SuggestionNode(state, suggest);
      suggestions := suggestions + 1;
      RunPass(state, parse, geocode, generate);
      route := ShouldRetry(state);
    }
  }
}
