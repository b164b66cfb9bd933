/**
 * The suggestion node: after a failed validation it swaps in a query
 * augmented with suggestions and counts the retry.
 */
module Suggestion {
  import opened Common
  import opened Validators
  import opened ValidationChain
  import opened State

  /** The arguments handed to the suggestion generator, whose text is an input here. */
  datatype SuggestionRequest = SuggestionRequest(
    originalQuery: string,
    validationErrors: seq<Message>,
    failureReasons: FailureReasons,
    retryCount: int)

  /** What the generator is asked, for a failed result. */
  function RequestFor(userQuery: string, result: ValidationResult, retryCount: int): SuggestionRequest
    requires result.Failed?
  {
    SuggestionRequest(userQuery, result.validationErrors, result.failureReasons, retryCount)
  }

  /**
   * With no result or a successful one the state is left as it is.
   * Otherwise the current query becomes the generator's augmented query
   * for the user's original query, and the retry count goes up by one;
   * nothing else changes.
   */
  method SuggestionNode(state: PipelineState, suggest: SuggestionRequest -> string)
    modifies state
    ensures old(state.validationResult).None? || old(state.validationResult).value.Passed? ==> unchanged(state)
    ensures old(state.validationResult).Some? && old(state.validationResult).value.Failed? ==>
      && state.currentQuery == suggest(RequestFor(old(state.userQuery), old(state.validationResult).value, old(state.retryCount)))
      && state.retryCount == old(state.retryCount) + 1
    ensures state.userQuery == old(state.userQuery)
    ensures state.queryIntent == old(state.queryIntent) && state.locationData == old(state.locationData)
    ensures state.genParams == old(state.genParams) && state.validationResult == old(state.validationResult)
  {
    var validationResult := state.validationResult;
    var userQuery := state.userQuery;
    var retryCount := state.retryCount;
    if validationResult.None? || validationResult.value.Status() == "success" {
      return;
    }
    var augmentedQuery := suggest(SuggestionRequest(
      userQuery, validationResult.value.validationErrors, validationResult.value.failureReasons, retryCount));
    state.currentQuery := augmentedQuery;
    state.retryCount := retryCount + 1;
  }
}
