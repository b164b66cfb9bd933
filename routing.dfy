/**
 * The router that runs after validation.
 */
module Routing {
  import opened Common
  import opened Config
  import opened ValidationChain
  import opened State

  datatype Route = Succeeded | Retry | MaxRetries {
    /** The label the graph's conditional edge is keyed by. */
    function Label(): (s: string)
      ensures s in {"success", "retry", "max_retries"}
    {
      match this
      case Succeeded => "success"
      case Retry => "retry"
      case MaxRetries => "max_retries"
    }
  }

  /**
   * A missing result retries; a successful one ends the run whatever the
   * retry count; a failed one retries until the count reaches the limit.
   */
  function ShouldRetry(state: PipelineState): (r: Route)
    reads state
    ensures state.validationResult.None? ==> r == Retry
    ensures r == Succeeded <==> state.validationResult.Some? && state.validationResult.value.Status() == "success"
    ensures r == MaxRetries <==>
      state.validationResult.Some? && state.validationResult.value.Failed? && state.retryCount >= MAX_RETRY_ATTEMPTS
    ensures r == Retry && state.validationResult.Some? ==>
      state.validationResult.value.Failed? && state.retryCount < MAX_RETRY_ATTEMPTS
  {
    match state.validationResult
    case None => Retry
    case Some(result) =>
      if result.Status() == "success" then Succeeded
      else if state.retryCount >= MAX_RETRY_ATTEMPTS then MaxRetries
      else Retry
  }
}
