/**
 * The high-level entry point: build the initial state, run the workflow and
 * shape its final state into the response.
 */
module Api {
  import opened Common
  import opened Config
  import opened Models
  import opened Validators
  import opened ValidationChain
  import opened RadpFormatter
  import opened State
  import opened Suggestion
  import Workflow

  /** TypeError stands for subscripting a field that is still None. */
  datatype ApiError = TypeError | Formatter(error: FormatError)

  datatype Metadata = Metadata(retryCount: int, queryIntent: QueryIntent, locationData: LocationData)

  /**
   * `Accepted` is status "success" with `validation_warnings` None;
   * `AcceptedWithWarnings` is status "success_with_warnings" with
   * `validation_status` "failed_but_accepted".
   */
  datatype Response =
    | Accepted(radpParams: RadpParams, metadata: Metadata)
    | AcceptedWithWarnings(radpParams: RadpParams, warnings: seq<Message>, failureReasons: FailureReasons, metadata: Metadata)
  {
    function Status(): string {
      if Accepted? then "success" else "success_with_warnings"
    }

    function ValidationStatus(): Option<string> {
      if Accepted? then None else Some("failed_but_accepted")
    }
  }

  /**
   * The formatter call on the final state, with the errors in the order the
   * formatter reads its inputs: the parameters and the intent first, then
   * the apportionment, then the location.
   */
  function FormatFinal(result: PipelineState): (r: Result<RadpParams, ApiError>)
    reads result
    ensures r.Success? <==>
      && result.genParams.Some? && result.queryIntent.Some? && result.locationData.Some?
      && FormatSpec(result.genParams.value, result.locationData.value, result.queryIntent.value).Success?
    ensures r.Success? ==>
      r.value == FormatSpec(result.genParams.value, result.locationData.value, result.queryIntent.value).value
    ensures r.Failure? && result.genParams.Some? && result.queryIntent.Some? ==>
      (r.error == Formatter(IndexError) <==> Apportion(result.queryIntent.value.numUes, result.genParams.value.ueClassDistribution).Failure?)
  {
    if result.genParams.None? || result.queryIntent.None? then Failure(TypeError)
    else
      var gen := result.genParams.value;
      var intent := result.queryIntent.value;
      if Apportion(intent.numUes, gen.ueClassDistribution).Failure? then Failure(Formatter(IndexError))
      else if result.locationData.None? then Failure(TypeError)
      else Success(FormatSpec(gen, result.locationData.value, intent).value)
  }

  /**
   * A "success" validation gives status "success"; any other gives
   * "success_with_warnings" carrying the validation errors and failure
   * reasons. Both carry the same formatter output and the final retry count.
   */
  function ShapeResult(result: PipelineState): (r: Result<Response, ApiError>)
    reads result
    ensures result.validationResult.None? ==> r == Failure(TypeError)
    ensures result.validationResult.Some? ==>
      (r.Success? <==> FormatFinal(result).Success?) &&
      (r.Success? ==> r.value.radpParams == FormatFinal(result).value)
    ensures r.Success? ==>
      && r.value.metadata == Metadata(result.retryCount, result.queryIntent.value, result.locationData.value)
      && (r.value.Status() == "success" <==> result.validationResult.value.Status() == "success")
      && (r.value.AcceptedWithWarnings? ==>
            r.value.warnings == result.validationResult.value.validationErrors &&
            r.value.failureReasons == result.validationResult.value.failureReasons &&
            r.value.ValidationStatus() == Some("failed_but_accepted"))
  {
    match result.validationResult
    case None => Failure(TypeError)
    case Some(validation) =>
      match FormatFinal(result)
      case Failure(e) => Failure(e)
      case Success(radpParams) =>
        var metadata := Metadata(result.retryCount, result.queryIntent.value, result.locationData.value);
        if validation.Status() == "success" then Success(Accepted(radpParams, metadata))
        else Success(AcceptedWithWarnings(radpParams, validation.validationErrors, validation.failureReasons, metadata))
  }

  /**
   * The only error a full run can end in is the formatter's IndexError. The
   * response holds the formatter's output for the final intent, its resolved
   * location and the parameters generated for it, and it is "success"
   * exactly when the final validation passed. A response
   * "success_with_warnings" is only given after the retry limit was reached,
   * and the reported retry count never exceeds it.
   */
  method GenerateFromQuery(
    userQuery: string,
    parse: string -> QueryIntent,
    geocode: string -> Option<LocationData>,
    generate: QueryIntent -> GenParams,
    suggest: SuggestionRequest -> string)
    returns (r: Result<Response, ApiError>, ghost gen: GenParams, ghost intent: QueryIntent)
    ensures gen == generate(intent)
    ensures r.Success? <==> FormatSpec(gen, Workflow.ResolvedLocation(geocode, intent.location), intent).Success?
    ensures r.Failure? ==> r.error == Formatter(IndexError)
    ensures r.Success? ==>
      && r.value.radpParams == FormatSpec(gen, Workflow.ResolvedLocation(geocode, intent.location), intent).value
      && r.value.metadata.queryIntent == intent
      && r.value.metadata.locationData == Workflow.ResolvedLocation(geocode, intent.location)
      && (r.value.Accepted? <==> ValidateSpec(gen, intent).Passed?)
    ensures r.Success? ==> 0 <= r.value.metadata.retryCount <= MAX_RETRY_ATTEMPTS
    ensures r.Success? && r.value.AcceptedWithWarnings? ==> r.value.metadata.retryCount == MAX_RETRY_ATTEMPTS
  {
    var initialState := new PipelineState.Initial(userQuery);
    var route, suggestions := Workflow.Run(initialState, parse, geocode, generate, suggest);
    gen, intent := initialState.genParams.value, initialState.queryIntent.value;
    r := ShapeResult(initialState);
  }
}
