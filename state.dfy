/**
 * The state that the workflow's nodes read and update.
 */
module State {
  import opened Common
  import opened Models
  import opened ValidationChain

  /** The workflow's state dict; `None` stands for a key still holding None. */
  class PipelineState {
    /** The query as the user wrote it. */
    var userQuery: string
    /** The query the parser reads: the user's, or one augmented by a suggestion. */
    var currentQuery: string
    var queryIntent: Option<QueryIntent>
    var locationData: Option<LocationData>
    var genParams: Option<GenParams>
    var validationResult: Option<ValidationResult>
    var retryCount: int

    /** The state a run starts from. */
    constructor Initial(userQuery: string)
      ensures this.userQuery == userQuery && currentQuery == userQuery
      ensures queryIntent.None? && locationData.None? && genParams.None? && validationResult.None?
      ensures retryCount == 0
    {
      this.userQuery := userQuery;
      currentQuery := userQuery;
      queryIntent := None;
      locationData := None;
      genParams := None;
      validationResult := None;
      retryCount := 0;
    }
  }
}
