/**
 * The two Apex calls the component makes, seen from the component: the
 * arguments it sends, what comes back, and how a failure is turned into
 * the text shown to the user. Neither call is made here; its outcome is an
 * input to the handler that awaits it.
 */
module Apex {
  import opened Wrappers
  import opened Jobs

  /** The body of a failed call's error: its message, if any, and its JSON.stringify text. */
  datatype ErrorBody = ErrorBody(message: Option<string>, serialized: string)

  /** What a failed call rejects with; `body` may be absent. */
  datatype ApexError = ApexError(body: Option<ErrorBody>)

  /** The arguments of one searchJobs call (JobBoardCallout.getJobs). */
  datatype SearchRequest = SearchRequest(jobKeywords: string, jobLocation: string, pageNumber: int)

  /** What searchJobs resolves with: one page of rows and the totals of the whole search. */
  datatype SearchResponse = SearchResponse(jobs: seq<Job>, jobCount: int, maxPages: int)

  /** How an awaited searchJobs call settles. */
  datatype FetchOutcome = Fetched(response: SearchResponse) | FetchFailed(error: ApexError)

  /** How an awaited processSelectedJobs call settles; a resolved response is not used. */
  datatype SaveOutcome = Saved | SaveFailed(error: ApexError)

  const UnknownErrorMessage: string := "An unknown error occurred"

  /** error.body ? (error.body.message || JSON.stringify(error.body)) : the fixed text */
  function ErrorText(e: ApexError): (text: string)
    ensures e.body == None ==> text == UnknownErrorMessage
    // an empty message is falsy, so the serialized body is shown instead
    ensures e.body.Some? && e.body.value.message.Some? && e.body.value.message.value != "" ==>
              text == e.body.value.message.value
    ensures e.body.Some? && (e.body.value.message == None || e.body.value.message == Some("")) ==>
              text == e.body.value.serialized
  {
    match e.body
    case None => UnknownErrorMessage
    case Some(body) =>
      if body.message.Some? && body.message.value != "" then body.message.value else body.serialized
  }
}
