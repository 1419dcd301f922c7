/** The API client's configuration and the response interceptor that turns
    every failed call into one `NormalizedError`. */
module Http {
  import opened Optional
  import opened ApiTypes

  const DefaultBaseUrl := "http://127.0.0.1:8000"
  const NetworkErrorMessage := "Network error occurred"
  const ValidationErrorsMessage := "Validation errors occurred"

  /** The backend address: the configured `VITE_API_BASE` unless it is unset
      or empty (`||` falls through on the empty string). */
  function BaseUrl(configured: Option<string>): (url: string)
    ensures url != ""
    ensures configured.Some? && configured.value != "" ==> url == configured.value
    ensures url != DefaultBaseUrl ==> configured == Some(url)
  {
    if configured.Some? && configured.value != "" then configured.value else DefaultBaseUrl
  }

  /** The `detail` of an error body: a message, the backend's list of field
      errors, or anything else (missing, an object, a number). */
  datatype Detail =
    | TextDetail(text: string)
    | ListDetail(errors: seq<ValidationError>)
    | OtherDetail

  /** An HTTP response that came back with an error status. `data == None`
      is a falsy body (absent, `null`, the empty string). */
  datatype Response = Response(status: int, data: Option<Detail>)

  /** What the transport rejects with: the response if the server answered,
      and the transport's own message (possibly empty). */
  datatype Failure = Failure(response: Option<Response>, message: string)

  /** The interceptor's error handler. */
  function Normalize(e: Failure): (r: NormalizedError)
    // the status is the server's, or 0 when nothing came back
    ensures e.response.None? ==> r.status == 0
    ensures e.response.Some? ==> r.status == e.response.value.status
    // field errors are reported exactly when the detail was a list, verbatim
    ensures r.validationErrors.Some? <==> e.response.Some? && e.response.value.data.Some? && e.response.value.data.value.ListDetail?
    ensures r.validationErrors.Some? ==>
      r.validationErrors.value == e.response.value.data.value.errors && r.message == ValidationErrorsMessage
    // a text detail wins over the transport message, even when empty
    ensures e.response.Some? && e.response.value.data.Some? && e.response.value.data.value.TextDetail? ==>
      r.message == e.response.value.data.value.text
    // the transport message is only consulted when no body came back
    ensures r.message == e.message && e.message != NetworkErrorMessage && e.message != ValidationErrorsMessage ==>
      (e.response.None? || e.response.value.data.None?) || (e.response.value.data.value.TextDetail? && e.response.value.data.value.text == e.message)
    // without a body the transport's message is kept, or the generic one when it is empty
    ensures e.response.None? || e.response.value.data.None? ==>
      r.validationErrors.None? && r.message == (if e.message != "" then e.message else NetworkErrorMessage)
    // the message is empty only when the server sent an empty text detail
    ensures r.message == "" ==> e.response.Some? && e.response.value.data == Some(TextDetail(""))
  {
    var status := if e.response.Some? then e.response.value.status else 0;
    if e.response.Some? && e.response.value.data.Some? then
      match e.response.value.data.value
      case TextDetail(text) => NormalizedError(status, text, None)
      case ListDetail(errors) => NormalizedError(status, ValidationErrorsMessage, Some(errors))
      case OtherDetail => NormalizedError(status, NetworkErrorMessage, None)
    else if e.message != "" then
      NormalizedError(status, e.message, None)
    else
      NormalizedError(status, NetworkErrorMessage, None)
  }

  /** Where the message of a normalized error comes from: the server's text,
      the fixed validation message, the transport's message or the generic one. */
  ghost predicate MessageFromSource(e: Failure, m: string) {
    || (e.response.Some? && e.response.value.data.Some? && e.response.value.data.value.TextDetail?
        && m == e.response.value.data.value.text)
    || m == ValidationErrorsMessage
    || m == e.message
    || m == NetworkErrorMessage
  }

  /** No message is invented. */
  lemma MessageProvenance(e: Failure)
    ensures MessageFromSource(e, Normalize(e).message)
  {
  }

  /** A failure without any response normalizes to status 0, the transport's
      message or else the generic one, and no field errors. */
  lemma NoResponse(message: string)
    ensures Normalize(Failure(None, message))
      == NormalizedError(0, if message != "" then message else NetworkErrorMessage, None)
    ensures Normalize(Failure(None, message)).message != ""
  {
  }

  /** `{detail: "X"}` with status 400. */
  lemma TextDetailExample()
    ensures Normalize(Failure(Some(Response(400, Some(TextDetail("X")))), "Request failed with status code 400"))
      == NormalizedError(400, "X", None)
  {
  }

  /** A 422 whose detail lists one missing project location. */
  lemma ListDetailExample()
    ensures
      var entry := ValidationError(["projects", "0", "Location"], "required", "missing");
      Normalize(Failure(Some(Response(422, Some(ListDetail([entry])))), "Request failed with status code 422"))
        == NormalizedError(422, ValidationErrorsMessage, Some([entry]))
  {
  }

  /** A body whose detail is neither text nor a list keeps the generic message,
      even though the transport supplied its own. */
  lemma OtherDetailKeepsGenericMessage(status: int, message: string)
    ensures Normalize(Failure(Some(Response(status, Some(OtherDetail))), message)).message == NetworkErrorMessage
  {
  }

  /** A server answer with an empty body keeps its status and falls back to the
      transport's message. */
  lemma EmptyBodyKeepsStatus(status: int, message: string)
    requires message != ""
    ensures Normalize(Failure(Some(Response(status, None)), message)) == NormalizedError(status, message, None)
  {
  }
}
