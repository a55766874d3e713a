/** What one HTTP exchange can end in, as seen by code that calls
    `requests.get`/`requests.post`, then `raise_for_status()`, then `json()`.
    The network itself is not modelled: each stage receives the transport as a
    function from request to one of these outcomes. */
module Http {
  import opened Outcomes
  import opened Json
  import opened Text

  datatype Transport =
    | TimedOut
    | ConnectionFailed
      /** A non-2xx status. `status` is `None` when the error carries no
          response; `detail` is the library's own text of the error; `text`
          is the response body, `None` when there is no response or reading
          it raised. */
    | HttpFailure(status: Option<int>, detail: string, text: Option<string>)
      /** The status was fine but the body is not JSON. */
    | NotJson
    | Decoded(json: Value)
      /** Any other exception of the request library (too many redirects, a
          broken chunked body, ...): no handler catches it. */
    | Raised

  /** How `f"{status}"` renders `status_code`, which may be `None`. */
  function StatusText(status: Option<int>): (r: string)
    ensures status.Some? ==> ParseInt(r) == status
    ensures status.None? ==> r == "None"
  {
    match status
    case None => "None"
    case Some(code) =>
      IntTextRoundTrip(code);
      IntText(code)
  }
}
