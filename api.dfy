/** What the two route handlers share: the search result record, values
    caught by a `catch`, the outcome of a call into the provider SDK, and the
    shape of a JSON response. */
module Api {
  import opened Options
  import opened JsText

  /** One web-search hit as the provider returns it and the page shows it. */
  datatype SearchResult = SearchResult(
    url: string, name: string, snippet: string, hostName: string, rank: int, date: string)

  /** A caught value: an `Error` with its message, or anything else. */
  datatype Thrown = ErrorObject(message: string) | NonErrorValue

  /** What an awaited provider call (including `ZAI.create()`) produced. */
  datatype Outcome<T> = Returned(value: T) | Threw(error: Thrown)

  /** `NextResponse.json(body, { status })`; the body's variant carries the
      `success` flag. */
  datatype Response<B> = Response(status: nat, body: B)

  /** A handler's response together with the provider call it made, if any. */
  datatype Handled<B, C> = Handled(response: Response<B>, call: Option<C>)

  const QueryRequired := "Query parameter is required"

  /** `error instanceof Error ? error.message : fallback`. */
  function ErrorText(e: Thrown, fallback: string): (text: string)
    ensures e.ErrorObject? ==> text == e.message
    ensures e.NonErrorValue? ==> text == fallback
  {
    match e
    case ErrorObject(message) => message
    case NonErrorValue => fallback
  }

  /** `!query || query.trim().length === 0` for `searchParams.get('q')`,
      which is None when the parameter is missing. */
  predicate IsBlank(q: Option<string>) {
    q.None? || Trim(q.value) == []
  }
}
