/** GET /api/search: validate `q`, ask the provider for ten web results for
    the trimmed query, and wrap them (or the error) in a JSON response. */
module SearchRoute {
  import opened Options
  import opened JsText
  import opened Api

  datatype SearchBody =
    | SearchSucceeded(query: string, totalResults: nat, results: seq<SearchResult>)
    | SearchFailed(error: string)

  /** `zai.functions.invoke('web_search', { query, num })`. */
  datatype SearchCall = SearchCall(query: string, num: nat)

  const ResultsWanted := 10
  const SearchFailedText := "Failed to perform search"

  /** The handler, given what the provider call would produce. A blank
      query is rejected before any call; every other path catches what the
      provider throws, so the handler always answers. */
  function Handle(q: Option<string>, provider: Outcome<seq<SearchResult>>): (h: Handled<SearchBody, SearchCall>)
    ensures h.call.None? <==> IsBlank(q)
    ensures IsBlank(q) ==> h.response == Response(400, SearchFailed(QueryRequired))
    ensures h.call.Some? ==>
              h.call.value.query == Trim(q.value) && h.call.value.num == 10
              && h.call.value.query != [] && IsTrimmed(h.call.value.query)
    ensures h.response.status == 200 <==> !IsBlank(q) && provider.Returned?
    ensures h.response.status == 200 <==> h.response.body.SearchSucceeded?
    ensures h.response.status == 200 ==>
              h.response.body.query == q.value
              && h.response.body.results == provider.value
              && h.response.body.totalResults == |h.response.body.results|
    ensures !IsBlank(q) && provider.Threw? ==>
              h.response == Response(500, SearchFailed(ErrorText(provider.error, SearchFailedText)))
  {
    if IsBlank(q) then Handled(Response(400, SearchFailed(QueryRequired)), None)
    else
      var call := SearchCall(Trim(q.value), ResultsWanted);
      match provider
      case Returned(results) =>
        Handled(Response(200, SearchSucceeded(q.value, |results|, results)), Some(call))
      case Threw(e) =>
        Handled(Response(500, SearchFailed(ErrorText(e, SearchFailedText))), Some(call))
  }

  /** Whitespace around the query reaches the provider trimmed away, while
      the response still echoes the query as it was sent. */
  lemma PaddedQuerySearchesTheSame(before: string, q: string, after: string, provider: Outcome<seq<SearchResult>>)
    requires AllWhitespace(before) && AllWhitespace(after)
    ensures Handle(Some(before + q + after), provider).call == Handle(Some(q), provider).call
    ensures Handle(Some(before + q + after), provider).response.status
            == Handle(Some(q), provider).response.status
    ensures Handle(Some(before + q + after), provider).response.body.SearchSucceeded? ==>
              Handle(Some(before + q + after), provider).response.body.query == before + q + after
  {
    TrimIgnoresPadding(before, q, after);
  }
}
