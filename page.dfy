/** The search page component: its state, the saved-history load, a search
    cycle with the two requests it makes, the Enter key and "New Search".
    Network answers and storage results are passed in; a search cycle runs
    from start to end given them. */
module SearchPage {
  import opened Options
  import opened JsText
  import opened Extraction
  import opened Api
  import opened History
  import opened SearchRoute
  import opened SummaryRoute

  /** What reading the saved history gave: nothing (`null` or the empty
      string), a stored list, or a read or parse that threw. */
  datatype StoredHistory = NothingSaved | Saved(entries: seq<string>) | ReadFailed

  /** What `fetch(url)` followed by `res.json()` gave. */
  datatype Fetched<B> = FetchThrew | Received(body: B)

  /** The component's state, one field per `useState`. */
  datatype PageState = PageState(
    query: string,
    isSearching: bool,
    showResults: bool,
    searchResults: seq<SearchResult>,
    aiSummary: Option<AISummary>,
    searchHistory: seq<string>)

  const Initial := PageState("", false, false, [], None, [])

  /** The effects of one search outside the component: the history written
      to storage (None when the write threw or none was made) and the `q`
      sent to each route (None when that request was not made). */
  datatype Requests = Requests(stored: Option<seq<string>>, searchQ: Option<string>, summaryQ: Option<string>)

  predicate SearchSucceededWith(search: Fetched<SearchBody>) {
    search.Received? && search.body.SearchSucceeded?
  }

  predicate SummarySucceededWith(summary: Fetched<SummaryBody>) {
    summary.Received? && summary.body.SummarySucceeded?
  }

  /** The state after a whole search cycle for `q`. A blank query is
      ignored. Otherwise the history is updated first; results and the
      summary panel are shown only once both requests are over, and a failed
      search leaves the previous results in place but hidden. */
  function AfterSearch(s: PageState, q: string, search: Fetched<SearchBody>, summary: Fetched<SummaryBody>): (r: PageState)
    ensures Trim(q) == [] ==> r == s
    ensures Trim(q) != [] ==>
              !r.isSearching && r.query == s.query
              && r.searchHistory == UpdateHistory(s.searchHistory, q)
    ensures Trim(q) != [] ==> (r.showResults <==> SearchSucceededWith(search))
    ensures r.aiSummary.Some? && Trim(q) != [] ==> r.showResults && SummarySucceededWith(summary)
    ensures Trim(q) != [] && !SearchSucceededWith(search) ==>
              r.searchResults == s.searchResults && r.aiSummary.None?
  {
    if Trim(q) == [] then s
    else
      var history := UpdateHistory(s.searchHistory, q);
      if SearchSucceededWith(search) then
        var shown := if SummarySucceededWith(summary) then Some(summary.body.data) else None;
        s.(isSearching := false, showResults := true, searchResults := search.body.results,
           aiSummary := shown, searchHistory := history)
      else
        s.(isSearching := false, showResults := false, aiSummary := None, searchHistory := history)
  }

  /** The requests a search cycle for `q` makes. */
  function RequestsFor(s: PageState, q: string, search: Fetched<SearchBody>, saveFails: bool): (sent: Requests)
    ensures Trim(q) == [] ==> sent == Requests(None, None, None)
    ensures Trim(q) != [] && !saveFails ==> sent.stored == Some(UpdateHistory(s.searchHistory, q))
    ensures Trim(q) != [] && saveFails ==> sent.stored.None?
    ensures Trim(q) != [] ==>
              sent.searchQ == Some(q)
              && sent.summaryQ == (if SearchSucceededWith(search) then Some(q) else None)
    ensures sent.summaryQ.Some? ==> sent.searchQ.Some?
    ensures sent.searchQ.Some? ==> !IsBlank(sent.searchQ)
    ensures sent.summaryQ.Some? ==> !IsBlank(sent.summaryQ)
  {
    if Trim(q) == [] then Requests(None, None, None)
    else
      Requests(if saveFails then None else Some(UpdateHistory(s.searchHistory, q)),
               Some(q), if SearchSucceededWith(search) then Some(q) else None)
  }

  /** A search run against the two route handlers themselves: the page never
      sends a query the routes reject; results are shown exactly when the
      provider answered, and the summary panel exactly when the completion
      also had content, holding what the parser made of it. */
  lemma SearchThroughRoutes(s: PageState, q: string, provider: Outcome<seq<SearchResult>>,
                            completion: Outcome<Option<string>>)
    requires Trim(q) != []
    ensures SearchRoute.Handle(Some(q), provider).response.status != 400
    ensures SummaryRoute.Handle(Some(q), completion).response.status != 400
    ensures var r := AfterSearch(s, q, Received(SearchRoute.Handle(Some(q), provider).response.body),
                                 Received(SummaryRoute.Handle(Some(q), completion).response.body));
            (r.showResults <==> provider.Returned?)
            && (provider.Returned? ==> r.searchResults == provider.value)
            && (provider.Threw? ==> r.searchResults == s.searchResults)
            && (r.aiSummary.Some? <==>
                  provider.Returned? && completion.Returned? && completion.value.Some? && completion.value.value != [])
            && (r.aiSummary.Some? ==> r.aiSummary.value == ExtractSummary(completion.value.value))
  {
    assert !IsBlank(Some(q));
  }

  /** A history without repeats and within the limit stays so after a
      search. */
  lemma SearchKeepsHistoryClean(s: PageState, q: string, search: Fetched<SearchBody>, summary: Fetched<SummaryBody>)
    requires NoDuplicates(s.searchHistory) && |s.searchHistory| <= HistoryLimit
    ensures var h := AfterSearch(s, q, search, summary).searchHistory;
            NoDuplicates(h) && |h| <= HistoryLimit
  {
    UpdateHistoryNoDuplicates(s.searchHistory, q);
  }

  /** Searching for the same query twice leaves the history as after the
      first time. */
  lemma RepeatSearchKeepsHistory(s: PageState, q: string, search1: Fetched<SearchBody>, summary1: Fetched<SummaryBody>,
                                 search2: Fetched<SearchBody>, summary2: Fetched<SummaryBody>)
    ensures var once := AfterSearch(s, q, search1, summary1);
            AfterSearch(once, q, search2, summary2).searchHistory == once.searchHistory
  {
    UpdateHistoryIdempotent(s.searchHistory, q);
  }

  /** Of two search cycles run one after the other, the second decides what
      is shown: a successful one shows its own results and summary whatever
      came before, and a failed one hides the earlier results without
      removing them. */
  lemma LastSearchWins(s: PageState, q1: string, search1: Fetched<SearchBody>, summary1: Fetched<SummaryBody>,
                       q2: string, search2: Fetched<SearchBody>, summary2: Fetched<SummaryBody>)
    requires Trim(q2) != []
    ensures var first := AfterSearch(s, q1, search1, summary1);
            var last := AfterSearch(first, q2, search2, summary2);
            (SearchSucceededWith(search2) ==>
               last.showResults && last.searchResults == search2.body.results
               && last.aiSummary == (if SummarySucceededWith(summary2) then Some(summary2.body.data) else None))
            && (!SearchSucceededWith(search2) ==>
               !last.showResults && last.aiSummary.None? && last.searchResults == first.searchResults)
  {
  }

  /** When the write succeeds, storage holds the history the page shows. */
  lemma StoredHistoryIsShown(s: PageState, q: string, search: Fetched<SearchBody>, summary: Fetched<SummaryBody>)
    requires Trim(q) != []
    ensures RequestsFor(s, q, search, false).stored == Some(AfterSearch(s, q, search, summary).searchHistory)
  {
  }

  class QuantumSearchPage {
    var query: string
    var isSearching: bool
    var showResults: bool
    var searchResults: seq<SearchResult>
    var aiSummary: Option<AISummary>
    var searchHistory: seq<string>

    function State(): PageState
      reads this
    {
      PageState(query, isSearching, showResults, searchResults, aiSummary, searchHistory)
    }

    constructor ()
      ensures State() == Initial
    {
      query := "";
      isSearching := false;
      showResults := false;
      searchResults := [];
      aiSummary := None;
      searchHistory := [];
    }

    /** The mount effect: adopt a stored history; a missing value or a
        failing read or parse leaves the history as it is. */
    method LoadHistory(stored: StoredHistory)
      modifies this`searchHistory
      ensures State() == if stored.Saved? then old(State()).(searchHistory := stored.entries) else old(State())
    {
      match stored
      case Saved(entries) => searchHistory := entries;
      case NothingSaved =>
      case ReadFailed =>
    }

    /** Typing in the search box. */
    method SetQuery(text: string)
      modifies this`query
      ensures State() == old(State()).(query := text)
    {
      query := text;
    }

    /** The "New Search" button: back to the start view, nothing else. */
    method NewSearch()
      modifies this`showResults
      ensures State() == old(State()).(showResults := false)
    {
      showResults := false;
    }

    /** One search cycle for `searchQuery`, with the answers of the two
        fetches and whether saving the history to storage throws. */
    method HandleSearch(searchQuery: string, search: Fetched<SearchBody>, summary: Fetched<SummaryBody>, saveFails: bool)
      returns (sent: Requests)
      modifies this
      ensures State() == AfterSearch(old(State()), searchQuery, search, summary)
      ensures sent == RequestsFor(old(State()), searchQuery, search, saveFails)
    {
      if Trim(searchQuery) == [] {
        return Requests(None, None, None);
      }
      isSearching := true;
      showResults := false;
      aiSummary := None;
      var newHistory := UpdateHistory(searchHistory, searchQuery);
      searchHistory := newHistory;
      // a failing write is logged and the search goes on
      var stored := if saveFails then None else Some(newHistory);
      sent := Requests(stored, Some(searchQuery), None);
      if search.Received? && search.body.SearchSucceeded? {
        searchResults := search.body.results;
        sent := sent.(summaryQ := Some(searchQuery));
        if summary.Received? && summary.body.SummarySucceeded? {
          aiSummary := Some(summary.body.data);
        }
        showResults := true;
      }
      isSearching := false;
    }

    /** A key in the search box: Enter starts a search for the current text
        unless one is already running. */
    method HandleKeyPress(key: string, search: Fetched<SearchBody>, summary: Fetched<SummaryBody>, saveFails: bool)
      returns (sent: Requests)
      modifies this
      ensures old(key == "Enter" && !isSearching) ==>
                State() == AfterSearch(old(State()), old(query), search, summary)
                && sent == RequestsFor(old(State()), old(query), search, saveFails)
      ensures !old(key == "Enter" && !isSearching) ==>
                State() == old(State()) && sent == Requests(None, None, None)
    {
      if key == "Enter" && !isSearching {
        sent := HandleSearch(query, search, summary, saveFails);
      } else {
        sent := Requests(None, None, None);
      }
    }
  }
}
