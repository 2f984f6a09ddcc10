/** The search history kept by the page: the latest query first, no repeats
    of it, at most ten entries. */
module History {

  const HistoryLimit := 10

  /** `history.filter(q => q !== query)`: every copy of `query` removed,
      the rest in order. */
  function Without(history: seq<string>, query: string): (rest: seq<string>)
    ensures |rest| <= |history|
    ensures forall x :: x in rest <==> x in history && x != query
  {
    if history == [] then []
    else (if history[0] == query then [] else [history[0]]) + Without(history[1..], query)
  }

  /** `[query, ...history.filter(q => q !== query)].slice(0, 10)`. */
  function UpdateHistory(history: seq<string>, query: string): (updated: seq<string>)
    ensures 1 <= |updated| <= HistoryLimit
    ensures updated[0] == query && query !in updated[1..]
    ensures forall x :: x in updated ==> x == query || x in history
    ensures updated[1..] <= Without(history, query)
    ensures |updated| == if |Without(history, query)| < HistoryLimit then 1 + |Without(history, query)| else HistoryLimit
  {
    var rest := Without(history, query);
    var moved := [query] + rest;
    assert moved[1..] == rest;
    if |moved| <= HistoryLimit then moved
    else
      assert moved[..HistoryLimit][1..] == rest[..HistoryLimit - 1];
      assert forall k :: 0 <= k < HistoryLimit - 1 ==> rest[..HistoryLimit - 1][k] == rest[k] && rest[k] in rest;
      moved[..HistoryLimit]
  }

  predicate NoDuplicates(s: seq<string>) {
    forall i, j :: 0 <= i < j < |s| ==> s[i] != s[j]
  }

  /** Filtering keeps each other entry as often as it occurred and drops
      every copy of the query. */
  lemma {:induction false} WithoutCounts(history: seq<string>, query: string)
    ensures multiset(Without(history, query))[query] == 0
    ensures forall x :: x != query ==> multiset(Without(history, query))[x] == multiset(history)[x]
  {
    if history != [] {
      WithoutCounts(history[1..], query);
      assert history == [history[0]] + history[1..];
    }
  }

  lemma {:induction false} WithoutAppend(a: seq<string>, b: seq<string>, query: string)
    ensures Without(a + b, query) == Without(a, query) + Without(b, query)
  {
    if a == [] {
      assert a + b == b;
    } else {
      assert (a + b)[1..] == a[1..] + b;
      WithoutAppend(a[1..], b, query);
    }
  }

  /** Filtering out a value that is not there changes nothing. */
  lemma {:induction false} WithoutAbsent(history: seq<string>, query: string)
    requires query !in history
    ensures Without(history, query) == history
  {
    if history != [] {
      WithoutAbsent(history[1..], query);
      assert history == [history[0]] + history[1..];
    }
  }

  /** Filtering keeps a list without repeats free of repeats. */
  lemma {:induction false} WithoutNoDuplicates(history: seq<string>, query: string)
    requires NoDuplicates(history)
    ensures NoDuplicates(Without(history, query))
  {
    if history != [] {
      WithoutNoDuplicates(history[1..], query);
      assert history[0] !in history[1..] by {
        forall j | 0 <= j < |history[1..]| ensures history[1..][j] != history[0] {
          assert history[1..][j] == history[j + 1];
        }
      }
    }
  }

  /** An update keeps a history without repeats free of repeats. */
  lemma UpdateHistoryNoDuplicates(history: seq<string>, query: string)
    requires NoDuplicates(history)
    ensures NoDuplicates(UpdateHistory(history, query))
  {
    var rest := Without(history, query);
    WithoutNoDuplicates(history, query);
    var moved := [query] + rest;
    assert NoDuplicates(moved) by {
      forall i, j | 0 <= i < j < |moved| ensures moved[i] != moved[j] {
        assert moved[j] == rest[j - 1] && rest[j - 1] in rest;
        if i > 0 { assert moved[i] == rest[i - 1]; }
      }
    }
  }

  /** While there is room, an update drops nothing: the new history holds
      exactly the query and the old entries. */
  lemma UpdateHistoryKeepsAll(history: seq<string>, query: string)
    requires |Without(history, query)| < HistoryLimit
    ensures forall x :: x in UpdateHistory(history, query) <==> x == query || x in history
  {
    var moved := [query] + Without(history, query);
    assert UpdateHistory(history, query) == moved;
    forall x | x in history && x != query ensures x in moved {
      assert x in Without(history, query);
    }
  }

  /** Searching for the latest query again leaves the history as it is. */
  lemma UpdateHistoryIdempotent(history: seq<string>, query: string)
    ensures UpdateHistory(UpdateHistory(history, query), query) == UpdateHistory(history, query)
  {
    var once := UpdateHistory(history, query);
    WithoutAppend([query], once[1..], query);
    WithoutAbsent(once[1..], query);
    assert once == [query] + once[1..];
  }

  /** Searching again for "b" in ["a", "b", "c"] moves it to the front. */
  lemma MoveToFront(history: seq<string>, query: string)
    requires history == ["a", "b", "c"] && query == "b"
    ensures UpdateHistory(history, query) == ["b", "a", "c"]
  {
    assert Without(history[2..], query) == ["c"];
    assert Without(history[1..], query) == ["c"];
  }
}
