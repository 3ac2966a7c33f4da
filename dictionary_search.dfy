/**
 * The search-input coordinator of the dictionary hook. It keeps the raw text of the input
 * box and, separately, a committed query that follows the input through a funnel: every
 * keystroke replaces the funnel's pending value, and after a quiet period the pending
 * value is committed. A search runs only for a committed query at or above a minimum
 * length, and the exposed loading flag is masked below that length.
 */
module DictionarySearch {
  import opened Wrappers
  import opened Records

  const DefaultDebounceMs: int := 300
  const DefaultLimit: int := 10
  const DefaultMinQueryLength: int := 2

  /** The hook's options; an absent option takes its default. */
  datatype SearchOptions = SearchOptions(debounceMs: Option<int>, limit: Option<int>, minQueryLength: Option<int>)

  /** What a failed request throws: an `Error` carrying a message, or some other value. */
  datatype Thrown = ErrorInstance(message: string) | OtherValue

  /** The funnel's reducer: the accumulated value is discarded for the newest one. */
  function FunnelReducer(acc: Option<string>, newValue: string): (reduced: string)
    ensures reduced == newValue
  {
    newValue
  }

  /** The funnel's accumulator after a burst of calls, starting from `acc`. */
  function Accumulate(acc: Option<string>, values: seq<string>): Option<string>
    decreases |values|
  {
    if values == [] then acc else Accumulate(Some(FunnelReducer(acc, values[0])), values[1..])
  }

  /** After any non-empty burst of calls, the funnel holds exactly the last value supplied. */
  lemma {:induction false} AccumulateKeepsLast(acc: Option<string>, values: seq<string>)
    requires values != []
    ensures Accumulate(acc, values) == Some(values[|values| - 1])
    decreases |values|
  {
    if |values| > 1 {
      AccumulateKeepsLast(Some(FunnelReducer(acc, values[0])), values[1..]);
    }
  }

  /** `loading && debouncedQuery.length >= minQueryLength`. */
  function MaskLoading(underlying: bool, debouncedQuery: string, minQueryLength: int): (loading: bool)
    ensures |debouncedQuery| < minQueryLength ==> !loading
    ensures loading <==> underlying && |debouncedQuery| >= minQueryLength
  {
    underlying && |debouncedQuery| >= minQueryLength
  }

  /** `results` defaults to the empty list when the request has no data. */
  function ResultsOf(data: Option<seq<SearchResult>>): (results: seq<SearchResult>)
    ensures data.None? ==> results == []
    ensures data.Some? ==> results == data.value
  {
    data.GetOr([])
  }

  /** `error instanceof Error ? error.message : null`. */
  function ErrorMessage(error: Option<Thrown>): (message: Option<string>)
    ensures message.Some? <==> error.Some? && error.value.ErrorInstance?
    ensures message.Some? ==> message.value == error.value.message
  {
    match error
    case Some(ErrorInstance(m)) => Some(m)
    case _ => None
  }

  class SearchCoordinator {
    const debounceMs: int
    const limit: int
    const minQueryLength: int
    /** The raw text of the input box. */
    var query: string
    /** The committed query that keys the search. */
    var debouncedQuery: string
    /** The funnel's accumulated value, waiting for the quiet period to end. */
    var pending: Option<string>

    /**
     * The committed query catches up with the input: while nothing is pending the two
     * agree, and what is pending is what the input box shows.
     */
    predicate Settled()
      reads this
    {
      match pending
      case None => debouncedQuery == query
      case Some(v) => v == query
    }

    /** Mounting the hook: both queries empty, nothing pending, options defaulted. */
    constructor (options: SearchOptions)
      ensures debounceMs == options.debounceMs.GetOr(DefaultDebounceMs)
      ensures limit == options.limit.GetOr(DefaultLimit)
      ensures minQueryLength == options.minQueryLength.GetOr(DefaultMinQueryLength)
      ensures query == "" && debouncedQuery == "" && pending == None
      ensures Settled()
    {
      debounceMs := options.debounceMs.GetOr(DefaultDebounceMs);
      limit := options.limit.GetOr(DefaultLimit);
      minQueryLength := options.minQueryLength.GetOr(DefaultMinQueryLength);
      query, debouncedQuery, pending := "", "", None;
    }

    /** `setQuery` (the hook's `handleQueryChange`): the raw text at once, the funnel's value replaced. */
    method SetQuery(newQuery: string)
      modifies this
      ensures query == newQuery && pending == Some(newQuery)
      ensures pending == Accumulate(old(pending), [newQuery])
      ensures debouncedQuery == old(debouncedQuery)
      ensures Settled()
    {
      query := newQuery;
      pending := Some(FunnelReducer(pending, newQuery));
    }

    /** The funnel's quiet period ends: the pending value becomes the committed query. */
    method Commit()
      requires pending.Some?
      modifies this
      ensures debouncedQuery == old(pending).value && pending == None
      ensures query == old(query)
      ensures old(Settled()) ==> Settled()
    {
      debouncedQuery := pending.value;
      pending := None;
    }

    /** `clearResults` as written: both queries emptied; the funnel's pending value is left in place. */
    method ClearResultsKeepingPending()
      modifies this
      ensures query == "" && debouncedQuery == "" && pending == old(pending)
      ensures minQueryLength > 0 ==> !SearchEnabled()
    {
      query, debouncedQuery := "", "";
    }

    /** `clearResults` with the funnel cancelled as well, so nothing can commit afterwards. */
    method ClearResults()
      modifies this
      ensures query == "" && debouncedQuery == "" && pending == None
      ensures minQueryLength > 0 ==> !SearchEnabled()
      ensures Settled()
    {
      query, debouncedQuery, pending := "", "", None;
    }

    /** A burst of keystrokes followed by the quiet period commits only the last one. */
    method TypeBurst(values: seq<string>)
      requires values != []
      modifies this
      ensures Some(debouncedQuery) == Accumulate(old(pending), values)
      ensures query == values[|values| - 1] && debouncedQuery == values[|values| - 1]
      ensures pending == None && Settled()
    {
      AccumulateKeepsLast(pending, values);
      var i := 0;
      while i < |values|
        invariant 0 <= i <= |values|
        invariant i > 0 ==> query == values[i - 1] && pending == Some(values[i - 1])
      {
        SetQuery(values[i]);
        i := i + 1;
      }
      Commit();
    }

    /** `enabled`: a search runs only for a committed query at or above the minimum length. */
    function SearchEnabled(): (enabled: bool)
      reads this
      ensures enabled <==> |debouncedQuery| >= minQueryLength
    {
      |debouncedQuery| >= minQueryLength
    }

    /** The request issued: keyed by the committed query and the limit, or none when disabled. */
    function Request(): (request: Option<(string, int)>)
      reads this
      ensures request.Some? <==> |debouncedQuery| >= minQueryLength
      ensures request.Some? ==> request.value == (debouncedQuery, limit)
    {
      if SearchEnabled() then Some((debouncedQuery, limit)) else None
    }

    /** The exposed `loading`: the request's flag, masked below the minimum length. */
    function Loading(underlying: bool): (loading: bool)
      reads this
      ensures loading <==> underlying && SearchEnabled()
    {
      MaskLoading(underlying, debouncedQuery, minQueryLength)
    }
  }

  /**
   * As written, `clearResults` does not cancel the funnel: after typing "pes" and
   * clearing before the quiet period ends, the commit brings "pes" back as the committed
   * query while the input box is empty, and a search for it is enabled.
   */
  method ClearDoesNotCancelPendingCommit() returns (raw: string, committed: string, enabled: bool)
    ensures raw == "" && committed == "pes" && enabled
  {
    var search := new SearchCoordinator(SearchOptions(None, None, None));
    search.SetQuery("pes");
    search.ClearResultsKeepingPending();
    assert !search.Settled();
    search.Commit();
    raw, committed, enabled := search.query, search.debouncedQuery, search.SearchEnabled();
  }

  /**
   * The same keystroke and clear with the funnel cancelled: nothing is left for the quiet
   * period to commit, so the committed query stays "" and no search is enabled.
   */
  method ClearLeavesNothingToCommit() returns (raw: string, committed: string, pendingLeft: bool, enabled: bool)
    ensures raw == "" && committed == "" && !pendingLeft && !enabled
  {
    var search := new SearchCoordinator(SearchOptions(None, None, None));
    search.SetQuery("pes");
    search.ClearResults();
    raw, committed, pendingLeft, enabled := search.query, search.debouncedQuery, search.pending.Some?, search.SearchEnabled();
  }
}
