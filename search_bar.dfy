/**
 * The search box of `src/components/Search/SearchBar.tsx`. It keeps the text being typed
 * (`localQuery`) apart from the provider's committed `searchQuery`, and holds at most one
 * pending commit: the 500 ms timer of `searchDebounceRef`. Time is abstracted away: the
 * timer's expiry is the event `TimerFire`. Navigation to `/` is reported as `searched`.
 */
module Search {
  import opened Wrappers
  import Text
  import MovieContext

  class SearchBar {
    const movies: MovieContext.MovieProvider

    /** The input's text. */
    var localQuery: string
    /** The value a scheduled timer will commit, if a timer is scheduled. */
    var pending: Option<string>
    /** The `searchQuery` the sync effect last ran with (React's dependency value). */
    var syncedQuery: string

    ghost predicate Valid()
      reads this, movies, movies.storage
    {
      movies.Valid()
    }

    /** Mounting: `useState(searchQuery)`, no timer. */
    constructor (ctx: MovieContext.MovieProvider)
      requires ctx.Valid()
      ensures Valid()
      ensures movies == ctx && localQuery == ctx.searchQuery && pending == None && syncedQuery == ctx.searchQuery
    {
      movies := ctx;
      localQuery := ctx.searchQuery;
      pending := None;
      syncedQuery := ctx.searchQuery;
    }

    /** The effect on `[searchQuery]`: when the committed query changed, the input shows it. */
    method SyncLocalQuery()
      modifies this`localQuery, this`syncedQuery
      ensures syncedQuery == movies.searchQuery
      ensures localQuery == if old(syncedQuery) != movies.searchQuery then movies.searchQuery else old(localQuery)
    {
      if movies.searchQuery != syncedQuery {
        localQuery := movies.searchQuery;
        syncedQuery := movies.searchQuery;
      }
    }

    /** `handleInputChange`: shows the value at once and replaces any pending commit with it. */
    method Change(value: string)
      modifies this`localQuery, this`pending
      ensures localQuery == value && pending == Some(value)
    {
      localQuery := value;
      pending := Some(value);
    }

    /**
     * The timer's callback: commits its value, even a blank one, and searches only when
     * the trimmed value is non-empty; then the sync effect runs.
     */
    method TimerFire() returns (searched: bool)
      requires Valid() && pending.Some?
      modifies this, movies, movies.storage
      ensures Valid()
      ensures pending == None
      ensures movies.searchQuery == old(pending.value)
      ensures movies.storage.items ==
        if old(pending.value) != "" then old(movies.storage.items)[MovieContext.LastSearchQueryKey := old(pending.value)]
        else old(movies.storage.items)
      ensures searched <==> !Text.IsBlank(old(pending.value))
      ensures searched ==> movies.isLoading && movies.error == None
      ensures !searched ==>
        movies.isLoading == old(movies.isLoading) && movies.error == old(movies.error)
      ensures movies.searchResults == old(movies.searchResults)
      ensures syncedQuery == old(pending.value)
      ensures localQuery == if old(syncedQuery) != old(pending.value) then old(pending.value) else old(localQuery)
      ensures movies.favorites == old(movies.favorites) && movies.trendingMovies == old(movies.trendingMovies)
      ensures movies.currentMovie == old(movies.currentMovie)
    {
      var value := pending.value;
      pending := None;
      movies.SetSearchQuery(value);
      searched := false;
      if !Text.IsBlank(value) {
        searched := movies.BeginSearch(value);
      }
      SyncLocalQuery();
    }

    /**
     * `handleSubmit`: a non-blank input is committed and searched at once; a blank one
     * changes nothing. A pending commit is left scheduled.
     */
    method Submit() returns (searched: bool)
      requires Valid()
      modifies this, movies, movies.storage
      ensures Valid()
      ensures searched <==> !Text.IsBlank(old(localQuery))
      ensures pending == old(pending) && localQuery == old(localQuery)
      ensures searched ==>
        && movies.searchQuery == localQuery
        && syncedQuery == localQuery
        && movies.storage.items == old(movies.storage.items)[MovieContext.LastSearchQueryKey := localQuery]
        && movies.isLoading && movies.error == None && movies.searchResults == old(movies.searchResults)
      ensures !searched ==>
        && movies.searchQuery == old(movies.searchQuery)
        && syncedQuery == old(syncedQuery)
        && movies.storage.items == old(movies.storage.items)
        && movies.isLoading == old(movies.isLoading) && movies.error == old(movies.error)
        && movies.searchResults == old(movies.searchResults)
      ensures movies.favorites == old(movies.favorites) && movies.trendingMovies == old(movies.trendingMovies)
      ensures movies.currentMovie == old(movies.currentMovie)
    {
      if Text.IsBlank(localQuery) {
        return false;
      }
      var query := localQuery;
      assert query != "";
      movies.SetSearchQuery(query);
      searched := movies.BeginSearch(query);
      SyncLocalQuery();
    }

    /** `clearSearch`: empties the input and the committed query; a pending commit stays scheduled. */
    method Clear()
      requires Valid()
      modifies this, movies, movies.storage
      ensures Valid()
      ensures localQuery == "" && movies.searchQuery == "" && syncedQuery == ""
      ensures pending == old(pending)
      ensures movies.storage.items == old(movies.storage.items)
      ensures movies.favorites == old(movies.favorites) && movies.searchResults == old(movies.searchResults)
      ensures movies.isLoading == old(movies.isLoading) && movies.error == old(movies.error)
      ensures movies.trendingMovies == old(movies.trendingMovies) && movies.currentMovie == old(movies.currentMovie)
    {
      localQuery := "";
      movies.SetSearchQuery("");
      SyncLocalQuery();
    }

    /**
     * A run of keystrokes with no timer expiry in between: only the last value is pending,
     * and nothing is committed meanwhile.
     */
    method TypeRun(values: seq<string>)
      requires values != []
      modifies this`localQuery, this`pending
      ensures localQuery == values[|values| - 1] && pending == Some(values[|values| - 1])
    {
      var i := 0;
      while i < |values|
        invariant 0 <= i <= |values|
        invariant i > 0 ==> localQuery == values[i - 1] && pending == Some(values[i - 1])
      {
        Change(values[i]);
        i := i + 1;
      }
    }
  }

  /**
   * Typing a query and clearing the box before the timer expires does not cancel the
   * commit: the cleared text comes back and is searched.
   */
  method ClearDoesNotCancelPendingCommit(bar: SearchBar, typed: string)
    requires bar.Valid() && !Text.IsBlank(typed)
    modifies bar, bar.movies, bar.movies.storage
    ensures bar.movies.searchQuery == typed && bar.localQuery == typed
  {
    bar.Change(typed);
    bar.Clear();
    var searched := bar.TimerFire();
    assert searched;
  }
}
