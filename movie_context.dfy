/**
 * `MovieProvider` of `src/contexts/MovieContext.tsx`: the catalog state, the favorites
 * list and the committed search query, with the effects that keep them in `localStorage`.
 *
 * The three fetch operations are asynchronous: each is split at its `await` into a
 * `Begin` step (what runs before the request) and a `Complete` step (what runs when the
 * request settles), so that interleavings of several requests can be stated.
 */
module MovieContext {
  import opened Wrappers
  import opened MovieTypes
  import Storage
  import Favorites
  import Text
  import MovieService

  const FavoritesKey := "favorites"
  const LastSearchQueryKey := "lastSearchQuery"

  /** Messages used when the caught value is not an `Error`. */
  const TrendingFallback := "Failed to fetch trending movies"
  const SearchFallback := "Failed to search movies"
  const DetailsFallback := "Failed to fetch movie details"

  /** `err instanceof Error ? err.message : fallback`. */
  function ErrorText(thrown: MovieService.Thrown, fallback: string): (r: string)
    ensures thrown.Error? ==> r == thrown.message
    ensures thrown.NonError? ==> r == fallback
  {
    match thrown
    case Error(message) => message
    case NonError => fallback
  }

  /** `localStorage.getItem('lastSearchQuery') || ''`. */
  function InitialSearchQuery(stored: Option<string>): (r: string)
    ensures stored.Some? ==> r == stored.value
    ensures stored.None? ==> r == ""
  {
    match stored
    case Some(q) => q
    case None => ""
  }

  /** The favorites list the load effect leaves behind, starting from `[]`. */
  function LoadedFavorites(stored: Option<string>, codec: Storage.Codec<seq<Movie>>): (r: seq<Movie>)
    ensures stored.Some? && stored.value != "" && codec.decode(stored.value).Some? ==>
      r == codec.decode(stored.value).value
    ensures stored.None? || stored.value == "" || codec.decode(stored.value).None? ==> r == []
  {
    match Storage.Restore(stored, codec)
    case Parsed(list) => list
    case _ => []
  }

  class MovieProvider {
    const storage: Storage.LocalStorage
    const favoritesCodec: Storage.Codec<seq<Movie>>

    var trendingMovies: seq<Movie>
    var searchResults: seq<Movie>
    var currentMovie: Option<MovieDetails>
    var favorites: seq<Movie>
    var isLoading: bool
    var error: Option<string>
    var searchQuery: string

    /** The persist effect for `favorites` has run on the current list. */
    ghost predicate FavoritesPersisted()
      reads this, storage
    {
      FavoritesKey in storage.items && storage.items[FavoritesKey] == favoritesCodec.encode(favorites)
    }

    /** The persist effect for `searchQuery` has run: a non-empty query is stored. */
    ghost predicate QueryPersisted()
      reads this, storage
    {
      searchQuery != "" ==> LastSearchQueryKey in storage.items && storage.items[LastSearchQueryKey] == searchQuery
    }

    ghost predicate Valid()
      reads this, storage
    {
      FavoritesPersisted() && QueryPersisted()
    }

    /**
     * Mounting the provider: the `useState` initialisers, then the three effects in
     * declaration order (load favorites, persist favorites, persist the query).
     */
    constructor (store: Storage.LocalStorage, codec: Storage.Codec<seq<Movie>>)
      modifies store
      ensures Valid()
      ensures storage == store && favoritesCodec == codec
      ensures trendingMovies == [] && searchResults == [] && currentMovie == None
      ensures !isLoading && error == None
      ensures searchQuery == InitialSearchQuery(old(store.GetItem(LastSearchQueryKey)))
      ensures favorites == LoadedFavorites(old(store.GetItem(FavoritesKey)), codec)
      ensures store.items == old(store.items)[FavoritesKey := codec.encode(favorites)]
    {
      storage := store;
      favoritesCodec := codec;
      trendingMovies := [];
      searchResults := [];
      currentMovie := None;
      favorites := [];
      isLoading := false;
      error := None;
      searchQuery := InitialSearchQuery(store.GetItem(LastSearchQueryKey));
      new;
      LoadStoredFavorites();
      PersistFavorites();
      if searchQuery != "" {
        storage.SetItem(LastSearchQueryKey, searchQuery);
      }
    }

    /**
     * The load effect: a parseable stored list replaces `favorites`; a corrupt one is
     * removed from the store; an absent or empty value changes nothing.
     */
    method LoadStoredFavorites()
      modifies this`favorites, storage
      ensures var restored := Storage.Restore(old(storage.GetItem(FavoritesKey)), favoritesCodec);
        match restored
        case NothingStored => favorites == old(favorites) && storage.items == old(storage.items)
        case Parsed(list) => favorites == list && storage.items == old(storage.items)
        case Corrupt => favorites == old(favorites) && storage.items == old(storage.items) - {FavoritesKey}
    {
      match Storage.Restore(storage.GetItem(FavoritesKey), favoritesCodec)
      case NothingStored =>
      case Parsed(list) =>
        favorites := list;
      case Corrupt =>
        storage.RemoveItem(FavoritesKey);
    }

    /** The persist effect: `setItem('favorites', JSON.stringify(favorites))`. */
    method PersistFavorites()
      modifies storage
      ensures storage.items == old(storage.items)[FavoritesKey := favoritesCodec.encode(favorites)]
      ensures FavoritesPersisted()
      ensures old(QueryPersisted()) ==> QueryPersisted()
    {
      storage.SetItem(FavoritesKey, favoritesCodec.encode(favorites));
    }

    /** `addToFavorites(movie)`, followed by the persist effect. */
    method AddToFavorites(movie: Movie)
      requires Valid()
      modifies this`favorites, storage
      ensures Valid()
      ensures favorites == Favorites.Add(old(favorites), movie)
      ensures storage.items == old(storage.items)[FavoritesKey := favoritesCodec.encode(favorites)]
    {
      favorites := Favorites.Add(favorites, movie);
      PersistFavorites();
    }

    /** `removeFromFavorites(id)`, followed by the persist effect. */
    method RemoveFromFavorites(id: int)
      requires Valid()
      modifies this`favorites, storage
      ensures Valid()
      ensures favorites == Favorites.Remove(old(favorites), id)
      ensures storage.items == old(storage.items)[FavoritesKey := favoritesCodec.encode(favorites)]
    {
      favorites := Favorites.Remove(favorites, id);
      PersistFavorites();
    }

    /** `isInFavorites(id)`: some entry has that id; a pure lookup. */
    function IsInFavorites(id: int): (r: bool)
      reads this
      ensures r <==> exists i :: 0 <= i < |favorites| && favorites[i].id == id
    {
      Favorites.IsIn(favorites, id)
    }

    /** `setSearchQuery(q)`, followed by the effect that stores a non-empty query. */
    method SetSearchQuery(q: string)
      requires Valid()
      modifies this`searchQuery, storage
      ensures Valid()
      ensures searchQuery == q
      ensures storage.items == if q != "" then old(storage.items)[LastSearchQueryKey := q] else old(storage.items)
    {
      var changed := q != searchQuery;
      searchQuery := q;
      if changed && q != "" {
        storage.SetItem(LastSearchQueryKey, q);
      }
    }

    /** `fetchTrending()` up to its `await`. */
    method BeginTrending()
      requires Valid()
      modifies this`isLoading, this`error
      ensures Valid()
      ensures isLoading && error == None
    {
      isLoading := true;
      error := None;
    }

    /** `fetchTrending()` after its `await`: the `try`, `catch` and `finally` blocks. */
    method CompleteTrending(outcome: Result<seq<Movie>, MovieService.Thrown>)
      requires Valid()
      modifies this`trendingMovies, this`error, this`isLoading
      ensures Valid()
      ensures !isLoading
      ensures outcome.Success? ==> trendingMovies == outcome.value && error == old(error)
      ensures outcome.Failure? ==>
        trendingMovies == old(trendingMovies) && error == Some(ErrorText(outcome.error, TrendingFallback))
    {
      match outcome {
        case Success(data) =>
          trendingMovies := data;
        case Failure(thrown) =>
          error := Some(ErrorText(thrown, TrendingFallback));
      }
      isLoading := false;
    }

    /**
     * `searchMoviesByQuery(query)` up to its `await`. A blank query empties the results
     * and returns at once; `started` says whether a request goes out.
     */
    method BeginSearch(query: string) returns (started: bool)
      requires Valid()
      modifies this`searchResults, this`isLoading, this`error
      ensures Valid()
      ensures started <==> !Text.IsBlank(query)
      ensures !started ==> searchResults == [] && isLoading == old(isLoading) && error == old(error)
      ensures started ==> searchResults == old(searchResults) && isLoading && error == None
    {
      if Text.IsBlank(query) {
        searchResults := [];
        return false;
      }
      isLoading := true;
      error := None;
      started := true;
    }

    /** `searchMoviesByQuery(query)` after its `await`; no check that the query is still current. */
    method CompleteSearch(outcome: Result<seq<Movie>, MovieService.Thrown>)
      requires Valid()
      modifies this`searchResults, this`error, this`isLoading
      ensures Valid()
      ensures !isLoading
      ensures outcome.Success? ==> searchResults == outcome.value && error == old(error)
      ensures outcome.Failure? ==>
        searchResults == old(searchResults) && error == Some(ErrorText(outcome.error, SearchFallback))
    {
      match outcome {
        case Success(data) =>
          searchResults := data;
        case Failure(thrown) =>
          error := Some(ErrorText(thrown, SearchFallback));
      }
      isLoading := false;
    }

    /** `fetchMovieById(id)` up to its `await`. */
    method BeginDetails()
      requires Valid()
      modifies this`isLoading, this`error
      ensures Valid()
      ensures isLoading && error == None
    {
      isLoading := true;
      error := None;
    }

    /** `fetchMovieById(id)` after its `await`. */
    method CompleteDetails(outcome: Result<MovieDetails, MovieService.Thrown>)
      requires Valid()
      modifies this`currentMovie, this`error, this`isLoading
      ensures Valid()
      ensures !isLoading
      ensures outcome.Success? ==> currentMovie == Some(outcome.value) && error == old(error)
      ensures outcome.Failure? ==>
        currentMovie == old(currentMovie) && error == Some(ErrorText(outcome.error, DetailsFallback))
    {
      match outcome {
        case Success(data) =>
          currentMovie := Some(data);
        case Failure(thrown) =>
          error := Some(ErrorText(thrown, DetailsFallback));
      }
      isLoading := false;
    }
  }

  /**
   * Mounting a new provider on the same store gives back the current favorites, when
   * their JSON text reads back as them.
   */
  lemma ReloadRestoresFavorites(p: MovieProvider)
    requires p.Valid() && Storage.RoundTrips(p.favoritesCodec, p.favorites)
    ensures LoadedFavorites(p.storage.GetItem(FavoritesKey), p.favoritesCodec) == p.favorites
  {
    Storage.RestoreEncoded(p.favoritesCodec, p.favorites);
  }

  /** Mounting a new provider on the same store gives back a non-empty committed query. */
  lemma ReloadRestoresSearchQuery(p: MovieProvider)
    requires p.Valid() && p.searchQuery != ""
    ensures InitialSearchQuery(p.storage.GetItem(LastSearchQueryKey)) == p.searchQuery
  {
  }

  /**
   * Two searches in flight whose responses arrive out of order: the older response,
   * arriving last, is what `searchResults` shows, since nothing discards it.
   */
  method LastArrivalWins(p: MovieProvider, older: seq<Movie>, newer: seq<Movie>)
    requires p.Valid()
    modifies p
    ensures p.Valid()
    ensures p.searchResults == older && !p.isLoading
  {
    var first := p.BeginSearch("a");
    var second := p.BeginSearch("ab");
    p.CompleteSearch(MovieService.SearchMovies(MovieService.Received(newer)));
    p.CompleteSearch(MovieService.SearchMovies(MovieService.Received(older)));
  }

  /** Through the catalog client a failed fetch always shows that client's fixed message. */
  method FailedTrendingShowsServiceMessage(p: MovieProvider)
    requires p.Valid()
    modifies p
    ensures p.Valid()
    ensures p.error == Some(MovieService.TrendingFailedMessage) && !p.isLoading
    ensures p.trendingMovies == old(p.trendingMovies)
  {
    p.BeginTrending();
    p.CompleteTrending(MovieService.FetchTrendingMovies(MovieService.TransportFailure));
  }
}
