# Movie Explorer client state, in Dafny

This project models the client-side state layer of Movie Explorer, a React front end to a public movie catalogue. It covers:

- the movie provider: trending list, search results, current movie, favorites, the shared `isLoading`/`error` pair and the committed search query;
- the pure helpers of the catalogue service: image URLs, trailer selection, runtime labels and the fixed messages of the three fetchers;
- the authentication provider: credential checks, login, logout and restoring the session at startup;
- the theme provider: the dark-mode flag;
- the debounced search box.

Everything the providers keep durably goes through one `Storage.LocalStorage` object, a `map<string, string>`. The JSON encoding is an abstract `Storage.Codec`. `Storage.RoundTrips(codec, x)` says the text written for `x` is non-empty and decodes back to `x`. `Storage.Lawful` says this of every value of the type. The session's `User` codec is assumed lawful. For the favorites list only the list actually stored is required to round-trip, since a `real` rating has more values than there are strings.

Asynchronous operations are split at their single `await`. `BeginTrending` is the part before the request and `CompleteTrending(outcome)` the part after it. The outcome is a `Result` whose failure carries the thrown value. `login` is split the same way, at its simulated delay, into `BeginLogin` and `CompleteLogin`. This lets interleavings of overlapping requests be written down. React's effects are modelled as the method calls that follow the state change that triggers them. They run in the order the component declares them.

Files:

- `wrappers.dfy`: `Option` and `Result`.
- `text.dfy`: JavaScript `trim`, ASCII `toLowerCase`, `includes`.
- `decimal.dfy`: `${n}` for integers and its inverse.
- `storage.dfy`: the store and the codec.
- `movie_types.dfy`: the records of the catalogue.
- `movie_service.dfy`: the service helpers.
- `favorites.dfy`: the favorites updaters, as functions on `seq<Movie>`.
- `movie_context.dfy`: the movie provider class.
- `auth_context.dfy`: the authentication provider class.
- `theme_context.dfy`: the theme provider class.
- `search_bar.dfy`: the search box class.

Some behaviours of the code are easy to mistake for something else. The model follows the code in each of them:

- **Out-of-order search responses.** A response to an older search that arrives after the response to a newer one still replaces the results. Nothing tags a request with its query (`src/contexts/MovieContext.tsx:111-132`). `MovieContext.LastArrivalWins` shows the older result ending up on screen.
- **A YouTube teaser alone.** A list holding only a YouTube teaser yields an embed URL: the third tier accepts any YouTube entry (`src/services/movieService.ts:91-95`). See `MovieService.TeaserOnlyIsEmbedded`.
- **Clearing during a pending commit.** Clearing the search box does not cancel a pending debounce timer. The cleared text comes back and is searched when the timer fires. See `Search.ClearDoesNotCancelPendingCommit`.
- **Committing whitespace.** A debounce commit of a whitespace-only, non-empty text stores that text as `lastSearchQuery`, although no search is made.
- **A stored session that is JSON but not a user.** `JSON.parse` accepts texts such as `null`. The restore effect then signs in with that value as the user and keeps the key (`src/contexts/AuthContext.tsx:28-30`). The model's `User` codec rejects such text, so the model treats it as corrupt (see "## Left out").

## Model

| member | source | states |
|---|---|---|
| Text.TrimStart | src/contexts/MovieContext.tsx:112 | the result is a suffix of the input that is empty or starts with a non-whitespace character, and every dropped character is ECMAScript whitespace |
| Text.TrimEnd | src/contexts/MovieContext.tsx:112 | the mirror image: a prefix that is empty or ends with non-whitespace, and every dropped character is whitespace |
| Text.TrimEmptyIffBlank | src/contexts/MovieContext.tsx:112 | `trim()` gives `''` exactly for the strings made of whitespace only, which is how the model writes the guard `!query.trim()` |
| Text.Trim | src/contexts/MovieContext.tsx:112 | `trim()` gives the slice of the input that starts where the leading whitespace ends; it neither starts nor ends with whitespace; every character after it is whitespace; it is empty exactly when the input is blank |
| Text.Includes | src/services/movieService.ts:82 | `includes`: the empty string is included anywhere; an included string is no longer than the text; a prefix or a suffix of the text is included |
| Text.ToLowerCase | src/services/movieService.ts:82 | same length as the input, each character lower-cased (ASCII letters) |
| Decimal.NatToString | src/services/movieService.ts:107-110 | the numeral is non-empty, all digits and has no leading zero |
| Decimal.IntToString | src/services/movieService.ts:107-110 | a negative number prints as `-` followed by the numeral of its magnitude, any other number as its numeral |
| Decimal.ParseNatToString | src/services/movieService.ts:107-110 | reading back the numeral of `n` gives `n` |
| Decimal.NatToStringInjective | src/services/movieService.ts:107-110 | distinct numbers print differently |
| Storage.LocalStorage.GetItem | src/contexts/MovieContext.tsx:68 | `getItem` gives a value exactly when the key is stored, and that value is the stored one |
| Storage.LocalStorage.SetItem | src/contexts/MovieContext.tsx:84 | `setItem` overwrites that one key and leaves every other key as it was |
| Storage.LocalStorage.RemoveItem | src/contexts/MovieContext.tsx:78 | `removeItem` deletes that one key and leaves every other key as it was |
| Storage.Restore | src/contexts/MovieContext.tsx:72-80 | nothing is restored exactly when the key is absent or holds `''`; a parsed value is what `decode` returned; the value is corrupt exactly when it is non-empty and does not parse |
| Storage.RestoreEncoded | src/contexts/MovieContext.tsx:72-85 | a value whose written text round-trips is restored as that value |
| Favorites.IsIn | src/contexts/MovieContext.tsx:165-167 | `some(m => m.id === id)` is true exactly when some entry has that id |
| Favorites.Add | src/contexts/MovieContext.tsx:152-159 | an id already present leaves the list unchanged; a fresh movie is appended at the end with earlier entries untouched; afterwards the id is present; the ids present are the old ones plus the new one; unique ids stay unique |
| Favorites.AppendMembership | src/contexts/MovieContext.tsx:157 | after appending a movie, an id is present exactly when it was before or is the movie's |
| Favorites.Remove | src/contexts/MovieContext.tsx:161-163 | no entry with the id remains; other ids keep their membership; the result is an order-preserving subsequence of the input; each movie whose id differs keeps its exact multiplicity |
| Favorites.RemoveKeepsUniqueIds | src/contexts/MovieContext.tsx:161-163 | removing keeps the ids unique |
| Favorites.RemoveAbsent | src/contexts/MovieContext.tsx:162 | removing an id that no entry has leaves the list unchanged |
| Favorites.AddIdempotent | src/contexts/MovieContext.tsx:154-157 | adding the same movie twice equals adding it once |
| Favorites.IntentsKeepUniqueIds | src/contexts/MovieContext.tsx:152-163 | any sequence of adds and removes keeps the ids unique |
| Favorites.ApplyIntentsSnoc | src/contexts/MovieContext.tsx:152-163 | applying one more intent is one more updater call on the list so far |
| Favorites.IntentsDecideMembership | src/contexts/MovieContext.tsx:152-167 | after any sequence of adds and removes, `isInFavorites(id)` is decided by the last intent that names `id` (an add gives true, a remove false), or by the starting list if none does |
| MovieContext.ErrorText | src/contexts/MovieContext.tsx:101-105 | an `Error` shows its own message, and any other thrown value the operation's fallback text |
| MovieContext.LoadedFavorites | src/contexts/MovieContext.tsx:71-81 | the list at startup is the decoded stored list when the value is present, non-empty and parses; otherwise it is `[]` |
| MovieContext.InitialSearchQuery | src/contexts/MovieContext.tsx:67-69 | the initial query is the stored `lastSearchQuery`, or `''` when there is none |
| MovieContext.MovieProvider.constructor | src/contexts/MovieContext.tsx:60-91 | after mounting: empty catalogue state, not loading, no error, the query from the store, the favorites the load effect leaves, and the store changed only by writing the encoded favorites; the persistence invariant holds |
| MovieContext.MovieProvider.LoadStoredFavorites | src/contexts/MovieContext.tsx:71-81 | a parseable stored list becomes the favorites; a corrupt one is removed from the store and the list is left as it was; an absent or empty value changes nothing |
| MovieContext.MovieProvider.PersistFavorites | src/contexts/MovieContext.tsx:83-85 | the stored `favorites` becomes the encoding of the current list and no other key changes |
| MovieContext.MovieProvider.AddToFavorites | src/contexts/MovieContext.tsx:152-159 | the list becomes `Favorites.Add` of the old list, the store holds its encoding, and the persistence invariant is kept |
| MovieContext.MovieProvider.RemoveFromFavorites | src/contexts/MovieContext.tsx:161-163 | the list becomes `Favorites.Remove` of the old list, the store holds its encoding, and the persistence invariant is kept |
| MovieContext.MovieProvider.IsInFavorites | src/contexts/MovieContext.tsx:165-167 | true exactly when some favorite has the id; a function, so it changes no state |
| MovieContext.MovieProvider.SetSearchQuery | src/contexts/MovieContext.tsx:87-91 | the committed query becomes `q`; the store gains `lastSearchQuery = q` when `q` is non-empty and is untouched otherwise |
| MovieContext.MovieProvider.BeginTrending | src/contexts/MovieContext.tsx:93-95 | on entry: loading, no error |
| MovieContext.MovieProvider.CompleteTrending | src/contexts/MovieContext.tsx:97-108 | success replaces only the trending list; failure keeps it and sets the error to the thrown message (or the fallback for a non-`Error`); loading ends either way |
| MovieContext.MovieProvider.BeginSearch | src/contexts/MovieContext.tsx:111-118 | a request starts exactly when the query is not blank; a blank query empties the results and leaves loading and error untouched; otherwise loading with no error |
| MovieContext.MovieProvider.CompleteSearch | src/contexts/MovieContext.tsx:120-131 | success replaces only the results; failure keeps them and sets the message; loading ends either way |
| MovieContext.MovieProvider.BeginDetails | src/contexts/MovieContext.tsx:134-136 | on entry: loading, no error |
| MovieContext.MovieProvider.CompleteDetails | src/contexts/MovieContext.tsx:138-149 | success replaces only the current movie; failure keeps it and sets the message; loading ends either way |
| MovieContext.ReloadRestoresFavorites | src/contexts/MovieContext.tsx:71-85 | mounting a new provider on the same store gives back the current favorites, whenever their JSON text reads back as them |
| MovieContext.ReloadRestoresSearchQuery | src/contexts/MovieContext.tsx:67-91 | mounting a new provider on the same store gives back a non-empty committed query |
| MovieContext.LastArrivalWins | src/contexts/MovieContext.tsx:111-132 | with two searches in flight, the response that arrives last is what the results show, even when it answers the older query |
| MovieContext.FailedTrendingShowsServiceMessage | src/services/movieService.ts:37-40 | a failed trending request leaves the service's fixed message as the error and keeps the previous trending list |
| MovieService.ImageUrl | src/services/movieService.ts:23-31 | an absent or empty path gives the placeholder; any other path gives the text made of base URL, `/` and size, followed by the path |
| MovieService.PosterUrl | src/services/movieService.ts:23-26 | the placeholder exactly when the path is absent or empty; otherwise base URL, `/`, size and path, with size `w500` when the argument is omitted |
| MovieService.BackdropUrl | src/services/movieService.ts:28-31 | the placeholder exactly when the path is absent or empty; otherwise base URL, `/`, size and path, with size `original` when the argument is omitted |
| MovieService.ImageUrlInjective | src/services/movieService.ts:23-31 | for one size, distinct non-empty paths give distinct URLs |
| MovieService.FindFirst | src/services/movieService.ts:78-93 | `find` returns the first entry matching the tier, and none exactly when no entry matches |
| MovieService.ChosenVideo | src/services/movieService.ts:78-95 | the chosen entry is on YouTube; none exactly when no entry is on YouTube; an official trailer, if any, wins (the first one); failing that, the first YouTube trailer; failing that, the first YouTube entry |
| MovieService.TrailerUrl | src/services/movieService.ts:73-98 | no URL for an absent list or empty results; no URL exactly when no entry is on YouTube; otherwise the embed prefix followed by the chosen entry's key |
| MovieService.TeaserOnlyIsEmbedded | src/services/movieService.ts:91-97 | a list holding only a YouTube teaser yields that teaser's embed URL |
| MovieService.OfficialTrailerWins | src/services/movieService.ts:78-95 | an "Official Trailer" is chosen over an earlier plain trailer |
| MovieService.JsRemainder | src/services/movieService.ts:104 | JavaScript `%`: the dividend minus the remainder is a multiple of `b`, and the remainder lies in `[0, b)` for a non-negative dividend and in `(-b, 0]` for a negative one |
| MovieService.JsFloorDiv | src/services/movieService.ts:103 | `Math.floor(a / b)` for positive `b`: the largest `q` with `b * q <= a` |
| MovieService.FormatRuntime | src/services/movieService.ts:100-101 | `undefined` and `0` both give `N/A` |
| MovieService.FormatRuntimeUnderAnHour | src/services/movieService.ts:103-107 | for 1 to 59 minutes the label is the numeral followed by `min` |
| MovieService.FormatRuntimeHours | src/services/movieService.ts:103-110 | from 60 minutes on, the label is `<h>h <m>min` with `h >= 1`, `0 <= m < 60` and `h * 60 + m` equal to the input |
| MovieService.ReadFormattedRuntime | src/services/movieService.ts:100-111 | every label of a positive runtime reads back as that runtime |
| MovieService.FormatRuntimeInjective | src/services/movieService.ts:100-111 | distinct positive runtimes get distinct labels |
| MovieService.FormatRuntimeExamples | src/services/movieService.ts:100-111 | 45 gives `45min`, 125 gives `2h 5min`, 0 and `undefined` give `N/A` |
| MovieService.FetchTrendingMovies | src/services/movieService.ts:33-41 | succeeds exactly when the response arrived, returning its data; otherwise throws an `Error` with the fixed trending message |
| MovieService.SearchMovies | src/services/movieService.ts:43-57 | succeeds exactly when the response arrived, returning its data; otherwise throws an `Error` with the fixed search message |
| MovieService.FetchMovieDetails | src/services/movieService.ts:59-71 | succeeds exactly when the response arrived, returning its data; otherwise throws an `Error` with the fixed details message |
| AuthContext.ValidateCredentials | src/contexts/AuthContext.tsx:44-54 | the checks pass exactly when the username has at least 3 characters and the password at least 6; "required" exactly when a field is empty; "username" exactly when both are filled and the username is short; "password" exactly when the username is long enough and the password is filled but short |
| AuthContext.ValidationExamples | src/contexts/AuthContext.tsx:48-54 | a 2-character username fails on its length, and a 3-character username with a 6-character password passes |
| AuthContext.AuthProvider.constructor | src/contexts/AuthContext.tsx:19-37 | a parseable stored user is signed in; a corrupt one is removed and the session stays signed out; an absent one stays signed out; loading ends false in every case; the session invariant holds |
| AuthContext.AuthProvider.BeginLogin | src/contexts/AuthContext.tsx:39-54 | loading starts with no error; the call stays pending exactly when the checks pass; a failed check ends loading at once with that check's message; user, sign-in and store are untouched |
| AuthContext.AuthProvider.CompleteLogin | src/contexts/AuthContext.tsx:56-72 | after the delay the encoded user is stored, the user is `{username}`, the session is signed in and loading ends; the error is untouched |
| AuthContext.FirstLoginEndsLoadingEarly | src/contexts/AuthContext.tsx:39-73 | with two overlapping logins, the first to resume ends loading and signs in its user while the second is still pending |
| AuthContext.AuthProvider.Login | src/contexts/AuthContext.tsx:39-73 | a call with no other event during its delay succeeds exactly when the checks pass; on success the user is `{username}`, signed in, with no error and the encoded user stored; on failure the error is the first failed check's message and user, sign-in and store are unchanged; loading ends false |
| AuthContext.AuthProvider.Logout | src/contexts/AuthContext.tsx:75-79 | the stored user is removed and the session is signed out |
| ThemeContext.ModeText | src/contexts/ThemeContext.tsx:24 | `toString` of the flag is `"true"` or `"false"`, and `"true"` exactly when the flag is set |
| ThemeContext.InitialDarkMode | src/contexts/ThemeContext.tsx:11-17 | a stored value decides, and only `"true"` means dark; with nothing stored the platform preference decides |
| ThemeContext.InitialDarkModeOfModeText | src/contexts/ThemeContext.tsx:11-25 | reading back the text the provider stores gives the flag, whatever the platform prefers |
| ThemeContext.ThemeProvider.constructor | src/contexts/ThemeContext.tsx:10-25 | the flag is the initial selection and the store holds its text |
| ThemeContext.ThemeProvider.ToggleDarkMode | src/contexts/ThemeContext.tsx:19-25 | the flag is negated and its text stored; no other key changes |
| ThemeContext.ReloadRestoresDarkMode | src/contexts/ThemeContext.tsx:11-25 | mounting a new provider on the same store gives back the current flag |
| ThemeContext.ToggleTwice | src/contexts/ThemeContext.tsx:19-21 | toggling twice restores the flag and the store |
| Search.SearchBar.constructor | src/components/Search/SearchBar.tsx:7-8 | the input starts as the committed query, with no pending commit |
| Search.SearchBar.SyncLocalQuery | src/components/Search/SearchBar.tsx:14-16 | when the committed query changed since the effect last ran, the input is reset to it; otherwise the input is kept |
| Search.SearchBar.Change | src/components/Search/SearchBar.tsx:18-26 | the input shows the new value at once and the pending commit is replaced by one carrying that value |
| Search.SearchBar.TimerFire | src/components/Search/SearchBar.tsx:26-32 | the pending value is committed even when blank (and stored when non-empty); a search starts exactly when the value is not blank, and otherwise loading and error are untouched; the results are untouched either way; the timer is gone; the input follows the sync effect; favorites, trending list and current movie are untouched |
| Search.SearchBar.Submit | src/components/Search/SearchBar.tsx:35-43 | a non-blank input is committed, stored and searched at once; a blank input changes nothing; a pending commit stays scheduled |
| Search.SearchBar.Clear | src/components/Search/SearchBar.tsx:45-51 | the input and the committed query both become `''`; the pending commit and the store are untouched |
| Search.SearchBar.TypeRun | src/components/Search/SearchBar.tsx:18-33 | after a run of changes with no firing between them, only the last value is pending and shown |
| Search.ClearDoesNotCancelPendingCommit | src/components/Search/SearchBar.tsx:18-51 | typing a non-blank text, clearing, then letting the timer fire commits the typed text, and the input shows it again |

## Left out

- Network I/O. The axios calls, the endpoint URLs, the request parameters and the API-key and base-URL configuration (`src/services/movieService.ts:4-21`) are left out. A request is reduced to `Received(data)` or `TransportFailure`. `IMAGE_BASE_URL` is the constant default.
- `formatReleaseDate` and `getYearFromDate` are left out. They depend on JavaScript `Date` and locale formatting.
- Floating-point values are left out. `vote_average` is a `real` that nothing computes with, and the rating display is view code.
- Real time is left out. The 800 ms login delay and the 500 ms debounce are not modelled. The timer's expiry is the event `Search.SearchBar.TimerFire`.
- AuthContext.AuthProvider.Login: the `'An unexpected error occurred'` branch is not modelled. Every value that `login` throws is an `Error`, so the branch cannot be reached.
- `window.matchMedia` is the parameter `prefersDark`. The DOM class toggling of the dark theme is left out.
- Navigation after a search is reported as the `searched` result and is not modelled further. Input focus, the focus ring and all rendering are view code.
- `useMovies`, `useAuth` and `useTheme` are left out. They only fail outside their provider, which is React context plumbing.
- `console.error` logging is left out, as are React StrictMode's doubled effects.
- Storage.Codec: the real JSON encoding is left out. It is an abstract codec. `JSON.parse` of a stored value that is valid JSON but not a list (such as `null`) would put that value into `favorites`; the model's codec either yields a list or fails.
- AuthContext.AuthProvider.constructor: a stored `user` that is valid JSON but not a user (such as `null`) is classed as corrupt: the key is removed and the session stays signed out. The source signs in with that value as the user and keeps the key, ending signed in with no user. The model's invariant that a signed-in session has a user therefore holds for the typed codec, not for arbitrary stored text.
- AuthContext.ValidateCredentials: counts characters, not UTF-16 code units as JavaScript's `length` does. Lengths differ for characters outside the Basic Multilingual Plane.
- Text.ToLowerCase: lower-cases the ASCII letters only, not the full Unicode case mapping of `toLowerCase`.
- MovieService.FormatRuntime: takes unbounded exact integer minutes, printed without an exponent. A fractional JavaScript number is not modelled. Neither are values beyond 2^53, which doubles do not hold exactly, or magnitudes from 1e21 on, which JavaScript prints in exponent form.
