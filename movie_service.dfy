/**
 * The pure helpers of `src/services/movieService.ts`: image URLs, trailer selection,
 * runtime formatting, and how the three catalog fetchers turn a transport outcome
 * into a value or a thrown `Error`.
 */
module MovieService {
  import opened Wrappers
  import opened MovieTypes
  import opened Decimal
  import Text

  const ImageBaseUrl := "https://image.tmdb.org/t/p"
  const PosterPlaceholder := "/placeholder-poster.jpg"
  const BackdropPlaceholder := "/placeholder-backdrop.jpg"
  const DefaultPosterSize := "w500"
  const DefaultBackdropSize := "original"
  const YouTubeEmbedPrefix := "https://www.youtube.com/embed/"
  const NotAvailable := "N/A"

  const TrendingFailedMessage := "Failed to fetch trending movies. Please try again later."
  const SearchFailedMessage := "Failed to search movies. Please try again later."
  const DetailsFailedMessage := "Failed to fetch movie details. Please try again later."

  // ---------------------------------------------------------------------------
  // Image URLs

  /** Shared shape of `getPosterUrl` and `getBackdropUrl`: `!path` selects the placeholder. */
  function ImageUrl(path: Option<string>, size: string, placeholder: string): (r: string)
    ensures path.None? || path.value == "" ==> r == placeholder
    ensures path.Some? && path.value != "" ==>
      var prefix := ImageBaseUrl + "/" + size;
      |r| == |prefix| + |path.value| && r[..|prefix|] == prefix && r[|prefix|..] == path.value
  {
    if path.None? || path.value == "" then placeholder else ImageBaseUrl + "/" + size + path.value
  }

  /**
   * `getPosterUrl(path, size)`. `size` is `None` when the caller omits the argument
   * (or passes `undefined`), and the default `'w500'` is used.
   */
  function PosterUrl(path: Option<string>, size: Option<string>): (r: string)
    ensures r == PosterPlaceholder <==> path.None? || path.value == ""
    ensures path.Some? && path.value != "" && size.Some? ==>
      r == ImageBaseUrl + "/" + size.value + path.value
    ensures path.Some? && path.value != "" && size.None? ==>
      r == ImageBaseUrl + "/" + DefaultPosterSize + path.value
  {
    var r := ImageUrl(path, if size.Some? then size.value else DefaultPosterSize, PosterPlaceholder);
    assert path.Some? && path.value != "" ==> r[0] == 'h';
    r
  }

  /**
   * `getBackdropUrl(path, size)`. `size` is `None` when the caller omits the argument
   * (or passes `undefined`), and the default `'original'` is used.
   */
  function BackdropUrl(path: Option<string>, size: Option<string>): (r: string)
    ensures r == BackdropPlaceholder <==> path.None? || path.value == ""
    ensures path.Some? && path.value != "" && size.Some? ==>
      r == ImageBaseUrl + "/" + size.value + path.value
    ensures path.Some? && path.value != "" && size.None? ==>
      r == ImageBaseUrl + "/" + DefaultBackdropSize + path.value
  {
    var r := ImageUrl(path, if size.Some? then size.value else DefaultBackdropSize, BackdropPlaceholder);
    assert path.Some? && path.value != "" ==> r[0] == 'h';
    r
  }

  /** For one size, distinct image paths give distinct URLs. */
  lemma ImageUrlInjective(p: string, q: string, size: string, placeholder: string)
    requires p != "" && q != ""
    requires ImageUrl(Some(p), size, placeholder) == ImageUrl(Some(q), size, placeholder)
    ensures p == q
  {
    var prefix := ImageBaseUrl + "/" + size;
    assert ImageUrl(Some(p), size, placeholder) == prefix + p;
    assert ImageUrl(Some(q), size, placeholder) == prefix + q;
    assert p == (prefix + p)[|prefix|..];
    assert q == (prefix + q)[|prefix|..];
  }

  // ---------------------------------------------------------------------------
  // Trailer selection

  predicate IsYouTube(v: Video)
  {
    v.site == "YouTube"
  }

  predicate IsYouTubeTrailer(v: Video)
  {
    v.kind == "Trailer" && IsYouTube(v)
  }

  /** `type === 'Trailer' && site === 'YouTube' && name.toLowerCase().includes('official')`. */
  predicate IsOfficialTrailer(v: Video)
  {
    IsYouTubeTrailer(v) && Text.Includes(Text.ToLowerCase(v.name), "official")
  }

  /** The three predicates `getTrailerUrl` passes to `find`, in order of preference. */
  datatype Tier = OfficialTrailer | AnyTrailer | AnyVideo

  predicate Matches(tier: Tier, v: Video)
  {
    match tier
    case OfficialTrailer => IsOfficialTrailer(v)
    case AnyTrailer => IsYouTubeTrailer(v)
    case AnyVideo => IsYouTube(v)
  }

  /** `results.find(p)`, as the position of the element it returns: the first match. */
  function FindFirst(rs: seq<Video>, tier: Tier): (r: Option<nat>)
    ensures r.Some? ==> r.value < |rs| && Matches(tier, rs[r.value])
    ensures r.Some? ==> forall j :: 0 <= j < r.value ==> !Matches(tier, rs[j])
    ensures r.None? <==> forall j :: 0 <= j < |rs| ==> !Matches(tier, rs[j])
  {
    if rs == [] then None
    else if Matches(tier, rs[0]) then Some(0)
    else match FindFirst(rs[1..], tier)
      case None => None
      case Some(i) => Some(i + 1)
  }

  /** `officialTrailer || anyTrailer || anyVideo`: the first tier that found something. */
  function ChosenVideo(rs: seq<Video>): (r: Option<nat>)
    ensures r.Some? ==> r.value < |rs| && IsYouTube(rs[r.value])
    ensures r.None? <==> forall j :: 0 <= j < |rs| ==> !IsYouTube(rs[j])
    ensures (exists j :: 0 <= j < |rs| && IsOfficialTrailer(rs[j])) ==>
      r.Some? && IsOfficialTrailer(rs[r.value]) &&
      forall j :: 0 <= j < r.value ==> !IsOfficialTrailer(rs[j])
    ensures (forall j :: 0 <= j < |rs| ==> !IsOfficialTrailer(rs[j])) &&
            (exists j :: 0 <= j < |rs| && IsYouTubeTrailer(rs[j])) ==>
      r.Some? && IsYouTubeTrailer(rs[r.value]) &&
      forall j :: 0 <= j < r.value ==> !IsYouTubeTrailer(rs[j])
    ensures (forall j :: 0 <= j < |rs| ==> !IsYouTubeTrailer(rs[j])) && r.Some? ==>
      forall j :: 0 <= j < r.value ==> !IsYouTube(rs[j])
  {
    var official := FindFirst(rs, OfficialTrailer);
    var trailer := FindFirst(rs, AnyTrailer);
    var video := FindFirst(rs, AnyVideo);
    if official.Some? then official
    else if trailer.Some? then trailer
    else video
  }

  /** Some entry of the payload is hosted on YouTube. */
  predicate HasYouTubeVideo(videos: Option<VideoList>)
  {
    videos.Some? && videos.value.results.Some? &&
    exists j :: 0 <= j < |videos.value.results.value| && IsYouTube(videos.value.results.value[j])
  }

  /** `getTrailerUrl(videos)`: the embed URL of the chosen video, or `null`. */
  function TrailerUrl(videos: Option<VideoList>): (r: Option<string>)
    ensures videos.None? || videos.value.results.None? || videos.value.results.value == [] ==> r.None?
    ensures r.None? <==> !HasYouTubeVideo(videos)
    ensures r.Some? ==>
      var rs := videos.value.results.value;
      ChosenVideo(rs).Some? && r.value == YouTubeEmbedPrefix + rs[ChosenVideo(rs).value].key
  {
    if videos.None? || videos.value.results.None? || |videos.value.results.value| == 0 then None
    else
      var rs := videos.value.results.value;
      match ChosenVideo(rs)
      case None => None
      case Some(i) => Some(YouTubeEmbedPrefix + rs[i].key)
  }

  /** A YouTube teaser alone is still embedded: the last tier takes any YouTube entry. */
  lemma TeaserOnlyIsEmbedded()
    ensures TrailerUrl(Some(VideoList(Some([Video("1", "x", "Teaser", "YouTube", "Teaser")]))))
         == Some(YouTubeEmbedPrefix + "x")
  {
    var rs := [Video("1", "x", "Teaser", "YouTube", "Teaser")];
    assert IsYouTube(rs[0]);
  }

  /** An official trailer wins over an earlier plain trailer. */
  lemma OfficialTrailerWins()
    ensures
      var plain := Video("1", "p", "Trailer", "YouTube", "Trailer");
      var official := Video("2", "y", "Official Trailer", "YouTube", "Trailer");
      TrailerUrl(Some(VideoList(Some([plain, official])))) == Some(YouTubeEmbedPrefix + "y")
  {
    var plain := Video("1", "p", "Trailer", "YouTube", "Trailer");
    var official := Video("2", "y", "Official Trailer", "YouTube", "Trailer");
    var lower := Text.ToLowerCase(official.name);
    assert lower[..8] == "official" by {
      assert lower[0] == Text.LowerChar('O') == 'o';
      forall i | 1 <= i < 8 ensures lower[i] == official.name[i] {
        assert !('A' <= official.name[i] <= 'Z');
      }
    }
    assert Text.OccursAt(lower, "official", 0);
    assert IsOfficialTrailer(official);
    assert !IsOfficialTrailer(plain);
  }

  // ---------------------------------------------------------------------------
  // Runtime formatting

  /** `Math.floor(a / b)`: for a positive divisor Dafny's `/` already rounds down. */
  function JsFloorDiv(a: int, b: int): (r: int)
    requires b > 0
    ensures b * r <= a < b * r + b
  {
    a / b
  }

  /** JavaScript's `a % b`: the remainder takes the sign of `a`. */
  function JsRemainder(a: int, b: int): (r: int)
    requires b > 0
    ensures a >= 0 ==> 0 <= r < b
    ensures a < 0 ==> -b < r <= 0
    ensures (a - r) % b == 0
  {
    if a >= 0 then
      var k := a / b;
      assert a - a % b == b * k;
      MultipleRemainder(k, b);
      a % b
    else
      var k := -((-a) / b);
      assert (-a) == b * ((-a) / b) + (-a) % b;
      assert a + (-a) % b == b * k;
      MultipleRemainder(k, b);
      -((-a) % b)
  }

  /** A multiple of `b` leaves no remainder. */
  lemma MultipleRemainder(k: int, b: int)
    requires b > 0
    ensures (b * k) % b == 0
  {
    var x := b * k;
    assert x == b * (x / b) + x % b;
    var t := k - x / b;
    assert x % b == b * t;
    if t >= 1 {
      assert false;
    } else if t <= -1 {
      assert false;
    }
  }

  /** `formatRuntime(minutes)`; `!minutes` holds for `undefined` and `0`. */
  function FormatRuntime(minutes: Option<int>): (r: string)
    ensures minutes.None? || minutes.value == 0 ==> r == NotAvailable
  {
    if minutes.None? || minutes.value == 0 then NotAvailable
    else
      var hours := JsFloorDiv(minutes.value, 60);
      var remaining := JsRemainder(minutes.value, 60);
      if hours == 0 then IntToString(remaining) + "min"
      else IntToString(hours) + "h " + IntToString(remaining) + "min"
  }

  /** Under an hour only the minutes are printed. */
  lemma FormatRuntimeUnderAnHour(m: int)
    requires 1 <= m < 60
    ensures FormatRuntime(Some(m)) == NatToString(m) + "min"
  {
  }

  /** From an hour on, hours and the remaining minutes are printed, and they add up. */
  lemma FormatRuntimeHours(m: int)
    requires m >= 60
    ensures var h, rest := m / 60, m % 60;
      h >= 1 && 0 <= rest < 60 && h * 60 + rest == m &&
      FormatRuntime(Some(m)) == NatToString(h) + "h " + NatToString(rest) + "min"
  {
  }

  /** The position of the first `c` in `s`. */
  function IndexOf(s: string, c: char): (r: Option<nat>)
    ensures r.Some? ==> r.value < |s| && s[r.value] == c
    ensures r.Some? ==> forall j :: 0 <= j < r.value ==> s[j] != c
    ensures r.None? ==> forall j :: 0 <= j < |s| ==> s[j] != c
  {
    if s == [] then None
    else if s[0] == c then Some(0)
    else match IndexOf(s[1..], c)
      case None => None
      case Some(i) => Some(i + 1)
  }

  /** Reads a `"<m>min"` or `"<h>h <m>min"` label back into minutes. */
  function ReadRuntime(s: string): Option<nat>
  {
    if |s| >= 3 && s[|s| - 3..] == "min" then ReadLabelBody(s[..|s| - 3]) else None
  }

  /** A label without its `"min"` suffix: `"<m>"` or `"<h>h <m>"`. */
  function ReadLabelBody(body: string): Option<nat>
  {
    match IndexOf(body, 'h')
    case None => ReadNumeral(body)
    case Some(i) => ReadFields(body[..i], body[i + 1..])
  }

  /** The hours numeral before the `h` and the `" <m>"` after it. */
  function ReadFields(hours: string, rest: string): Option<nat>
  {
    if |rest| >= 1 && rest[0] == ' ' then
      match (ReadNumeral(hours), ReadNumeral(rest[1..]))
      case (Some(h), Some(m)) => Some(h * 60 + m)
      case _ => None
    else None
  }

  /** A non-empty string of digits, read as a number. */
  function ReadNumeral(s: string): Option<nat>
  {
    if s != "" && AllDigits(s) then Some(ParseNat(s)) else None
  }

  /** `c` first occurs just after a prefix that does not contain it. */
  lemma {:induction false} IndexOfFirst(prefix: string, c: char, tail: string)
    requires forall j :: 0 <= j < |prefix| ==> prefix[j] != c
    ensures IndexOf(prefix + [c] + tail, c) == Some(|prefix|)
  {
    if prefix != [] {
      assert (prefix + [c] + tail)[1..] == prefix[1..] + [c] + tail;
      IndexOfFirst(prefix[1..], c, tail);
    }
  }

  /** A label is read by stripping its `"min"` suffix. */
  lemma ReadRuntimeSuffix(body: string)
    ensures ReadRuntime(body + "min") == ReadLabelBody(body)
  {
    var s := body + "min";
    assert s[..|s| - 3] == body;
    assert s[|s| - 3..] == "min";
  }

  /** A numeral holds no letter `h`, so the label's `h` is found after it. */
  lemma NumeralHasNoH(digits: string)
    requires AllDigits(digits)
    ensures forall j :: 0 <= j < |digits| ==> digits[j] != 'h'
  {
    forall j | 0 <= j < |digits| ensures digits[j] != 'h' {
      assert IsDigit(digits[j]);
    }
  }

  /** A minutes-only label reads back as its numeral. */
  lemma ReadMinutesLabel(digits: string)
    requires digits != "" && AllDigits(digits)
    ensures ReadRuntime(digits + "min") == Some(ParseNat(digits))
  {
    ReadRuntimeSuffix(digits);
    NumeralHasNoH(digits);
  }

  /** The body `"<h>h <m>"` reads as hours times sixty plus minutes. */
  lemma ReadHoursBody(h: string, digits: string)
    requires h != "" && AllDigits(h) && digits != "" && AllDigits(digits)
    ensures ReadLabelBody(h + ['h'] + (" " + digits)) == Some(ParseNat(h) * 60 + ParseNat(digits))
  {
    var body := h + ['h'] + (" " + digits);
    NumeralHasNoH(h);
    IndexOfFirst(h, 'h', " " + digits);
    ReadBodyAtH(body, h, " " + digits);
  }

  /** Once the first `h` is located, the body splits into the text before and after it. */
  lemma ReadBodyAtH(body: string, before: string, after: string)
    requires body == before + ['h'] + after
    requires IndexOf(body, 'h') == Some(|before|)
    ensures ReadLabelBody(body) == ReadFields(before, after)
  {
    assert body[..|before|] == before;
    assert body[|before| + 1..] == after;
  }

  /** An hours-and-minutes label reads back as hours times sixty plus minutes. */
  lemma ReadHoursLabel(h: string, digits: string)
    requires h != "" && AllDigits(h) && digits != "" && AllDigits(digits)
    ensures ReadRuntime(h + "h " + digits + "min") == Some(ParseNat(h) * 60 + ParseNat(digits))
  {
    var body := h + ['h'] + (" " + digits);
    assert h + "h " + digits == body;
    ReadRuntimeSuffix(body);
    ReadHoursBody(h, digits);
  }

  /** Every positive runtime label reads back as the minutes it was made from. */
  lemma ReadFormattedRuntime(m: int)
    requires m >= 1
    ensures ReadRuntime(FormatRuntime(Some(m))) == Some(m)
  {
    if m < 60 {
      FormatRuntimeUnderAnHour(m);
      ReadMinutesLabel(NatToString(m));
      ParseNatToString(m);
    } else {
      FormatRuntimeHours(m);
      ReadHoursLabel(NatToString(m / 60), NatToString(m % 60));
      ParseNatToString(m / 60);
      ParseNatToString(m % 60);
    }
  }

  /** Distinct positive runtimes get distinct labels. */
  lemma FormatRuntimeInjective(a: int, b: int)
    requires a >= 1 && b >= 1
    requires FormatRuntime(Some(a)) == FormatRuntime(Some(b))
    ensures a == b
  {
    ReadFormattedRuntime(a);
    ReadFormattedRuntime(b);
  }

  /** The two worked examples of a runtime label. */
  lemma FormatRuntimeExamples()
    ensures FormatRuntime(Some(45)) == "45min"
    ensures FormatRuntime(Some(125)) == "2h 5min"
    ensures FormatRuntime(Some(0)) == NotAvailable && FormatRuntime(None) == NotAvailable
  {
    assert NatToString(45) == "45" by {
      assert NatToString(4) == "4";
    }
    assert NatToString(2) == "2" && NatToString(5) == "5";
  }

  // ---------------------------------------------------------------------------
  // Catalog fetchers

  /** What the HTTP call gave: the payload the fetcher returns, or any transport or status failure. */
  datatype Response<T> = Received(data: T) | TransportFailure

  /** What a `catch` clause receives: an `Error` with its message, or any other thrown value. */
  datatype Thrown = Error(message: string) | NonError

  /** `fetchTrendingMovies()`: the week's trending list, or an `Error` with its fixed message. */
  function FetchTrendingMovies(response: Response<seq<Movie>>): (r: Result<seq<Movie>, Thrown>)
    ensures r.Success? <==> response.Received?
    ensures r.Success? ==> r.value == response.data
    ensures r.Failure? ==> r.error == Error(TrendingFailedMessage)
  {
    match response
    case Received(data) => Success(data)
    case TransportFailure => Failure(Error(TrendingFailedMessage))
  }

  /** `searchMovies(query)`: the first result page, or an `Error` with its fixed message. */
  function SearchMovies(response: Response<seq<Movie>>): (r: Result<seq<Movie>, Thrown>)
    ensures r.Success? <==> response.Received?
    ensures r.Success? ==> r.value == response.data
    ensures r.Failure? ==> r.error == Error(SearchFailedMessage)
  {
    match response
    case Received(data) => Success(data)
    case TransportFailure => Failure(Error(SearchFailedMessage))
  }

  /** `fetchMovieDetails(id)`: the detail record, or an `Error` with its fixed message. */
  function FetchMovieDetails(response: Response<MovieDetails>): (r: Result<MovieDetails, Thrown>)
    ensures r.Success? <==> response.Received?
    ensures r.Success? ==> r.value == response.data
    ensures r.Failure? ==> r.error == Error(DetailsFailedMessage)
  {
    match response
    case Received(data) => Success(data)
    case TransportFailure => Failure(Error(DetailsFailedMessage))
  }
}
