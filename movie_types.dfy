/** The catalog records of `src/contexts/MovieContext.tsx` (`Movie`, `MovieDetails`). */
module MovieTypes {
  import opened Wrappers

  datatype Genre = Genre(id: int, name: string)

  /** A catalog summary; `id` is the identity the favorites list goes by. */
  datatype Movie = Movie(
    id: int,
    title: string,
    posterPath: Option<string>,
    backdropPath: Option<string>,
    releaseDate: string,
    voteAverage: real,
    overview: string,
    genreIds: Option<seq<int>>,
    genres: Option<seq<Genre>>)

  /** One entry of `videos.results`; `kind` is the record's `type` field. */
  datatype Video = Video(id: string, key: string, name: string, site: string, kind: string)

  /** The `videos` payload: its `results` array may itself be missing. */
  datatype VideoList = VideoList(results: Option<seq<Video>>)

  datatype Company = Company(id: int, name: string, logoPath: Option<string>)

  datatype CastMember = CastMember(id: int, name: string, character: string, profilePath: Option<string>)

  datatype Credits = Credits(cast: seq<CastMember>)

  /** A detail record: the summary fields plus what `append_to_response` adds. */
  datatype MovieDetails = MovieDetails(
    summary: Movie,
    runtime: Option<int>,
    tagline: string,
    status: string,
    productionCompanies: seq<Company>,
    videos: Option<VideoList>,
    credits: Option<Credits>)
}
