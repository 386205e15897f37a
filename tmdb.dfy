/** The film and TV catalog adapters (src/lib/api/adapters/tmdb.adapter.ts).
    Both share one module-level genre table that is filled on first use.
    HTTP responses are inputs: a request that fails is a `Failure`. */
module Tmdb {
  import opened Wrappers
  import opened Text
  import opened Media
  import opened Sorting

  const IMAGE_BASE_URL: string := "https://image.tmdb.org/t/p/w500"

  /** What both adapters throw when no API key is configured. */
  const MISSING_KEY: Exception := Error("TMDB API key not configured")

  /** The two adapters: films and TV series. */
  datatype Kind = MovieKind | TvKind

  function TypeOf(k: Kind): MediaType {
    match k
    case MovieKind => Movie
    case TvKind => Tv
  }

  datatype SearchItem = SearchItem(
    id: int,
    title: Option<string>,
    name: Option<string>,
    releaseDate: Option<string>,
    firstAirDate: Option<string>,
    posterPath: Option<string>,
    genreIds: Option<seq<int>>,
    overview: Option<string>)

  datatype SearchResponse = SearchResponse(results: seq<SearchItem>, totalPages: int, totalResults: int)

  datatype Genre = Genre(id: int, name: string)

  datatype CastMember = CastMember(name: string, character: string)

  datatype Credits = Credits(cast: Option<seq<CastMember>>)

  /** A detail response: the search fields plus full genres and credits. */
  datatype DetailResponse = DetailResponse(item: SearchItem, genres: Option<seq<Genre>>, credits: Option<Credits>)

  datatype GenreList = GenreList(genres: Option<seq<Genre>>)

  /** The two genre-list requests, fetched together: if either fails, both do. */
  datatype GenreFetch = GenreFetchFailed | GenreFetched(movie: GenreList, tv: GenreList)

  // ---------------------------------------------------------------------
  // The genre table

  /** Film genres followed by TV genres. */
  function AllGenres(movie: GenreList, tv: GenreList): seq<Genre> {
    movie.genres.GetOr([]) + tv.genres.GetOr([])
  }

  /** The table the reduce over `gs` builds: each genre overwrites its id. */
  function BuildTable(gs: seq<Genre>): map<int, string> {
    if gs == [] then map[] else BuildTable(gs[..|gs| - 1])[gs[|gs| - 1].id := gs[|gs| - 1].name]
  }

  /** Index of the last genre in `gs` with the given id. */
  function LastWithId(gs: seq<Genre>, id: int): (r: Option<nat>)
    ensures r.Some? ==> r.value < |gs| && gs[r.value].id == id
    ensures r.Some? ==> forall j :: r.value < j < |gs| ==> gs[j].id != id
    ensures r.None? ==> forall j :: 0 <= j < |gs| ==> gs[j].id != id
  {
    if gs == [] then None
    else if gs[|gs| - 1].id == id then Some(|gs| - 1)
    else LastWithId(gs[..|gs| - 1], id)
  }

  /** The table knows exactly the ids that occur in the lists, and for an id
      listed twice (say in both the film and the TV list) it keeps the name
      seen last. */
  lemma {:induction false} BuildTableLookup(gs: seq<Genre>, id: int)
    ensures id in BuildTable(gs) <==> LastWithId(gs, id).Some?
    ensures id in BuildTable(gs) ==> BuildTable(gs)[id] == gs[LastWithId(gs, id).value].name
  {
    if gs != [] {
      BuildTableLookup(gs[..|gs| - 1], id);
    }
  }

  /** The table after `fetchGenres`: a table that is already filled is left
      alone without any request; otherwise a successful fetch replaces it
      and a failed one leaves it as it was. */
  function AfterFetch(cache: map<int, string>, fetch: GenreFetch): map<int, string> {
    if |cache| > 0 then cache
    else
      match fetch
      case GenreFetchFailed => cache
      case GenreFetched(movie, tv) => BuildTable(AllGenres(movie, tv))
  }

  /** Once the table is filled, later fetches never change it. */
  lemma AfterFetchWriteOnce(cache: map<int, string>, first: GenreFetch, later: GenreFetch)
    requires |AfterFetch(cache, first)| > 0
    ensures AfterFetch(AfterFetch(cache, first), later) == AfterFetch(cache, first)
  {
  }

  /** The module-level `genreCache`. */
  class GenreCache {
    var names: map<int, string>

    constructor ()
      ensures names == map[]
    {
      names := map[];
    }

    /** `fetchGenres()`. */
    method FetchGenres(fetch: GenreFetch)
      modifies this
      ensures names == AfterFetch(old(names), fetch)
    {
      if |names| > 0 {
        return;
      }
      match fetch {
        case GenreFetchFailed =>
        case GenreFetched(movie, tv) =>
          var all := AllGenres(movie, tv);
          var acc: map<int, string> := map[];
          var i := 0;
          while i < |all|
            invariant 0 <= i <= |all|
            invariant acc == BuildTable(all[..i])
          {
            assert all[..i + 1][..i] == all[..i];
            acc := acc[all[i].id := all[i].name];
            i := i + 1;
          }
          assert all[..|all|] == all;
          names := acc;
      }
    }
  }

  // ---------------------------------------------------------------------
  // Normalisation

  /** The name shown for a genre id: its table entry, or `Genre <id>` when
      the table has no (non-empty) name for it. Never empty. */
  function GenreLabel(cache: map<int, string>, id: int): (shown: string)
    ensures shown != ""
    ensures id in cache && cache[id] != "" ==> shown == cache[id]
    ensures !(id in cache && cache[id] != "") ==> shown == "Genre " + IntToString(id)
  {
    if id in cache && cache[id] != "" then cache[id] else "Genre " + IntToString(id)
  }

  function PosterUrl(posterPath: Option<string>): Option<string> {
    if Truthy(posterPath) then Some(IMAGE_BASE_URL + posterPath.value) else None
  }

  /** `normalizeResult(item, type)`: the year is the first four characters of
      the release date, else of the first air date, else empty (never
      missing); one genre label per genre id, in order. */
  function NormalizeResult(item: SearchItem, kind: Kind, cache: map<int, string>): (m: NormalizedMedia)
    ensures m.externalId == IntToString(item.id)
    ensures m.mediaType == TypeOf(kind)
    ensures m.title == Or(item.title, Or(item.name, ""))
    ensures m.year.Some? && |m.year.value| <= 4
    ensures Truthy(item.releaseDate) ==> m.year.value == Take(item.releaseDate.value, 4)
    ensures !Truthy(item.releaseDate) && Truthy(item.firstAirDate) ==> m.year.value == Take(item.firstAirDate.value, 4)
    ensures !Truthy(item.releaseDate) && !Truthy(item.firstAirDate) ==> m.year.value == ""
    ensures m.posterUrl.Some? <==> Truthy(item.posterPath)
    ensures m.posterUrl.Some? ==> m.posterUrl.value == IMAGE_BASE_URL + item.posterPath.value
    ensures |m.genres| == |item.genreIds.GetOr([])|
    ensures forall i :: 0 <= i < |m.genres| ==> m.genres[i] == GenreLabel(cache, item.genreIds.GetOr([])[i])
    ensures m.metadata == ScreenMetadata(Or(item.overview, ""))
  {
    var ids := item.genreIds.GetOr([]);
    NormalizedMedia(
      IntToString(item.id),
      TypeOf(kind),
      Or(item.title, Or(item.name, "")),
      Some(Take(Or(item.releaseDate, Or(item.firstAirDate, "")), 4)),
      PosterUrl(item.posterPath),
      seq(|ids|, i requires 0 <= i < |ids| => GenreLabel(cache, ids[i])),
      ScreenMetadata(Or(item.overview, "")))
  }

  /** The external id identifies the catalog item: it reads back as its id. */
  lemma ExternalIdIdentifies(item: SearchItem, kind: Kind, cache: map<int, string>)
    ensures ParseInt(NormalizeResult(item, kind, cache).externalId) == Some(item.id)
  {
    IntToStringRoundTrip(item.id);
  }

  /** One page of search results: every item normalised in order, and more
      pages exactly when this page is before the last. */
  function SearchPage(kind: Kind, page: int, cache: map<int, string>, resp: SearchResponse): (r: PaginatedResult)
    ensures |r.results| == |resp.results|
    ensures forall i :: 0 <= i < |r.results| ==> r.results[i] == NormalizeResult(resp.results[i], kind, cache)
    ensures forall i :: 0 <= i < |r.results| ==> r.results[i].mediaType == TypeOf(kind)
    ensures r.hasMore <==> page < resp.totalPages
    ensures r.totalResults == Some(resp.totalResults)
  {
    PaginatedResult(
      seq(|resp.results|, i requires 0 <= i < |resp.results| => NormalizeResult(resp.results[i], kind, cache)),
      page < resp.totalPages,
      Some(resp.totalResults))
  }

  /** The detail mapping: film details take the title and release date,
      series details the name and first air date; at most five cast names,
      in credit order. */
  function DetailsMedia(kind: Kind, resp: DetailResponse): (m: NormalizedMedia)
    ensures m.externalId == IntToString(resp.item.id)
    ensures m.mediaType == TypeOf(kind)
    ensures m.title == Or(if kind == MovieKind then resp.item.title else resp.item.name, "")
    ensures m.year == Some(Take(Or(if kind == MovieKind then resp.item.releaseDate else resp.item.firstAirDate, ""), 4))
    ensures m.posterUrl == PosterUrl(resp.item.posterPath)
    ensures |m.genres| == |resp.genres.GetOr([])|
    ensures forall i :: 0 <= i < |m.genres| ==> m.genres[i] == resp.genres.GetOr([])[i].name
    ensures m.metadata.ScreenDetailMetadata? && m.metadata.overview == Or(resp.item.overview, "")
    ensures var cast := CastList(resp.credits);
      |m.metadata.cast| == (if |cast| < 5 then |cast| else 5)
      && forall i :: 0 <= i < |m.metadata.cast| ==> m.metadata.cast[i] == cast[i].name
  {
    var item := resp.item;
    var gs := resp.genres.GetOr([]);
    var cast := CastList(resp.credits);
    var top := if |cast| < 5 then cast else cast[..5];
    NormalizedMedia(
      IntToString(item.id),
      TypeOf(kind),
      Or(if kind == MovieKind then item.title else item.name, ""),
      Some(Take(Or(if kind == MovieKind then item.releaseDate else item.firstAirDate, ""), 4)),
      PosterUrl(item.posterPath),
      seq(|gs|, i requires 0 <= i < |gs| => gs[i].name),
      ScreenDetailMetadata(Or(item.overview, ""), seq(|top|, i requires 0 <= i < |top| => top[i].name)))
  }

  /** `item.credits?.cast || []`. */
  function CastList(credits: Option<Credits>): seq<CastMember> {
    match credits
    case None => []
    case Some(c) => c.cast.GetOr([])
  }

  // ---------------------------------------------------------------------
  // The adapters' two calls

  /** `search(query, page)` of the film or TV adapter: without an API key it
      throws before the genre table or the catalog is touched; otherwise it
      runs `fetchGenres` and normalises the response with the table it left. */
  method Search(cache: GenreCache, kind: Kind, apiKey: Option<string>, query: string, page: int,
                fetch: GenreFetch, response: Result<SearchResponse, Exception>)
    returns (r: Result<PaginatedResult, Exception>)
    modifies cache
    ensures !Truthy(apiKey) ==> r == Failure(MISSING_KEY) && cache.names == old(cache.names)
    ensures Truthy(apiKey) ==> cache.names == AfterFetch(old(cache.names), fetch)
    ensures Truthy(apiKey) && response.Failure? ==> r == Failure(response.error)
    ensures Truthy(apiKey) && response.Success? ==> r == Success(SearchPage(kind, page, cache.names, response.value))
  {
    if !Truthy(apiKey) {
      return Failure(MISSING_KEY);
    }
    cache.FetchGenres(fetch);
    match response {
      case Failure(e) => r := Failure(e);
      case Success(resp) => r := Success(SearchPage(kind, page, cache.names, resp));
    }
  }

  /** `getDetails(id)` of the film or TV adapter. */
  method GetDetails(cache: GenreCache, kind: Kind, apiKey: Option<string>, id: string,
                    fetch: GenreFetch, response: Result<DetailResponse, Exception>)
    returns (r: Result<NormalizedMedia, Exception>)
    modifies cache
    ensures !Truthy(apiKey) ==> r == Failure(MISSING_KEY) && cache.names == old(cache.names)
    ensures Truthy(apiKey) ==> cache.names == AfterFetch(old(cache.names), fetch)
    ensures Truthy(apiKey) && response.Failure? ==> r == Failure(response.error)
    ensures Truthy(apiKey) && response.Success? ==> r == Success(DetailsMedia(kind, response.value))
  {
    if !Truthy(apiKey) {
      return Failure(MISSING_KEY);
    }
    cache.FetchGenres(fetch);
    match response {
      case Failure(e) => r := Failure(e);
      case Success(resp) => r := Success(DetailsMedia(kind, resp));
    }
  }
}
