/** The video game catalog adapter (src/lib/api/adapters/rawg.adapter.ts).
    The API key is an input: a missing or empty key makes both calls fail
    before any request. */
module Rawg {
  import opened Wrappers
  import opened Text
  import opened Media
  import opened Sorting

  const MISSING_KEY: Exception := Error("RAWG API key not configured")

  /** At most this many platforms are listed on a search result. */
  const SEARCH_PLATFORMS: nat := 5

  datatype RawgGame = RawgGame(
    id: int,
    name: string,
    released: Option<string>,
    backgroundImage: Option<string>,
    genres: Option<seq<string>>,
    platforms: Option<seq<string>>,
    rating: Option<real>,
    metacritic: Option<int>)

  /** `next` is the URL of the following page, or null on the last one. */
  datatype SearchResponse = SearchResponse(results: seq<RawgGame>, count: int, next: Option<string>)

  /** `x || null` on an optional number: zero reads as missing. */
  function NonZeroReal(o: Option<real>): (r: Option<real>)
    ensures r.Some? <==> o.Some? && o.value != 0.0
    ensures r.Some? ==> r == o
  {
    if o.Some? && o.value != 0.0 then o else None
  }

  function NonZeroInt(o: Option<int>): (r: Option<int>)
    ensures r.Some? <==> o.Some? && o.value != 0
    ensures r.Some? ==> r == o
  {
    if o.Some? && o.value != 0 then o else None
  }

  /** The game as the detail call returns it: every platform listed. */
  function DetailsMedia(g: RawgGame): (m: NormalizedMedia)
    ensures m.mediaType == Game && m.title == g.name
    ensures m.externalId == IntToString(g.id)
    ensures ParseInt(m.externalId) == Some(g.id)
    ensures m.year.Some? <==> Truthy(g.released)
    ensures m.year.Some? ==> m.year.value == Take(g.released.value, 4)
    ensures m.posterUrl.Some? <==> Truthy(g.backgroundImage)
    ensures m.posterUrl.Some? ==> m.posterUrl == g.backgroundImage
    ensures m.genres == g.genres.GetOr([])
    ensures m.metadata == GameMetadata(g.platforms.GetOr([]), NonZeroReal(g.rating), NonZeroInt(g.metacritic))
  {
    IntToStringRoundTrip(g.id);
    NormalizedMedia(
      IntToString(g.id), Game, g.name,
      if Truthy(g.released) then Some(Take(g.released.value, 4)) else None,
      if Truthy(g.backgroundImage) then g.backgroundImage else None,
      g.genres.GetOr([]),
      GameMetadata(g.platforms.GetOr([]), NonZeroReal(g.rating), NonZeroInt(g.metacritic)))
  }

  /** `normalizeResult(game)`: the search result, whose platform list is cut to five. */
  function NormalizeResult(g: RawgGame): (m: NormalizedMedia)
    ensures m.metadata.GameMetadata? && |m.metadata.platforms| <= SEARCH_PLATFORMS
  {
    var d := DetailsMedia(g);
    d.(metadata := d.metadata.(platforms := Take(d.metadata.platforms, SEARCH_PLATFORMS)))
  }

  /** A search result is its detail record with at most the first five
      platforms: every other field agrees, and a game on five platforms or
      fewer looks the same both ways. */
  lemma SearchResultIsTruncatedDetail(g: RawgGame)
    ensures var s, d := NormalizeResult(g), DetailsMedia(g);
      s.externalId == d.externalId && s.mediaType == d.mediaType && s.title == d.title
      && s.year == d.year && s.posterUrl == d.posterUrl && s.genres == d.genres
      && s.metadata.rating == d.metadata.rating && s.metadata.metacritic == d.metadata.metacritic
      && s.metadata.platforms == Take(g.platforms.GetOr([]), SEARCH_PLATFORMS)
      && s.metadata.platforms <= d.metadata.platforms
    ensures |g.platforms.GetOr([])| <= SEARCH_PLATFORMS ==> NormalizeResult(g) == DetailsMedia(g)
  {
  }

  /** One page: more pages exactly when the response links a next page. */
  function SearchPage(resp: SearchResponse): (r: PaginatedResult)
    ensures |r.results| == |resp.results|
    ensures forall i :: 0 <= i < |r.results| ==> r.results[i] == NormalizeResult(resp.results[i])
    ensures r.hasMore <==> resp.next.Some?
    ensures r.totalResults == Some(resp.count)
  {
    PaginatedResult(
      seq(|resp.results|, i requires 0 <= i < |resp.results| => NormalizeResult(resp.results[i])),
      resp.next.Some?,
      Some(resp.count))
  }

  /** `search(query, page)`. */
  function Search(apiKey: Option<string>, query: string, page: int,
                  response: Result<SearchResponse, Exception>): (r: Result<PaginatedResult, Exception>)
    ensures !Truthy(apiKey) ==> r == Failure(MISSING_KEY)
    ensures Truthy(apiKey) && response.Failure? ==> r == Failure(response.error)
    ensures Truthy(apiKey) && response.Success? ==> r == Success(SearchPage(response.value))
  {
    if !Truthy(apiKey) then Failure(MISSING_KEY)
    else
      match response
      case Failure(e) => Failure(e)
      case Success(resp) => Success(SearchPage(resp))
  }

  /** `getDetails(id)`. */
  function GetDetails(apiKey: Option<string>, id: string,
                      response: Result<RawgGame, Exception>): (r: Result<NormalizedMedia, Exception>)
    ensures !Truthy(apiKey) ==> r == Failure(MISSING_KEY)
    ensures Truthy(apiKey) && response.Failure? ==> r == Failure(response.error)
    ensures Truthy(apiKey) && response.Success? ==> r == Success(DetailsMedia(response.value))
  {
    if !Truthy(apiKey) then Failure(MISSING_KEY)
    else
      match response
      case Failure(e) => Failure(e)
      case Success(g) => Success(DetailsMedia(g))
  }
}
