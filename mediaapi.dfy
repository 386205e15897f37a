/** The aggregator over the five catalog adapters (src/lib/api/mediaApi.ts).
    What an adapter's `search` or `getDetails` resolves to is an input: a
    function from the adapter and its arguments to a `Result`. */
module MediaApi {
  import opened Wrappers
  import opened Media

  /** The five adapter objects. */
  datatype Source = TmdbMovie | TmdbTv | OpenLibrarySource | RawgSource | MusicBrainzSource

  /** The adapter table, read as a total function on media types. */
  function AdapterFor(t: MediaType): Source {
    match t
    case Movie => TmdbMovie
    case Tv => TmdbTv
    case Book => OpenLibrarySource
    case Game => RawgSource
    case Music => MusicBrainzSource
  }

  /** The media type whose results an adapter produces. */
  function ProducedType(s: Source): MediaType {
    match s
    case TmdbMovie => Movie
    case TmdbTv => Tv
    case OpenLibrarySource => Book
    case RawgSource => Game
    case MusicBrainzSource => Music
  }

  /** Each type is served by its own adapter: the table is one-to-one and
      every adapter produces the type it is filed under. */
  lemma AdapterTableConsistent(t: MediaType, u: MediaType)
    ensures ProducedType(AdapterFor(t)) == t
    ensures AdapterFor(t) == AdapterFor(u) ==> t == u
  {
  }

  /** A string other than the five literals names no media type. */
  lemma NotATypeName(name: string)
    requires name != "movie" && name != "tv" && name != "book" && name != "game" && name != "music"
    ensures forall t :: TypeName(t) != name
  {
    forall t ensures TypeName(t) != name {
      match t
      case Movie =>
      case Tv =>
      case Book =>
      case Game =>
      case Music =>
    }
  }

  /** `adapters[name]` for a type name that arrives as a string at run time. */
  function AdapterNamed(name: string): (r: Option<Source>)
    ensures r.Some? <==> exists t :: TypeName(t) == name
    ensures forall t :: TypeName(t) == name ==> r == Some(AdapterFor(t))
  {
    if name == "movie" then
      assert TypeName(Movie) == name;
      Some(TmdbMovie)
    else if name == "tv" then
      assert TypeName(Tv) == name;
      Some(TmdbTv)
    else if name == "book" then
      assert TypeName(Book) == name;
      Some(OpenLibrarySource)
    else if name == "game" then
      assert TypeName(Game) == name;
      Some(RawgSource)
    else if name == "music" then
      assert TypeName(Music) == name;
      Some(MusicBrainzSource)
    else
      NotATypeName(name);
      None
  }

  function NoAdapter(name: string): Exception {
    Error("No adapter found for type: " + name)
  }

  /** `searchByType(type, query, page)`: fails for a name that is not a
      media type, and otherwise is the search of that type's adapter. */
  function SearchByType(name: string, query: string, page: int,
                        search: (Source, string, int) -> Result<PaginatedResult, Exception>): (r: Result<PaginatedResult, Exception>)
    ensures (forall t :: TypeName(t) != name) ==> r == Failure(NoAdapter(name))
    ensures forall t :: TypeName(t) == name ==> r == search(AdapterFor(t), query, page)
  {
    match AdapterNamed(name)
    case None => Failure(NoAdapter(name))
    case Some(adapter) => search(adapter, query, page)
  }

  /** `getMediaDetails(type, id)`: the same dispatch for details. */
  function GetMediaDetails(name: string, id: string,
                           details: (Source, string) -> Result<NormalizedMedia, Exception>): (r: Result<NormalizedMedia, Exception>)
    ensures (forall t :: TypeName(t) != name) ==> r == Failure(NoAdapter(name))
    ensures forall t :: TypeName(t) == name ==> r == details(AdapterFor(t), id)
  {
    match AdapterNamed(name)
    case None => Failure(NoAdapter(name))
    case Some(adapter) => details(adapter, id)
  }

  /** What one settled search contributes: its page, or an empty page when it failed. */
  function Settle(outcome: Result<PaginatedResult, Exception>): PaginatedResult {
    match outcome
    case Success(p) => p
    case Failure(_) => EMPTY_RESULT
  }

  /** `searchAll(query)`: every adapter is asked for page 1 of the query;
      `search(adapter, query, page)` is what that request settles with. The
      result has a page for every type, a failure never spoils another
      type's page, and a failed type gets an empty page with no more results. */
  method SearchAll(query: string, search: (Source, string, int) -> Result<PaginatedResult, Exception>)
    returns (r: map<MediaType, PaginatedResult>)
    ensures forall t :: t in r
    ensures forall t :: search(AdapterFor(t), query, 1).Success? ==> r[t] == search(AdapterFor(t), query, 1).value
    ensures forall t :: search(AdapterFor(t), query, 1).Failure? ==>
      r[t] == EMPTY_RESULT && r[t].results == [] && !r[t].hasMore
  {
    AllTypesExact();
    r := map[];
    var i := 0;
    while i < |ALL_TYPES|
      invariant 0 <= i <= |ALL_TYPES|
      invariant forall t :: t in r <==> t in ALL_TYPES[..i]
      invariant forall t :: t in r ==> r[t] == Settle(search(AdapterFor(t), query, 1))
    {
      var t := ALL_TYPES[i];
      r := r[t := Settle(search(AdapterFor(t), query, 1))];
      i := i + 1;
    }
    assert ALL_TYPES[..i] == ALL_TYPES;
  }
}
