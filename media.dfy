/** The shared records every catalog adapter produces and every store keeps
    (src/types/media.ts), and the paginated search result of the adapter
    interface (src/lib/api/types.ts). */
module Media {
  import opened Wrappers

  /** The five kinds of media the tracker knows. */
  datatype MediaType = Movie | Tv | Book | Game | Music

  /** Every media type, in the order the adapter table lists them. */
  const ALL_TYPES: seq<MediaType> := [Movie, Tv, Book, Game, Music]

  /** The string literal of a media type. */
  function TypeName(t: MediaType): string {
    match t
    case Movie => "movie"
    case Tv => "tv"
    case Book => "book"
    case Game => "game"
    case Music => "music"
  }

  /** There are exactly five media types, each listed once. */
  lemma AllTypesExact()
    ensures |ALL_TYPES| == 5
    ensures forall t :: t in ALL_TYPES
    ensures forall i, j :: 0 <= i < j < |ALL_TYPES| ==> ALL_TYPES[i] != ALL_TYPES[j]
  {
    forall t: MediaType ensures t in ALL_TYPES {
      match t
      case Movie => assert ALL_TYPES[0] == t;
      case Tv => assert ALL_TYPES[1] == t;
      case Book => assert ALL_TYPES[2] == t;
      case Game => assert ALL_TYPES[3] == t;
      case Music => assert ALL_TYPES[4] == t;
    }
  }

  /** Two media types have the same literal only when they are the same type. */
  lemma TypeNameInjective(a: MediaType, b: MediaType)
    ensures TypeName(a) == TypeName(b) <==> a == b
  {
  }

  /** Display settings of a media type. */
  datatype MediaConfig = MediaConfig(displayLabel: string, color: string, verb: string)

  const MEDIA_CONFIG: map<MediaType, MediaConfig> := map[
    Movie := MediaConfig("Film", "var(--color-media-movie)", "Vu"),
    Tv := MediaConfig("Série", "var(--color-media-tv)", "Vu"),
    Book := MediaConfig("Livre", "var(--color-media-book)", "Lu"),
    Game := MediaConfig("Jeu", "var(--color-media-game)", "Joué"),
    Music := MediaConfig("Musique", "var(--color-media-music)", "Écouté")
  ]

  /** The table has an entry for every media type, each with a label and a
      verb, and each colour is the CSS variable named after the type. */
  lemma MediaConfigTotal(t: MediaType)
    ensures t in MEDIA_CONFIG
    ensures MEDIA_CONFIG[t].displayLabel != "" && MEDIA_CONFIG[t].verb != ""
    ensures MEDIA_CONFIG[t].color == "var(--color-media-" + TypeName(t) + ")"
  {
  }

  /** A book description as Open Library returns it: a plain string or an
      object that may carry a `value`. */
  datatype Description = PlainDescription(text: string) | TypedDescription(value: Option<string>)

  /** The adapter-specific `metadata` bag, one shape per adapter and call. */
  datatype Metadata =
    | ScreenMetadata(overview: string)
    | ScreenDetailMetadata(overview: string, cast: seq<string>)
    | BookMetadata(authors: seq<string>, publisher: string, isbn: string)
    | BookDetailMetadata(description: Description, subjects: seq<string>)
    | GameMetadata(platforms: seq<string>, rating: Option<real>, metacritic: Option<int>)
    | MusicMetadata(artists: seq<string>, recordLabel: string)

  /** One catalog item in the common schema. `year` and `posterUrl` may be
      missing; `genres` is always a list. */
  datatype NormalizedMedia = NormalizedMedia(
    externalId: string,
    mediaType: MediaType,
    title: string,
    year: Option<string>,
    posterUrl: Option<string>,
    genres: seq<string>,
    metadata: Metadata)

  /** The `(externalId, type)` key of a media item, compared against the
      type's string literal as the stores do. */
  predicate SameMedia(m: NormalizedMedia, externalId: string, typeName: string) {
    m.externalId == externalId && TypeName(m.mediaType) == typeName
  }

  /** A journal rating is absent or a whole number from 1 to 10. */
  predicate ValidRating(r: Option<int>) {
    r.None? || 1 <= r.value <= 10
  }

  /** The user-entered part of a journal entry. */
  datatype EntryData = EntryData(
    consumedAt: string,
    rating: Option<int>,
    note: string,
    tags: seq<string>,
    isRewatch: bool)

  /** A logged consumption; the media is a snapshot copied into the entry. */
  datatype JournalEntry = JournalEntry(
    id: string,
    userId: string,
    media: NormalizedMedia,
    consumedAt: string,
    rating: Option<int>,
    note: string,
    tags: seq<string>,
    isRewatch: bool,
    createdAt: string,
    updatedAt: string)

  datatype WishlistItem = WishlistItem(
    id: string,
    userId: string,
    media: NormalizedMedia,
    priority: int,
    addedAt: string)

  /** The user id every locally stored record carries. */
  const LOCAL_USER: string := "local-user"

  /** One page of one source's search results. */
  datatype PaginatedResult = PaginatedResult(
    results: seq<NormalizedMedia>,
    hasMore: bool,
    totalResults: Option<int>)

  /** The bucket a failed source contributes to an aggregated search. */
  const EMPTY_RESULT: PaginatedResult := PaginatedResult([], false, Some(0))

  /** What a failing call throws: an `Error` with its message, or some other value. */
  datatype Exception = Error(message: string) | NonError

  /** Number of results per page for the catalogs paged by count. */
  const PAGE_SIZE: nat := 20

  /** `Math.ceil(n / d)`. */
  function CeilDiv(n: int, d: int): (q: int)
    requires d > 0
    ensures d * q >= n && d * (q - 1) < n
  {
    -((-n) / d)
  }

  /** `page < Math.ceil(count / 20)` holds exactly when some result lies
      beyond the first `page` pages of twenty. */
  lemma BeforeLastPage(page: int, count: int)
    ensures page < CeilDiv(count, PAGE_SIZE) <==> page * PAGE_SIZE < count
  {
    var c := CeilDiv(count, PAGE_SIZE);
    if page < c {
      assert PAGE_SIZE * page <= PAGE_SIZE * (c - 1);
    } else {
      assert PAGE_SIZE * page >= PAGE_SIZE * c;
    }
  }
}
