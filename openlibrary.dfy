/** The book catalog adapter (src/lib/api/adapters/openLibrary.adapter.ts).
    Searches return works keyed by their `/works/<id>` key; details are
    read from the work record at that key. */
module OpenLibrary {
  import opened Wrappers
  import opened Text
  import opened Media
  import opened Sorting

  const COVERS_URL: string := "https://covers.openlibrary.org/b/id"

  /** The key prefix that `getDetails` strips before building the work path. */
  const WORKS_PREFIX: string := "/works/"

  /** Subjects at least this long are not shown as genres. */
  const MAX_GENRE_LENGTH: nat := 30

  datatype Doc = Doc(
    key: string,
    title: string,
    firstPublishYear: Option<int>,
    authorName: Option<seq<string>>,
    coverId: Option<int>,
    publisher: Option<seq<string>>,
    isbn: Option<seq<string>>,
    subject: Option<seq<string>>)

  datatype SearchResponse = SearchResponse(docs: seq<Doc>, numFound: int)

  /** The work record; every field may be missing. */
  datatype Work = Work(
    title: Option<string>,
    firstPublishDate: Option<string>,
    covers: Option<seq<int>>,
    description: Option<Description>,
    subjects: Option<seq<string>>)

  /** A number JavaScript treats as true: present and not zero. */
  predicate NumberTruthy(o: Option<int>) {
    o.Some? && o.value != 0
  }

  /** `${COVERS_URL}/${id}-M.jpg`. */
  function CoverUrl(id: int): string {
    COVERS_URL + "/" + IntToString(id) + "-M.jpg"
  }

  /** `first || ''` on the first element of an optional list. */
  function FirstOr(xs: Option<seq<string>>): string {
    if xs.Some? && |xs.value| > 0 then xs.value[0] else ""
  }

  /** `s.length < 30`, where `length` counts UTF-16 code units. */
  predicate IsShort(s: string) {
    Utf16Length(s) < MAX_GENRE_LENGTH
  }

  /** The genres of a search result: its first five subjects shorter than 30
      UTF-16 code units. */
  function ShortSubjects(subjects: seq<string>): (genres: seq<string>)
    ensures |genres| <= 5
    ensures forall i :: 0 <= i < |genres| ==> Utf16Length(genres[i]) < MAX_GENRE_LENGTH && genres[i] in subjects
    ensures genres <= Filter(subjects, IsShort)
    ensures |Filter(subjects, IsShort)| <= 5 ==> genres == Filter(subjects, IsShort)
    ensures |genres| == if |Filter(subjects, IsShort)| < 5 then |Filter(subjects, IsShort)| else 5
  {
    Take(Filter(subjects, IsShort), 5)
  }

  /** A subject of sixteen astral letters is sixteen characters but 32
      UTF-16 code units long, so it is not kept as a genre. */
  lemma AstralSubjectDropped()
    ensures var s := seq(16, _ => '\U{1D504}'); |s| == 16 && Utf16Length(s) == 32 && ShortSubjects([s]) == []
  {
    var s := seq(16, _ => '\U{1D504}');
    assert forall i :: 0 <= i < |s| ==> Astral(s[i]);
    Utf16LengthAllAstral(s);
  }

  /** `normalizeResult(doc)`: the year is the publication year as a string,
      missing for a missing or zero year; the cover is missing for a missing
      or zero cover id. */
  function NormalizeResult(d: Doc): (m: NormalizedMedia)
    ensures m.externalId == d.key && m.mediaType == Book && m.title == d.title
    ensures m.year.Some? <==> NumberTruthy(d.firstPublishYear)
    ensures m.year.Some? ==> m.year.value == IntToString(d.firstPublishYear.value)
    ensures m.year.Some? ==> ParseInt(m.year.value) == Some(d.firstPublishYear.value)
    ensures m.posterUrl.Some? <==> NumberTruthy(d.coverId)
    ensures m.posterUrl.Some? ==> m.posterUrl.value == CoverUrl(d.coverId.value)
    ensures m.genres == ShortSubjects(d.subject.GetOr([]))
    ensures m.metadata == BookMetadata(d.authorName.GetOr([]), FirstOr(d.publisher), FirstOr(d.isbn))
  {
    var year :=
      if NumberTruthy(d.firstPublishYear) then
        IntToStringRoundTrip(d.firstPublishYear.value);
        Some(IntToString(d.firstPublishYear.value))
      else None;
    NormalizedMedia(
      d.key, Book, d.title, year,
      if NumberTruthy(d.coverId) then Some(CoverUrl(d.coverId.value)) else None,
      ShortSubjects(d.subject.GetOr([])),
      BookMetadata(d.authorName.GetOr([]), FirstOr(d.publisher), FirstOr(d.isbn)))
  }

  /** One page: more pages exactly when results lie beyond the first `page` pages of twenty. */
  function SearchPage(page: int, resp: SearchResponse): (r: PaginatedResult)
    ensures |r.results| == |resp.docs|
    ensures forall i :: 0 <= i < |r.results| ==> r.results[i] == NormalizeResult(resp.docs[i])
    ensures r.hasMore <==> page * PAGE_SIZE < resp.numFound
    ensures r.totalResults == Some(resp.numFound)
  {
    BeforeLastPage(page, resp.numFound);
    PaginatedResult(
      seq(|resp.docs|, i requires 0 <= i < |resp.docs| => NormalizeResult(resp.docs[i])),
      page < CeilDiv(resp.numFound, PAGE_SIZE),
      Some(resp.numFound))
  }

  // ---------------------------------------------------------------------
  // Details

  /** The path `getDetails(key)` requests: the first `/works/` is removed
      from the key and the rest placed under `/works/…json`. */
  function WorkPath(key: string): string {
    WORKS_PREFIX + RemoveFirst(key, WORKS_PREFIX) + ".json"
  }

  /** A key as search returns it (`/works/OL…W`) is requested at exactly
      that path, and a bare work id is placed under `/works/`. */
  lemma WorkPathOfKey(key: string)
    ensures OccursAt(key, WORKS_PREFIX, 0) ==> WorkPath(key) == key + ".json"
    ensures (forall j :: 0 <= j <= |key| ==> !OccursAt(key, WORKS_PREFIX, j)) ==> WorkPath(key) == WORKS_PREFIX + key + ".json"
  {
    if OccursAt(key, WORKS_PREFIX, 0) {
      assert key == WORKS_PREFIX + key[|WORKS_PREFIX|..];
    }
  }

  /** `work.description?.value || work.description || ''`: a non-empty
      `value` is unwrapped; an object without one is kept as it is. */
  function DescriptionOf(d: Option<Description>): (r: Description)
    ensures d.None? ==> r == PlainDescription("")
    ensures d.Some? && d.value.PlainDescription? ==> r == d.value
    ensures d.Some? && d.value.TypedDescription? && Truthy(d.value.value) ==> r == PlainDescription(d.value.value.value)
    ensures d.Some? && d.value.TypedDescription? && !Truthy(d.value.value) ==> r == d.value
  {
    match d
    case None => PlainDescription("")
    case Some(PlainDescription(s)) => if s != "" then PlainDescription(s) else PlainDescription("")
    case Some(TypedDescription(v)) => if Truthy(v) then PlainDescription(v.value) else TypedDescription(v)
  }

  /** `getDetails(key)`: keyed by the key asked for, no genres, at most five subjects. */
  function DetailsMedia(key: string, w: Work): (m: NormalizedMedia)
    ensures m.externalId == key && m.mediaType == Book && m.genres == []
    ensures m.title == Or(w.title, "")
    ensures m.year.Some? <==> Truthy(w.firstPublishDate)
    ensures m.year.Some? ==> m.year.value == Take(w.firstPublishDate.value, 4)
    ensures m.posterUrl.Some? <==> w.covers.Some? && |w.covers.value| > 0 && w.covers.value[0] != 0
    ensures m.posterUrl.Some? ==> m.posterUrl.value == CoverUrl(w.covers.value[0])
    ensures m.metadata.BookDetailMetadata? && m.metadata.description == DescriptionOf(w.description)
    ensures m.metadata.subjects == Take(w.subjects.GetOr([]), 5)
  {
    NormalizedMedia(
      key, Book, Or(w.title, ""),
      if Truthy(w.firstPublishDate) then Some(Take(w.firstPublishDate.value, 4)) else None,
      if w.covers.Some? && |w.covers.value| > 0 && w.covers.value[0] != 0 then Some(CoverUrl(w.covers.value[0])) else None,
      [],
      BookDetailMetadata(DescriptionOf(w.description), Take(w.subjects.GetOr([]), 5)))
  }

  /** A book found by search and then opened keeps its identity: the detail
      record has the same key and type. */
  lemma DetailsKeepIdentity(d: Doc, w: Work)
    ensures SameMedia(DetailsMedia(NormalizeResult(d).externalId, w), d.key, "book")
  {
  }

  /** `search(query, page)`; a failed request is passed on. */
  function Search(query: string, page: int, response: Result<SearchResponse, Exception>): (r: Result<PaginatedResult, Exception>)
    ensures response.Failure? ==> r == Failure(response.error)
    ensures response.Success? ==> r == Success(SearchPage(page, response.value))
  {
    match response
    case Failure(e) => Failure(e)
    case Success(resp) => Success(SearchPage(page, resp))
  }

  /** `getDetails(key)`; a failed request is passed on. */
  function GetDetails(key: string, response: Result<Work, Exception>): (r: Result<NormalizedMedia, Exception>)
    ensures response.Failure? ==> r == Failure(response.error)
    ensures response.Success? ==> r == Success(DetailsMedia(key, response.value))
  {
    match response
    case Failure(e) => Failure(e)
    case Success(w) => Success(DetailsMedia(key, w))
  }
}
