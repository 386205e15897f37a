/** The music catalog adapter (src/lib/api/adapters/musicBrainz.adapter.ts):
    releases, paged by offset, with a client-side limit of one request per
    second. The clock is an input: `now` is the first reading and the
    second reading, after any wait, is `now + wait + overshoot`. */
module MusicBrainz {
  import opened Wrappers
  import opened Text
  import opened Media
  import opened Sorting

  const COVER_ART_URL: string := "https://coverartarchive.org"

  /** Minimum spacing between two requests, in milliseconds. */
  const DELAY: int := 1000

  datatype LabelInfo = LabelInfo(labelName: Option<string>)

  /** A genre or a folksonomy tag, with its vote count. */
  datatype Tag = Tag(name: string, count: int)

  datatype Release = Release(
    id: string,
    title: string,
    date: Option<string>,
    artistCredit: Option<seq<string>>,
    labelInfo: Option<seq<LabelInfo>>,
    genres: Option<seq<Tag>>,
    tags: Option<seq<Tag>>)

  datatype SearchResponse = SearchResponse(releases: seq<Release>, count: int)

  /** The query parameters of a release search. */
  datatype ReleaseQuery = ReleaseQuery(query: string, limit: int, offset: int)

  // ---------------------------------------------------------------------
  // Normalisation

  /** `date ? date.slice(0, 4) : null`. */
  function Year(date: Option<string>): (y: Option<string>)
    ensures y.Some? <==> Truthy(date)
    ensures y.Some? ==> |y.value| <= 4 && y.value <= date.value
    ensures y.Some? ==> y.value == Take(date.value, 4)
    ensures y.Some? && |date.value| >= 4 ==> |y.value| == 4
  {
    if Truthy(date) then Some(Take(date.value, 4)) else None
  }

  /** The name of the first label, or empty. */
  function LabelName(info: Option<seq<LabelInfo>>): string {
    if info.Some? && |info.value| > 0 then Or(info.value[0].labelName, "") else ""
  }

  /** `genres || tags || []`: a genre list that is present wins even when it is empty. */
  function TagSource(r: Release): seq<Tag> {
    if r.genres.Some? then r.genres.value else r.tags.GetOr([])
  }

  function TagCount(t: Tag): int {
    t.count
  }

  /** The five most voted tags, most votes first, ties in source order. */
  function TopTags(tags: seq<Tag>): seq<Tag> {
    TopN(tags, TagCount, 5)
  }

  /** The tags kept are at most five, taken from the list, ordered by
      non-increasing count, and no tag left out has more votes than a tag
      kept. */
  lemma TopTagsFacts(tags: seq<Tag>)
    ensures |TopTags(tags)| == if |tags| < 5 then |tags| else 5
    ensures multiset(TopTags(tags)) <= multiset(tags)
    ensures forall i, j :: 0 <= i < j < |TopTags(tags)| ==> TopTags(tags)[i].count >= TopTags(tags)[j].count
    ensures forall t, i :: t in tags && t !in TopTags(tags) && 0 <= i < |TopTags(tags)| ==> t.count <= TopTags(tags)[i].count
    ensures forall t, i :: multiset(TopTags(tags))[t] < multiset(tags)[t] && 0 <= i < |TopTags(tags)| ==>
      t.count <= TopTags(tags)[i].count
  {
    var top := TopTags(tags);
    TopNFacts(tags, TagCount, 5);
    forall i, j | 0 <= i < j < |top| ensures top[i].count >= top[j].count {
      assert TagCount(top[i]) >= TagCount(top[j]);
    }
    forall t, i | t in tags && t !in top && 0 <= i < |top| ensures t.count <= top[i].count {
      assert TagCount(t) <= TagCount(top[i]);
    }
    TopTagsCopies(tags);
  }

  lemma TopTagsCopies(tags: seq<Tag>)
    ensures forall t, i :: multiset(TopTags(tags))[t] < multiset(tags)[t] && 0 <= i < |TopTags(tags)| ==>
      t.count <= TopTags(tags)[i].count
  {
    var top := TopTags(tags);
    TopNCopies(tags, TagCount, 5);
    forall t, i | multiset(top)[t] < multiset(tags)[t] && 0 <= i < |top| ensures t.count <= top[i].count {
      assert TagCount(t) <= TagCount(top[i]);
    }
  }

  function TagNames(ts: seq<Tag>): (names: seq<string>)
    ensures |names| == |ts|
    ensures forall i :: 0 <= i < |ts| ==> names[i] == ts[i].name
  {
    seq(|ts|, i requires 0 <= i < |ts| => ts[i].name)
  }

  /** `${COVER_ART_URL}/release/${id}/front-${size}`. */
  function CoverUrl(id: string, size: string): string {
    COVER_ART_URL + "/release/" + id + "/front-" + size
  }

  function Artists(credit: Option<seq<string>>): seq<string> {
    credit.GetOr([])
  }

  /** `normalizeResult(release)`: always a cover URL (the small one), at most
      five genres, the first label's name. */
  function NormalizeResult(r: Release): (m: NormalizedMedia)
    ensures m.externalId == r.id && m.mediaType == Music && m.title == r.title
    ensures m.year == Year(r.date)
    ensures m.posterUrl == Some(CoverUrl(r.id, "250"))
    ensures m.genres == TagNames(TopTags(TagSource(r))) && |m.genres| <= 5
    ensures m.metadata == MusicMetadata(Artists(r.artistCredit), LabelName(r.labelInfo))
  {
    NormalizedMedia(r.id, Music, r.title, Year(r.date), Some(CoverUrl(r.id, "250")),
      TagNames(TopTags(TagSource(r))),
      MusicMetadata(Artists(r.artistCredit), LabelName(r.labelInfo)))
  }

  /** `getDetails(id)`: the same fields, but keyed and covered (large size)
      by the requested id rather than the id in the response. */
  function DetailsMedia(id: string, r: Release): (m: NormalizedMedia)
    ensures m.externalId == id && m.posterUrl == Some(CoverUrl(id, "500"))
    ensures m.mediaType == Music && m.title == r.title && m.year == Year(r.date)
    ensures m.genres == TagNames(TopTags(TagSource(r))) && |m.genres| <= 5
    ensures m.metadata == MusicMetadata(Artists(r.artistCredit), LabelName(r.labelInfo))
  {
    NormalizedMedia(id, Music, r.title, Year(r.date), Some(CoverUrl(id, "500")),
      TagNames(TopTags(TagSource(r))),
      MusicMetadata(Artists(r.artistCredit), LabelName(r.labelInfo)))
  }

  // ---------------------------------------------------------------------
  // Paging by offset

  /** The parameters of the request for `page`: twenty releases from offset `(page - 1) * 20`. */
  function SearchQuery(query: string, page: int): (q: ReleaseQuery)
    ensures q.query == query && q.limit == PAGE_SIZE
    ensures q.offset + q.limit == page * PAGE_SIZE
  {
    ReleaseQuery(query, PAGE_SIZE, (page - 1) * PAGE_SIZE)
  }

  /** Consecutive pages ask for adjacent windows, and page 1 starts at 0. */
  lemma PagesAdjacent(query: string, page: int)
    ensures SearchQuery(query, page + 1).offset == SearchQuery(query, page).offset + PAGE_SIZE
    ensures SearchQuery(query, 1).offset == 0
  {
  }

  /** One page of results: `hasMore` is `page < Math.ceil(count / 20)`. */
  function SearchPage(page: int, resp: SearchResponse): (r: PaginatedResult)
    ensures |r.results| == |resp.releases|
    ensures forall i :: 0 <= i < |r.results| ==> r.results[i] == NormalizeResult(resp.releases[i])
    ensures r.hasMore == (page < CeilDiv(resp.count, PAGE_SIZE))
    ensures r.totalResults == Some(resp.count)
  {
    PaginatedResult(
      seq(|resp.releases|, i requires 0 <= i < |resp.releases| => NormalizeResult(resp.releases[i])),
      page < CeilDiv(resp.count, PAGE_SIZE),
      Some(resp.count))
  }

  /** There are more pages exactly when some release lies beyond the window
      this page asked for. */
  lemma HasMoreIffBeyondWindow(query: string, page: int, resp: SearchResponse)
    ensures SearchPage(page, resp).hasMore
        <==> SearchQuery(query, page).offset + SearchQuery(query, page).limit < resp.count
  {
    BeforeLastPage(page, resp.count);
  }

  // ---------------------------------------------------------------------
  // The rate limit

  /** How long `throttle()` waits when the last request was at `last` and the clock reads `now`. */
  function ThrottleWait(last: int, now: int): (wait: nat)
    ensures now - last >= DELAY ==> wait == 0
    ensures now - last < DELAY ==> now + wait == last + DELAY
  {
    if now - last < DELAY then DELAY - (now - last) else 0
  }

  /** After waiting, the request goes out at least `DELAY` after the previous
      one, and no later than needed: either immediately or exactly `DELAY`
      after the previous request. */
  lemma ThrottleSpacing(last: int, now: int)
    ensures now + ThrottleWait(last, now) >= last + DELAY
    ensures now + ThrottleWait(last, now) >= now
    ensures ThrottleWait(last, now) == 0 || now + ThrottleWait(last, now) == last + DELAY
  {
  }

  /** The adapter object; its only state is the time of the last request. */
  class MusicBrainzAdapter {
    var lastRequest: int

    constructor ()
      ensures lastRequest == 0
    {
      lastRequest := 0;
    }

    /** `throttle()`: returns the time it waited. */
    method Throttle(now: int, overshoot: nat) returns (waited: nat)
      modifies this
      ensures waited == ThrottleWait(old(lastRequest), now)
      ensures lastRequest == now + waited + overshoot
      ensures lastRequest >= old(lastRequest) + DELAY
    {
      var since := now - lastRequest;
      waited := 0;
      if since < DELAY {
        waited := DELAY - since;
      }
      lastRequest := now + waited + overshoot;
    }

    /** `search(query, page)`: throttles, then pages the response. */
    method Search(query: string, page: int, now: int, overshoot: nat,
                  response: Result<SearchResponse, Exception>)
      returns (r: Result<PaginatedResult, Exception>)
      modifies this
      ensures lastRequest == now + ThrottleWait(old(lastRequest), now) + overshoot
      ensures lastRequest >= old(lastRequest) + DELAY && lastRequest >= now
      ensures response.Failure? ==> r == Failure(response.error)
      ensures response.Success? ==> r == Success(SearchPage(page, response.value))
    {
      var _ := Throttle(now, overshoot);
      match response {
        case Failure(e) => r := Failure(e);
        case Success(resp) => r := Success(SearchPage(page, resp));
      }
    }

    /** `getDetails(id)`. */
    method GetDetails(id: string, now: int, overshoot: nat, response: Result<Release, Exception>)
      returns (r: Result<NormalizedMedia, Exception>)
      modifies this
      ensures lastRequest == now + ThrottleWait(old(lastRequest), now) + overshoot
      ensures lastRequest >= old(lastRequest) + DELAY && lastRequest >= now
      ensures response.Failure? ==> r == Failure(response.error)
      ensures response.Success? ==> r == Success(DetailsMedia(id, response.value))
    {
      var _ := Throttle(now, overshoot);
      match response {
        case Failure(e) => r := Failure(e);
        case Success(release) => r := Success(DetailsMedia(id, release));
      }
    }
  }
}
