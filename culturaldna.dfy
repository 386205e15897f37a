/** The profile statistics over the journal (src/hooks/useCulturalDna.ts).
    The month label of a date (`toLocaleDateString` in French) is an input
    function. The average rating is kept in tenths, as the integer that
    `Math.round(average * 10)` yields. */
module CulturalDna {
  import opened Wrappers
  import opened Media
  import opened Sorting
  import opened Counting

  const TOP_GENRES: nat := 8
  const MONTHS_SHOWN: nat := 12
  const TOP_ENTRIES: nat := 10

  datatype Stats = Stats(
    totalEntries: nat,
    averageTenths: int,
    mediaBreakdown: map<MediaType, nat>,
    topGenres: seq<Tally<string>>,
    entriesByMonth: seq<Tally<string>>,
    mostActiveMonth: string,
    favoriteType: Option<MediaType>,
    ratingDistribution: map<int, nat>,
    topEntries: Option<seq<JournalEntry>>)

  // ---------------------------------------------------------------------
  // Breakdown by type and favourite type

  function Types(entries: seq<JournalEntry>): (ts: seq<MediaType>)
    ensures |ts| == |entries|
    ensures forall i :: 0 <= i < |entries| ==> ts[i] == entries[i].media.mediaType
  {
    seq(|entries|, i requires 0 <= i < |entries| => entries[i].media.mediaType)
  }

  /** `mediaBreakdown[t] || 0` for every type. */
  function Breakdown(entries: seq<JournalEntry>): map<MediaType, nat> {
    AllTypesExact();
    map t | t in ALL_TYPES :: CountOf(CountBy(Types(entries)), t)
  }

  lemma {:induction false} FiveWaySplit(ts: seq<MediaType>)
    ensures multiset(ts)[Movie] + multiset(ts)[Tv] + multiset(ts)[Book] + multiset(ts)[Game] + multiset(ts)[Music] == |ts|
  {
    if ts != [] {
      FiveWaySplit(ts[1..]);
      assert ts == [ts[0]] + ts[1..];
      assert ts[0].Movie? || ts[0].Tv? || ts[0].Book? || ts[0].Game? || ts[0].Music?;
      assert multiset(ts) == multiset{ts[0]} + multiset(ts[1..]);
    }
  }

  /** Every type has a count, each count is the number of entries of that
      type, and the five counts add up to the number of entries. */
  lemma BreakdownCounts(entries: seq<JournalEntry>)
    ensures forall t :: t in Breakdown(entries) && Breakdown(entries)[t] == multiset(Types(entries))[t]
    ensures var b := Breakdown(entries); b[Movie] + b[Tv] + b[Book] + b[Game] + b[Music] == |entries|
  {
    AllTypesExact();
    CountByFacts(Types(entries));
    FiveWaySplit(Types(entries));
  }

  /** The favourite type of a non-empty journal. */
  function FavoriteType(entries: seq<JournalEntry>): MediaType
    requires |entries| > 0
  {
    Mode(Types(entries))
  }

  /** The favourite type has the most entries; of several types with as
      many, it is the one logged first in entry order. */
  lemma FavoriteTypeFacts(entries: seq<JournalEntry>)
    requires |entries| > 0
    ensures var fav, ts := FavoriteType(entries), Types(entries);
      fav in ts
      && (forall t :: multiset(ts)[t] <= multiset(ts)[fav])
      && (forall j :: 0 <= j < FirstIndex(ts, fav) ==> multiset(ts)[ts[j]] < multiset(ts)[fav])
  {
    var ts := Types(entries);
    ModeFacts(ts);
    forall t ensures multiset(ts)[t] <= multiset(ts)[Mode(ts)] {
      if t in ts {
        var i :| 0 <= i < |ts| && ts[i] == t;
      }
    }
  }

  // ---------------------------------------------------------------------
  // Ratings

  predicate Rated(e: JournalEntry) {
    e.rating.Some?
  }

  /** An entry rated `r`. */
  function HasRating(r: int): JournalEntry -> bool {
    (e: JournalEntry) => e.rating == Some(r)
  }

  /** The ratings given, in entry order: one for each rated entry. */
  function Ratings(entries: seq<JournalEntry>): (rs: seq<int>)
    ensures |rs| == |Filter(entries, Rated)| <= |entries|
    ensures forall i :: 0 <= i < |rs| ==> Some(rs[i]) == Filter(entries, Rated)[i].rating
    ensures forall i :: 0 <= i < |rs| ==> exists e :: e in entries && e.rating == Some(rs[i])
  {
    if entries == [] then []
    else
      var rest := Ratings(entries[1..]);
      var rated := Filter(entries, Rated);
      FilterCons(entries, Rated);
      assert forall i :: 0 <= i < |rated| ==> rated[i] in entries;
      if Rated(entries[0]) then [entries[0].rating.value] + rest else rest
  }

  function Sum(xs: seq<int>): int {
    if xs == [] then 0 else xs[0] + Sum(xs[1..])
  }

  /** `Math.round(10 * sum / count)`: the nearest whole number of tenths,
      halves rounded up. */
  function AverageTenths(sum: int, count: int): (tenths: int)
    requires count > 0
    ensures 2 * count * tenths <= 20 * sum + count < 2 * count * (tenths + 1)
  {
    var n, d := 20 * sum + count, 2 * count;
    assert n == d * (n / d) + n % d;
    n / d
  }

  /** A mean of ratings from 1 to 10 is shown between 1.0 and 10.0. */
  lemma {:induction false} AverageInRange(rs: seq<int>)
    requires |rs| > 0
    requires forall i :: 0 <= i < |rs| ==> 1 <= rs[i] <= 10
    ensures 10 <= AverageTenths(Sum(rs), |rs|) <= 100
  {
    SumBounds(rs);
    TenthsBounds(Sum(rs), |rs|, AverageTenths(Sum(rs), |rs|));
  }

  /** Rounded tenths of a mean between 1 and 10 lie between 10 and 100. */
  lemma TenthsBounds(sum: int, count: int, tenths: int)
    requires 0 < count <= sum <= 10 * count
    requires 2 * count * tenths <= 20 * sum + count < 2 * count * (tenths + 1)
    ensures 10 <= tenths <= 100
  {
  }

  lemma {:induction false} SumBounds(rs: seq<int>)
    requires forall i :: 0 <= i < |rs| ==> 1 <= rs[i] <= 10
    ensures |rs| <= Sum(rs) <= 10 * |rs|
  {
    if rs != [] {
      SumBounds(rs[1..]);
    }
  }

  /** `ratingDistribution`: the number of entries per rating given. */
  function Distribution(entries: seq<JournalEntry>): map<int, nat> {
    ToMap(CountBy(Ratings(entries)))
  }

  /** A rating occurs among the ratings as often as entries carry it. */
  lemma {:induction false} RatingCount(entries: seq<JournalEntry>, r: int)
    ensures multiset(Ratings(entries))[r] == |Filter(entries, HasRating(r))|
  {
    if entries != [] {
      RatingCount(entries[1..], r);
      var head := if Rated(entries[0]) then [entries[0].rating.value] else [];
      var rest := Ratings(entries[1..]);
      assert Ratings(entries) == head + rest;
      assert multiset(head + rest) == multiset(head) + multiset(rest);
      assert multiset(head)[r] == if entries[0].rating == Some(r) then 1 else 0;
      FilterCons(entries, HasRating(r));
    }
  }

  /** The distribution has a key for each rating given and none other, and
      maps it to the number of entries with that rating. */
  lemma DistributionFacts(entries: seq<JournalEntry>, r: int)
    ensures r in Distribution(entries) <==> exists i :: 0 <= i < |entries| && entries[i].rating == Some(r)
    ensures r in Distribution(entries) ==> Distribution(entries)[r] == |Filter(entries, HasRating(r))|
  {
    CountRecord(Ratings(entries), r);
    RatingCount(entries, r);
    if exists i :: 0 <= i < |entries| && entries[i].rating == Some(r) {
      var i :| 0 <= i < |entries| && entries[i].rating == Some(r);
      assert entries[i] in Filter(entries, HasRating(r));
    }
    if r in Ratings(entries) {
      var j :| 0 <= j < |Ratings(entries)| && Ratings(entries)[j] == r;
      assert Filter(entries, Rated)[j] in entries;
    }
  }

  /** The distribution is built from one tally per rating given, each
      holding that rating's count; the counts add up to the number of rated
      entries. */
  lemma DistributionSum(entries: seq<JournalEntry>)
    ensures var ts := CountBy(Ratings(entries));
      Distribution(entries) == ToMap(ts) && DistinctKeys(ts)
      && (forall i :: 0 <= i < |ts| ==>
            ts[i].key in Distribution(entries) && Distribution(entries)[ts[i].key] == ts[i].count)
      && SumCounts(ts) == |Filter(entries, Rated)|
  {
    CountByFacts(Ratings(entries));
    ToMapEntries(CountBy(Ratings(entries)));
  }

  // ---------------------------------------------------------------------
  // Genres

  /** Every genre of every entry, in entry order. */
  function AllGenres(entries: seq<JournalEntry>): seq<string> {
    if entries == [] then [] else entries[0].media.genres + AllGenres(entries[1..])
  }

  /** Each genre of an entry is counted. */
  lemma {:induction false} AllGenresMembers(entries: seq<JournalEntry>, i: nat, g: string)
    requires i < |entries| && g in entries[i].media.genres
    ensures g in AllGenres(entries)
  {
    if i > 0 {
      AllGenresMembers(entries[1..], i - 1, g);
    }
  }

  /** The eight most frequent genres with their counts. */
  function TopGenres(entries: seq<JournalEntry>): seq<Tally<string>> {
    TopN(CountBy(AllGenres(entries)), TallyCount, TOP_GENRES)
  }

  /** At most eight genres, each listed once with the number of times it
      occurs across the entries, by non-increasing count; no genre left out
      occurs more often than a genre listed. */
  lemma TopGenresFacts(entries: seq<JournalEntry>)
    ensures var top, gs := TopGenres(entries), AllGenres(entries);
      |top| == (if |FirstSeen(gs)| < TOP_GENRES then |FirstSeen(gs)| else TOP_GENRES)
      && (forall i :: 0 <= i < |top| ==> top[i].key in gs && top[i].count == multiset(gs)[top[i].key])
      && (forall i, j :: 0 <= i < j < |top| ==> top[i].count >= top[j].count && top[i].key != top[j].key)
      && (forall g, i :: g in gs && 0 <= i < |top| && (forall k :: 0 <= k < |top| ==> top[k].key != g) ==> multiset(gs)[g] <= top[i].count)
  {
    var gs := AllGenres(entries);
    var ts := CountBy(gs);
    var top := TopGenres(entries);
    CountByFacts(gs);
    assert |ts| == |Keys(ts)| == |FirstSeen(gs)|;
    TopNFacts(ts, TallyCount, TOP_GENRES);
    TopGenresCounted(gs);
    forall i, j | 0 <= i < j < |top| ensures top[i].count >= top[j].count && top[i].key != top[j].key {
      assert TallyCount(top[i]) >= TallyCount(top[j]);
      TopNDistinct(ts, i, j);
    }
    TopGenresNoneBetter(gs);
  }

  lemma TopGenresCounted(gs: seq<string>)
    ensures var top := TopN(CountBy(gs), TallyCount, TOP_GENRES);
      forall i :: 0 <= i < |top| ==> top[i].key in gs && top[i].count == multiset(gs)[top[i].key]
  {
    var ts := CountBy(gs);
    var top := TopN(ts, TallyCount, TOP_GENRES);
    TopNFacts(ts, TallyCount, TOP_GENRES);
    forall i | 0 <= i < |top| ensures top[i].key in gs && top[i].count == multiset(gs)[top[i].key] {
      assert top[i] in multiset(ts);
      var q :| 0 <= q < |ts| && ts[q] == top[i];
      CountByMember(gs, q);
    }
  }

  lemma TopGenresNoneBetter(gs: seq<string>)
    ensures var top := TopN(CountBy(gs), TallyCount, TOP_GENRES);
      forall g, i :: g in gs && 0 <= i < |top| && (forall k :: 0 <= k < |top| ==> top[k].key != g) ==> multiset(gs)[g] <= top[i].count
  {
    var ts := CountBy(gs);
    var top := TopN(ts, TallyCount, TOP_GENRES);
    TopNLeftOut(ts, TallyCount, TOP_GENRES);
    forall g, i | g in gs && 0 <= i < |top| && (forall k :: 0 <= k < |top| ==> top[k].key != g)
      ensures multiset(gs)[g] <= top[i].count
    {
      var q := CounterOf(gs, g);
      assert ts[q] !in top;
      assert TallyCount(ts[q]) <= TallyCount(top[i]);
    }
  }

  /** Two kept counters of distinct-keyed counters have different keys. */
  lemma TopNDistinct(ts: seq<Tally<string>>, i: nat, j: nat)
    requires DistinctKeys(ts)
    requires i < j < |TopN(ts, TallyCount, TOP_GENRES)|
    ensures TopN(ts, TallyCount, TOP_GENRES)[i].key != TopN(ts, TallyCount, TOP_GENRES)[j].key
  {
    var sorted := SortDesc(ts, TallyCount);
    assert TopN(ts, TallyCount, TOP_GENRES)[i] == sorted[i] && TopN(ts, TallyCount, TOP_GENRES)[j] == sorted[j];
    DistinctAfterPermutation(ts, sorted, i, j);
  }

  /** A permutation of a duplicate-free list of counters is duplicate-free. */
  lemma DistinctAfterPermutation(ts: seq<Tally<string>>, us: seq<Tally<string>>, i: nat, j: nat)
    requires DistinctKeys(ts) && multiset(us) == multiset(ts)
    requires i < j < |us|
    ensures us[i].key != us[j].key
  {
    if us[i].key == us[j].key {
      assert us[i] in multiset(ts) && us[j] in multiset(ts);
      var a :| 0 <= a < |ts| && ts[a] == us[i];
      var b :| 0 <= b < |ts| && ts[b] == us[j];
      assert a == b;
      assert us[i] == us[j];
      var m := multiset(us);
      assert us == us[..i] + [us[i]] + us[i + 1..j] + [us[j]] + us[j + 1..];
      assert m[us[i]] >= 2;
      DistinctKeysOnce(ts, a);
    }
  }

  /** In a duplicate-free list of counters each counter occurs once. */
  lemma {:induction false} DistinctKeysOnce(ts: seq<Tally<string>>, a: nat)
    requires DistinctKeys(ts) && a < |ts|
    ensures multiset(ts)[ts[a]] == 1
  {
    if a > 0 {
      DistinctKeysOnce(ts[1..], a - 1);
      assert ts == [ts[0]] + ts[1..];
      assert ts[0] != ts[a];
    } else {
      assert ts == [ts[0]] + ts[1..];
      assert ts[0] !in ts[1..];
    }
  }

  // ---------------------------------------------------------------------
  // Months

  function Months(entries: seq<JournalEntry>, monthKeyOf: string -> string): (ms: seq<string>)
    ensures |ms| == |entries|
    ensures forall i :: 0 <= i < |entries| ==> ms[i] == monthKeyOf(entries[i].consumedAt)
  {
    seq(|entries|, i requires 0 <= i < |entries| => monthKeyOf(entries[i].consumedAt))
  }

  /** `slice(-12)` of the month counters, as the source takes them. */
  function LastMonths(ts: seq<Tally<string>>): (r: seq<Tally<string>>)
    ensures |r| <= MONTHS_SHOWN
    ensures |ts| <= MONTHS_SHOWN ==> r == ts
    ensures |ts| > MONTHS_SHOWN ==> r == ts[|ts| - MONTHS_SHOWN..]
  {
    if |ts| <= MONTHS_SHOWN then ts else ts[|ts| - MONTHS_SHOWN..]
  }

  /** The month counters are in first-seen order, so for a journal listed
      newest first (as the store lists it) `slice(-12)` keeps the oldest
      months: once thirteen months or more are logged, the month of the
      first-listed entry is dropped. */
  lemma LastMonthsDropsFirstListed(entries: seq<JournalEntry>, monthKeyOf: string -> string)
    requires |FirstSeen(Months(entries, monthKeyOf))| > MONTHS_SHOWN
    ensures |entries| > 0
    ensures forall i :: 0 <= i < |LastMonths(CountBy(Months(entries, monthKeyOf)))| ==>
      LastMonths(CountBy(Months(entries, monthKeyOf)))[i].key != monthKeyOf(entries[0].consumedAt)
  {
    var ms := Months(entries, monthKeyOf);
    var ts := CountBy(ms);
    CountByFacts(ms);
    FirstSeenHead(ms);
    assert ts[0].key == Keys(ts)[0] == ms[0];
    LastMonthsSkipHead(ts);
  }

  /** With more than twelve counters of distinct keys, `slice(-12)` leaves
      out the first counter's key. */
  lemma LastMonthsSkipHead(ts: seq<Tally<string>>)
    requires DistinctKeys(ts) && |ts| > MONTHS_SHOWN
    ensures forall i :: 0 <= i < |LastMonths(ts)| ==> LastMonths(ts)[i].key != ts[0].key
  {
    forall i | 0 <= i < |LastMonths(ts)| ensures LastMonths(ts)[i].key != ts[0].key {
      assert LastMonths(ts)[i] == ts[|ts| - MONTHS_SHOWN + i];
    }
  }

  /** The corrected month selection: the twelve months seen first, which
      for a journal listed newest first are the latest twelve months. The
      comment asks for the latest twelve and fixes no order; they are put
      here oldest first. */
  function RecentMonths(ts: seq<Tally<string>>): (r: seq<Tally<string>>)
    ensures |r| == if |ts| < MONTHS_SHOWN then |ts| else MONTHS_SHOWN
    ensures forall i :: 0 <= i < |r| ==> r[i] == ts[|r| - 1 - i]
  {
    var kept := Take(ts, MONTHS_SHOWN);
    seq(|kept|, i requires 0 <= i < |kept| => kept[|kept| - 1 - i])
  }

  /** The corrected selection always ends with the month of the first-listed
      entry, and each month it shows carries the number of entries in it. */
  lemma RecentMonthsKeepsFirstListed(entries: seq<JournalEntry>, monthKeyOf: string -> string)
    requires |entries| > 0
    ensures var r, ms := RecentMonths(CountBy(Months(entries, monthKeyOf))), Months(entries, monthKeyOf);
      |r| > 0 && r[|r| - 1].key == monthKeyOf(entries[0].consumedAt)
      && forall i :: 0 <= i < |r| ==> r[i].key in ms && r[i].count == multiset(ms)[r[i].key]
  {
    var ms := Months(entries, monthKeyOf);
    var ts := CountBy(ms);
    CountByFacts(ms);
    FirstSeenHead(ms);
    assert ts[0].key == Keys(ts)[0];
    var r := RecentMonths(ts);
    forall i | 0 <= i < |r| ensures r[i].key in ms && r[i].count == multiset(ms)[r[i].key] {
      CountByMember(ms, |r| - 1 - i);
    }
  }

  // ---------------------------------------------------------------------
  // Top entries

  function RatingKey(e: JournalEntry): int {
    e.rating.GetOr(0)
  }

  /** The ten best-rated entries. */
  function TopEntries(entries: seq<JournalEntry>): seq<JournalEntry> {
    TopN(Filter(entries, Rated), RatingKey, TOP_ENTRIES)
  }

  /** At most ten entries, all rated and taken from the journal, by
      non-increasing rating, with entries of equal rating in journal order;
      no rated entry left out has a higher rating than one kept. */
  lemma TopEntriesFacts(entries: seq<JournalEntry>)
    ensures var top := TopEntries(entries);
      |top| == (if |Filter(entries, Rated)| < TOP_ENTRIES then |Filter(entries, Rated)| else TOP_ENTRIES)
      && (forall i :: 0 <= i < |top| ==> top[i] in entries && top[i].rating.Some?)
      && (forall i, j :: 0 <= i < j < |top| ==> top[i].rating.value >= top[j].rating.value)
      && (forall e, i :: e in entries && e.rating.Some? && e !in top && 0 <= i < |top| ==> e.rating.value <= top[i].rating.value)
      && (forall e: JournalEntry, i :: e.rating.Some? && multiset(top)[e] < multiset(entries)[e] && 0 <= i < |top| ==>
            e.rating.value <= top[i].rating.value)
    ensures forall k :: WithKey(SortDesc(Filter(entries, Rated), RatingKey), RatingKey, k) == WithKey(Filter(entries, Rated), RatingKey, k)
  {
    TopNFacts(Filter(entries, Rated), RatingKey, TOP_ENTRIES);
    TopEntriesRated(entries);
    TopEntriesOrdered(entries);
    TopEntriesBest(entries);
    TopEntriesBestCopies(entries);
    SortDescStableAll(Filter(entries, Rated), RatingKey);
  }

  lemma TopEntriesRated(entries: seq<JournalEntry>)
    ensures forall i :: 0 <= i < |TopEntries(entries)| ==>
      TopEntries(entries)[i] in entries && TopEntries(entries)[i].rating.Some?
  {
    var rated := Filter(entries, Rated);
    var top := TopEntries(entries);
    TopNFacts(rated, RatingKey, TOP_ENTRIES);
    forall i | 0 <= i < |top| ensures top[i] in entries && top[i].rating.Some? {
      assert top[i] in multiset(rated);
    }
  }

  lemma TopEntriesOrdered(entries: seq<JournalEntry>)
    ensures forall i, j :: 0 <= i < j < |TopEntries(entries)| ==>
      TopEntries(entries)[i].rating.Some? && TopEntries(entries)[j].rating.Some?
      && TopEntries(entries)[i].rating.value >= TopEntries(entries)[j].rating.value
  {
    var top := TopEntries(entries);
    TopNFacts(Filter(entries, Rated), RatingKey, TOP_ENTRIES);
    TopEntriesRated(entries);
    forall i, j | 0 <= i < j < |top|
      ensures top[i].rating.Some? && top[j].rating.Some? && top[i].rating.value >= top[j].rating.value
    {
      assert RatingKey(top[i]) >= RatingKey(top[j]);
    }
  }

  lemma TopEntriesBest(entries: seq<JournalEntry>)
    ensures forall e, i :: e in entries && e.rating.Some? && e !in TopEntries(entries) && 0 <= i < |TopEntries(entries)| ==>
      TopEntries(entries)[i].rating.Some? && e.rating.value <= TopEntries(entries)[i].rating.value
  {
    var rated := Filter(entries, Rated);
    var top := TopEntries(entries);
    TopNFacts(rated, RatingKey, TOP_ENTRIES);
    TopEntriesRated(entries);
    forall e, i | e in entries && e.rating.Some? && e !in top && 0 <= i < |top|
      ensures top[i].rating.Some? && e.rating.value <= top[i].rating.value
    {
      var k :| 0 <= k < |entries| && entries[k] == e;
      assert e in rated;
      assert RatingKey(e) <= RatingKey(top[i]);
    }
  }

  /** A rated entry of which fewer copies are kept than the journal holds
      is rated no higher than any entry kept. */
  lemma TopEntriesBestCopies(entries: seq<JournalEntry>)
    ensures forall e: JournalEntry, i ::
      e.rating.Some? && multiset(TopEntries(entries))[e] < multiset(entries)[e] && 0 <= i < |TopEntries(entries)| ==>
      TopEntries(entries)[i].rating.Some? && e.rating.value <= TopEntries(entries)[i].rating.value
  {
    var rated := Filter(entries, Rated);
    var top := TopEntries(entries);
    TopNCopies(rated, RatingKey, TOP_ENTRIES);
    TopEntriesRated(entries);
    forall e: JournalEntry, i | e.rating.Some? && multiset(top)[e] < multiset(entries)[e] && 0 <= i < |top|
      ensures top[i].rating.Some? && e.rating.value <= top[i].rating.value
    {
      FilterCount(entries, Rated, e);
      assert RatingKey(e) <= RatingKey(top[i]);
    }
  }

  // ---------------------------------------------------------------------
  // The statistics

  /** `useCulturalDna(entries)`. An empty journal gives zero counts, no
      favourite, no month and no list of top entries at all; otherwise
      every figure is computed from the entries (see the lemmas above). */
  function ComputeStats(entries: seq<JournalEntry>, monthKeyOf: string -> string): (s: Stats)
    ensures s.totalEntries == |entries|
    ensures entries == [] ==>
      s.averageTenths == 0 && s.topGenres == [] && s.entriesByMonth == [] && s.mostActiveMonth == ""
      && s.favoriteType == None && s.ratingDistribution == map[] && s.topEntries == None
      && forall t :: t in s.mediaBreakdown && s.mediaBreakdown[t] == 0
    ensures entries != [] ==> s.favoriteType.Some? && s.topEntries.Some? && |s.topEntries.value| <= TOP_ENTRIES
    ensures |s.topGenres| <= TOP_GENRES && |s.entriesByMonth| <= MONTHS_SHOWN
    ensures entries != [] ==>
      s.mediaBreakdown == Breakdown(entries) && s.favoriteType == Some(FavoriteType(entries))
      && s.topGenres == TopGenres(entries) && s.topEntries == Some(TopEntries(entries))
      && s.mostActiveMonth == Mode(Months(entries, monthKeyOf))
    ensures entries != [] ==> s.entriesByMonth == LastMonths(CountBy(Months(entries, monthKeyOf)))
    ensures entries != [] ==> s.ratingDistribution == Distribution(entries)
    ensures |Ratings(entries)| > 0 ==> s.averageTenths == AverageTenths(Sum(Ratings(entries)), |Filter(entries, Rated)|)
    ensures |Ratings(entries)| == 0 ==> s.averageTenths == 0 && s.ratingDistribution == map[]
  {
    if entries == [] then
      AllTypesExact();
      Stats(0, 0, map t | t in ALL_TYPES :: 0, [], [], "", None, map[], None)
    else
      var rs := Ratings(entries);
      var ms := Months(entries, monthKeyOf);
      TopNFacts(CountBy(AllGenres(entries)), TallyCount, TOP_GENRES);
      TopNFacts(Filter(entries, Rated), RatingKey, TOP_ENTRIES);
      Stats(
        |entries|,
        if |rs| > 0 then AverageTenths(Sum(rs), |rs|) else 0,
        Breakdown(entries),
        TopGenres(entries),
        LastMonths(CountBy(ms)),
        Mode(ms),
        Some(FavoriteType(entries)),
        Distribution(entries),
        Some(TopEntries(entries)))
  }

  /** The most active month is a month with the most entries; of several
      such months, the one first seen in entry order. */
  lemma MostActiveMonthFacts(entries: seq<JournalEntry>, monthKeyOf: string -> string)
    requires |entries| > 0
    ensures var m, ms := ComputeStats(entries, monthKeyOf).mostActiveMonth, Months(entries, monthKeyOf);
      m in ms
      && (forall i :: 0 <= i < |ms| ==> multiset(ms)[ms[i]] <= multiset(ms)[m])
      && (forall j :: 0 <= j < FirstIndex(ms, m) ==> multiset(ms)[ms[j]] < multiset(ms)[m])
  {
    ModeFacts(Months(entries, monthKeyOf));
  }
}
