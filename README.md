# Nexus media tracker — verified model of the core

Nexus is a personal media tracker. Users search five public catalogs for
films, TV series, books, video games and music releases:
- TMDB for films and TV series;
- Open Library for books;
- RAWG for video games;
- MusicBrainz for music releases.

Each catalog's records are mapped into one common `NormalizedMedia` record.
Users log what they consumed in a journal, with a date, an optional rating
from 1 to 10, a note, tags and a rewatch flag. They keep a wishlist that
holds each media at most once, and they see "Cultural DNA" statistics
computed from the journal.

This Dafny project models that core:

- **Shared records** (`media.dfy`, `wrappers.dfy`). The media types, the
  normalised media record, journal entries, wishlist items, the display
  table, paginated results and the thrown error.
- **Catalog adapters** (`tmdb.dfy`, `openlibrary.dfy`, `rawg.dfy`,
  `musicbrainz.dfy`).
  - Each raw response is a datatype, and each HTTP answer is an input
    `Result`.
  - Normalisation and the detail mappings are functions.
  - The TMDB genre table is a class whose `FetchGenres` method reassigns
    the table.
  - The MusicBrainz adapter is a class whose `Throttle` method updates the
    time of the last request.
- **Aggregator and search state** (`mediaapi.dfy`, `usesearch.dfy`).
  - The adapter table and the dispatching functions.
  - `SearchAll` is a loop that fills the per-type record from settled
    outcomes.
  - The search hook is a class with per-type `results` and `hasMore` maps.
- **Stores** (`journalservice.dfy`, `wishlistservice.dfy`). Classes whose
  `entries` or `items` sequence is the array kept in local storage. Adding
  and removing are methods; the queries are functions of the stored
  sequence.
- **Mirroring hooks** (`usejournal.dfy`, `usewishlist.dfy`).
  - Classes holding the store they talk to and the in-memory copy shown
    to the user.
  - Every method proves what happens to both lists. It also proves when a
    copy holding the same elements as the store still does afterwards. The
    wishlist's `addItem` is modelled as written, and for a media already
    wished for the copy falls out of step (see Findings).
- **Statistics** (`culturaldna.dfy`). One function computes the statistics
  record. Lemmas cover the breakdown, the favourite type, the average, the
  distribution, the top genres, the months and the top entries.
- **Logging form** (`logmediamodal.dfy`). The tag parser, the rating toggle
  and the form's state as a class.
- **JavaScript semantics the code relies on:**
  - `text.dfy`: truthiness, `trim`, `split`, first-occurrence `replace`
    and `String(n)`.
  - `sorting.dfy`: `filter`, `map`, `find`, `slice(0, n)`, and the stable `Array.sort`
    with a descending numeric comparator, modelled as a stable insertion
    sort.
  - `counting.dfy`: counters kept in an object; `Object.entries` lists
    keys in insertion order.

Clocks, random ids, HTTP answers, API keys and the date conversions are
parameters. The date conversions are `new Date(s).getTime()` and the French
month label.

## Model

| member | source | states |
|---|---|---|
| Media.AllTypesExact | src/types/media.ts:1 | there are exactly five media types, each listed once |
| Media.TypeNameInjective | src/types/media.ts:1 | two types have the same string literal only when they are the same type |
| Media.MediaConfigTotal | src/types/media.ts:45-51 | the display table has an entry for every type: a non-empty label and verb, and the colour variable named after the type |
| Media.CeilDiv | src/lib/api/adapters/musicBrainz.adapter.ts:79 | the result is the least whole number q with d·q ≥ n (`Math.ceil(n / d)`) |
| Media.BeforeLastPage | src/lib/api/adapters/openLibrary.adapter.ts:55-59 | `page < ceil(count / 20)` holds exactly when some result lies beyond the first `page` pages of twenty |
| Sorting.Take | src/lib/api/adapters/tmdb.adapter.ts:64 | `slice(0, n)` is a prefix of its input, of length min(n, length) |
| Text.Trim | src/hooks/useSearch.ts:24 | the trimmed string is the input with its leading and its trailing white space cut off: what lies before and after it is all white space; it is empty exactly when the input is all white space, and otherwise starts and ends with non-white-space |
| Text.TrimIdempotent | src/features/journal/components/LogMediaModal.tsx:33 | trimming twice is trimming once |
| Text.Split | src/features/journal/components/LogMediaModal.tsx:32 | `split(sep)` gives one more piece than there are separators, and no piece holds the separator |
| Text.JoinSplit | src/features/journal/components/LogMediaModal.tsx:32 | joining the pieces of a split with the separator gives back the string |
| Text.SplitJoin | src/features/journal/components/LogMediaModal.tsx:32 | splitting a join of separator-free pieces gives back the pieces |
| Text.RemoveFirst | src/lib/api/adapters/openLibrary.adapter.ts:66 | `replace(pat, '')` cuts out the first occurrence of the pattern and keeps everything around it; a string without the pattern is unchanged |
| Text.IntToStringRoundTrip | src/lib/api/adapters/tmdb.adapter.ts:69 | `String(n)` reads back as n |
| Text.IntToStringInjective | src/lib/api/adapters/rawg.adapter.ts:31 | distinct ids give distinct decimal strings |
| Sorting.Filter | src/lib/localStorage/journal.service.ts:65 | `filter(p)` keeps exactly the elements satisfying p, as a subsequence of its input, and is a sub-multiset of it; when every element satisfies p, the input is unchanged |
| Sorting.FilterUnique | src/lib/localStorage/journal.service.ts:65 | the filter is the only subsequence of the input that holds each passing element as often as the input and no other element |
| Sorting.FilterWithKey | src/lib/localStorage/journal.service.ts:75-81 | filtering, then taking the elements of one key, is taking them, then filtering: the kept elements of equal key stay in their order |
| Sorting.FilterCountAll | src/lib/localStorage/journal.service.ts:76 | the filtered list holds each kept value as often as the input, and no other value |
| Sorting.FilterSorted | src/lib/localStorage/journal.service.ts:75-81 | filtering a sorted list keeps it sorted |
| Sorting.FindFirst | src/lib/localStorage/journal.service.ts:51 | `findIndex` gives the first index satisfying the predicate, or none exactly when no element does |
| Sorting.SortDesc | src/lib/localStorage/journal.service.ts:15-19 | sorting by a descending numeric comparator is a permutation of the input |
| Sorting.SortDescSorted | src/lib/localStorage/journal.service.ts:15-19 | the sorted list has non-increasing keys |
| Sorting.SortDescStable | src/lib/localStorage/journal.service.ts:15-19 | the sort is stable: the elements with any one key keep their relative order |
| Sorting.TopNFacts | src/hooks/useCulturalDna.ts:87-90 | sort-then-`slice(0, n)` keeps min(n, length) elements from the input, by non-increasing key; no element left out, and no value of which fewer copies are kept than the input holds, has a greater key than one kept |
| Sorting.SortedUnique | src/lib/localStorage/journal.service.ts:86 | `Array.from(new Set(xs)).sort()` is strictly ascending and holds exactly the values of xs |
| Sorting.AscendingDistinct | src/lib/localStorage/journal.service.ts:86 | a strictly ascending list has no repeated value |
| Counting.CountByFacts | src/hooks/useCulturalDna.ts:59-64 | the counter object lists each value once, in first-seen order, with the number of times it occurs; the counts sum to the length |
| Counting.ModeFacts | src/hooks/useCulturalDna.ts:82-84 | the first key of the counters sorted by count is a most frequent value; a value seen before it occurs strictly fewer times |
| Counting.CountRecord | src/hooks/useCulturalDna.ts:50-56 | the counter record has a key exactly for the values that occur, holding the number of occurrences |
| Tmdb.LastWithId | src/lib/api/adapters/tmdb.adapter.ts:53-56 | the index of the last genre with the id, or none when no genre has it |
| Tmdb.BuildTableLookup | src/lib/api/adapters/tmdb.adapter.ts:48-56 | the reduced table knows exactly the ids in the film and TV lists; an id repeated in the lists gets the last name given to it |
| Tmdb.AfterFetchWriteOnce | src/lib/api/adapters/tmdb.adapter.ts:36 | once the table is filled, later fetches never change it |
| Tmdb.GenreCache.FetchGenres | src/lib/api/adapters/tmdb.adapter.ts:35-60 | a filled table is left alone; a failed fetch leaves the table unchanged; otherwise the table is built from the film genres followed by the TV genres |
| Tmdb.GenreLabel | src/lib/api/adapters/tmdb.adapter.ts:66 | a genre id is shown by its table name, or as `Genre <id>` when the name is missing or empty |
| Tmdb.NormalizeResult | src/lib/api/adapters/tmdb.adapter.ts:62-79 | the id is `String(id)` and the title is `title`, else `name`, else empty; the year is never null: the first four characters of the release date, else of the first air date, else empty; a poster URL exactly when a poster path is given; one genre label per genre id, in order |
| Tmdb.ExternalIdIdentifies | src/lib/api/adapters/tmdb.adapter.ts:69 | the external id parses back to the catalog id |
| Tmdb.SearchPage | src/lib/api/adapters/tmdb.adapter.ts:98-102 | every result is normalised in order with the adapter's type; `hasMore` is `page < total_pages` |
| Tmdb.DetailsMedia | src/lib/api/adapters/tmdb.adapter.ts:120-138 | a film detail takes the title and release date and a TV detail the name and first air date; the genres are the detail's genre names; at most five cast names, in credit order |
| Tmdb.Search | src/lib/api/adapters/tmdb.adapter.ts:82-103 | without an API key it throws `TMDB API key not configured` before any request and the table is untouched; otherwise it fetches the genres, passes a failed request on, and pages the response |
| Tmdb.GetDetails | src/lib/api/adapters/tmdb.adapter.ts:105-139 | the same guard and genre fetch as search, then the detail mapping |
| MusicBrainz.Year | src/lib/api/adapters/musicBrainz.adapter.ts:25 | the year is present exactly when the date is non-empty, and then it is the date's first four characters, or the whole date when it is shorter |
| MusicBrainz.TopTagsFacts | src/lib/api/adapters/musicBrainz.adapter.ts:28-31 | exactly min(5, number of tags) tags, taken from the list, by non-increasing vote count; none left out, and no tag of which fewer copies are kept than the list holds, has more votes than one kept |
| MusicBrainz.NormalizeResult | src/lib/api/adapters/musicBrainz.adapter.ts:24-48 | always a small (250) cover URL; `genres` if present, else `tags`, reduced to the five most voted names; the first label name, else empty |
| MusicBrainz.DetailsMedia | src/lib/api/adapters/musicBrainz.adapter.ts:101-122 | keyed by the requested id, with the large (500) cover URL, and the same year, genres, artists and label as a search result |
| MusicBrainz.SearchQuery | src/lib/api/adapters/musicBrainz.adapter.ts:66-73 | twenty releases requested from offset `(page - 1) * 20` |
| MusicBrainz.PagesAdjacent | src/lib/api/adapters/musicBrainz.adapter.ts:66 | consecutive pages ask for adjacent windows, and page 1 starts at offset 0 |
| MusicBrainz.SearchPage | src/lib/api/adapters/musicBrainz.adapter.ts:79-85 | every release normalised in order; `hasMore` is `page < ceil(count / 20)` |
| MusicBrainz.HasMoreIffBeyondWindow | src/lib/api/adapters/musicBrainz.adapter.ts:79-83 | more pages exactly when some release lies beyond the window just requested |
| MusicBrainz.ThrottleWait | src/lib/api/adapters/musicBrainz.adapter.ts:56-59 | no wait once a full delay has passed; otherwise the wait ends exactly one delay after the last request |
| MusicBrainz.ThrottleSpacing | src/lib/api/adapters/musicBrainz.adapter.ts:54-61 | after waiting, the request goes out at least one delay after the previous one |
| MusicBrainz.MusicBrainzAdapter.Throttle | src/lib/api/adapters/musicBrainz.adapter.ts:54-61 | waits `ThrottleWait`, records the second clock reading, and the recorded time is at least the previous one plus the delay |
| MusicBrainz.MusicBrainzAdapter.Search | src/lib/api/adapters/musicBrainz.adapter.ts:63-86 | throttles first: the request goes out at `now` plus the throttle wait plus the timer's overshoot, at least one second after the previous one; passes a failed request on; otherwise pages the response |
| MusicBrainz.MusicBrainzAdapter.GetDetails | src/lib/api/adapters/musicBrainz.adapter.ts:88-123 | throttles first: the request goes out at `now` plus the throttle wait plus the timer's overshoot, at least one second after the previous one; passes a failed request on; otherwise maps the release under the requested id |
| Text.Utf16Length | src/lib/api/adapters/openLibrary.adapter.ts:27 | `length` counts UTF-16 code units: between one and two per character, and exactly one per character when no character lies outside the Basic Multilingual Plane |
| OpenLibrary.ShortSubjects | src/lib/api/adapters/openLibrary.adapter.ts:26-28 | the genres are the first five subjects whose UTF-16 length is below 30, in order, or all of those when there are fewer than five |
| OpenLibrary.AstralSubjectDropped | src/lib/api/adapters/openLibrary.adapter.ts:27 | a subject of sixteen astral letters is 32 code units long and is not kept as a genre |
| OpenLibrary.NormalizeResult | src/lib/api/adapters/openLibrary.adapter.ts:24-43 | the year is `String(first_publish_year)` or null when it is missing or 0; a cover URL exactly when a non-zero cover id is given; authors default to none; publisher and ISBN are the first element, else empty |
| OpenLibrary.SearchPage | src/lib/api/adapters/openLibrary.adapter.ts:55-61 | every document normalised in order; `hasMore` holds exactly when results lie beyond the first `page` pages of twenty |
| OpenLibrary.WorkPathOfKey | src/lib/api/adapters/openLibrary.adapter.ts:66-67 | a key starting with `/works/` is requested at itself plus `.json`; a key without it gets the prefix added |
| OpenLibrary.DescriptionOf | src/lib/api/adapters/openLibrary.adapter.ts:87 | a typed description with a non-empty value is unwrapped; a plain string is kept; a missing description is empty |
| OpenLibrary.DetailsMedia | src/lib/api/adapters/openLibrary.adapter.ts:69-90 | keyed by the given key; the title is `title`, else empty; the year is the first four characters of the publish date or null; a cover only when the first cover id is non-zero; always no genres; at most five subjects |
| OpenLibrary.DetailsKeepIdentity | src/lib/api/adapters/openLibrary.adapter.ts:80 | a book found by search and then opened keeps its `(externalId, type)` key |
| OpenLibrary.Search | src/lib/api/adapters/openLibrary.adapter.ts:46-62 | a failed request is passed on; otherwise the response is paged |
| OpenLibrary.GetDetails | src/lib/api/adapters/openLibrary.adapter.ts:64-91 | a failed request is passed on; otherwise the work is mapped under the key |
| Rawg.NonZeroReal | src/lib/api/adapters/rawg.adapter.ts:39 | `rating \|\| null`: present exactly when given and non-zero |
| Rawg.NonZeroInt | src/lib/api/adapters/rawg.adapter.ts:40 | `metacritic \|\| null`: present exactly when given and non-zero |
| Rawg.DetailsMedia | src/lib/api/adapters/rawg.adapter.ts:76-93 | the type is `game`; the id is `String(game.id)` and parses back to the game id; the year and background image are present exactly when non-empty; genres in source order; every platform |
| Rawg.NormalizeResult | src/lib/api/adapters/rawg.adapter.ts:25-43 | a search result lists at most five platforms |
| Rawg.SearchResultIsTruncatedDetail | src/lib/api/adapters/rawg.adapter.ts:28 | a search result is the detail record with only the first five platforms kept, and the two agree when there are at most five |
| Rawg.SearchPage | src/lib/api/adapters/rawg.adapter.ts:60-64 | every game normalised in order; `hasMore` exactly when `next` is not null |
| Rawg.Search | src/lib/api/adapters/rawg.adapter.ts:46-65 | without an API key it throws `RAWG API key not configured`; otherwise it passes a failed request on or pages the response |
| Rawg.GetDetails | src/lib/api/adapters/rawg.adapter.ts:67-94 | the same key guard, then the detail mapping |
| MediaApi.AdapterTableConsistent | src/lib/api/mediaApi.ts:8-14 | each type is served by its own adapter, which produces results of that type |
| MediaApi.NotATypeName | src/lib/api/mediaApi.ts:8-14 | a string other than the five literals names no type |
| MediaApi.AdapterNamed | src/lib/api/mediaApi.ts:21-22 | `adapters[name]` is defined exactly for the five literals, and is then the type's adapter |
| MediaApi.SearchByType | src/lib/api/mediaApi.ts:16-26 | an unknown type name throws `No adapter found for type: <name>`; otherwise the registered adapter's search result |
| MediaApi.GetMediaDetails | src/lib/api/mediaApi.ts:52-61 | the same dispatch for details |
| MediaApi.SearchAll | src/lib/api/mediaApi.ts:28-50 | every adapter is asked for page 1 of the query; the record has an entry for every type; a successful source's entry is its page unchanged, and a failed source's entry is the empty page with no more results and total 0 |
| UseSearch.EmptyResults | src/hooks/useSearch.ts:6-12 | an empty result list for every type |
| UseSearch.NoMore | src/hooks/useSearch.ts:14-20 | a false `hasMore` flag for every type |
| UseSearch.SearchHook.constructor | src/hooks/useSearch.ts:6-21 | starts with empty lists, no more pages, not loading and no error |
| UseSearch.SearchHook.Search | src/hooks/useSearch.ts:23-57 | a blank query clears every list and leaves the flags alone; otherwise each type gets the page 1 its adapter settled with for the query, a failed type an empty list and no more pages, the error is cleared and loading ends |
| UseSearch.SearchHook.LoadMore | src/hooks/useSearch.ts:59-78 | nothing changes when the type has no more pages or `searchByType(type, query, page)` fails, and that request goes to the type's own adapter with the given query and page; otherwise its page is appended to that type's list only, so the old list is a prefix, and that type's flag is replaced |
| CulturalDna.Types | src/hooks/useCulturalDna.ts:32-35 | the type of each entry, in entry order |
| CulturalDna.FiveWaySplit | src/hooks/useCulturalDna.ts:95-101 | the counts of the five types add up to the number of entries |
| CulturalDna.BreakdownCounts | src/hooks/useCulturalDna.ts:95-101 | every type has a count, which is the number of entries of that type, and the counts sum to the number of entries |
| CulturalDna.FavoriteTypeFacts | src/hooks/useCulturalDna.ts:38-40 | the favourite type has the most entries; of several types with as many, it is the first seen in entry order |
| CulturalDna.Ratings | src/hooks/useCulturalDna.ts:43-46 | one rating per entry whose rating is not null, in entry order: the i-th is the rating of the i-th rated entry |
| CulturalDna.AverageTenths | src/hooks/useCulturalDna.ts:94 | the average in tenths is `Math.round(10 · sum / count)`: the nearest whole number, halves rounded up |
| CulturalDna.AverageInRange | src/hooks/useCulturalDna.ts:43-47 | a mean of ratings from 1 to 10 is shown between 1.0 and 10.0 |
| CulturalDna.DistributionFacts | src/hooks/useCulturalDna.ts:50-56 | the distribution has a key exactly for each rating some entry carries, holding the number of entries with that rating |
| CulturalDna.RatingCount | src/hooks/useCulturalDna.ts:50-56 | a rating occurs among the ratings given as often as entries carry it |
| CulturalDna.DistributionSum | src/hooks/useCulturalDna.ts:50-56 | the distribution is built from one counter per rating given, each holding that rating's value in the map, and the counts add up to the number of rated entries |
| CulturalDna.AllGenresMembers | src/hooks/useCulturalDna.ts:59-62 | every genre of every entry is counted |
| CulturalDna.TopGenresFacts | src/hooks/useCulturalDna.ts:59-68 | exactly min(8, number of distinct genres) genres, each listed once with its number of occurrences across all entries, by non-increasing count, and no genre left out occurs more often than one kept |
| CulturalDna.Months | src/hooks/useCulturalDna.ts:71-73 | the month label of each entry, in entry order |
| CulturalDna.LastMonths | src/hooks/useCulturalDna.ts:77-79 | `slice(-12)` of the month counters, as written: the last twelve, or all when there are fewer |
| CulturalDna.LastMonthsDropsFirstListed | src/hooks/useCulturalDna.ts:77-79 | with thirteen months or more, the selection as written leaves out the month of the first-listed (newest) entry |
| CulturalDna.RecentMonths | src/hooks/useCulturalDna.ts:77-79 | the corrected selection: the twelve months seen first (all of them when fewer), put oldest first |
| CulturalDna.RecentMonthsKeepsFirstListed | src/hooks/useCulturalDna.ts:71-79 | the corrected selection always ends with the month of the first-listed entry, and each month carries its number of entries |
| CulturalDna.TopEntriesFacts | src/hooks/useCulturalDna.ts:87-90 | exactly min(10, number of rated entries) entries, all rated and from the journal, by non-increasing rating, ties in journal order; none left out, and no rated entry of which fewer copies are kept than the journal holds, is rated higher than one kept |
| CulturalDna.ComputeStats | src/hooks/useCulturalDna.ts:16-109 | the total is the number of entries; an empty journal gives zero counts for every type, no favourite, average 0, no genres, months or top-entry list; otherwise the per-type breakdown, the favourite type, the top genres, the top entries, the most active month (the mode of the entries' months), the rating distribution, the average in tenths of the non-null ratings, and the months of `slice(-12)` as written, each equal to the function that states its properties; always at most eight genres and twelve months |
| CulturalDna.MostActiveMonthFacts | src/hooks/useCulturalDna.ts:82-84 | the most active month has the most entries; of several, it is the first seen |
| JournalService.NewEntry | src/lib/localStorage/journal.service.ts:32-43 | the new entry carries the id, `local-user`, the media, the user's data and the two time stamps |
| JournalService.ApplyFacts | src/lib/localStorage/journal.service.ts:54-58 | an update keeps the id, owner and media, replaces exactly the fields it carries, stamps `updatedAt`, and applying it twice is applying it once |
| JournalService.ApplyNothing | src/lib/localStorage/journal.service.ts:54-58 | an empty update only refreshes `updatedAt` |
| JournalService.ApplyKeepsRatingValid | src/types/media.ts:18 | an update whose rating is absent or valid keeps the rating in 1..10 or null |
| JournalService.WithoutId | src/lib/localStorage/journal.service.ts:65 | keeps exactly the entries with another id, each as often as before, in the stored order |
| JournalService.WithoutIdFacts | src/lib/localStorage/journal.service.ts:65-66 | the length stays the same exactly when no entry has the id, and then nothing changed; distinct ids stay distinct |
| JournalService.AllTags | src/lib/localStorage/journal.service.ts:85 | a tag is listed exactly when some entry carries it |
| JournalService.ReplaceKeepsIds | src/lib/localStorage/journal.service.ts:54 | replacing an entry by one with its id keeps every id in place |
| JournalService.AppendFreshId | src/lib/localStorage/journal.service.ts:33-44 | appending an entry with a new id keeps the ids distinct |
| JournalService.JournalStore.constructor | src/lib/localStorage/journal.service.ts:6-9 | the store holds what storage holds |
| JournalService.JournalStore.List | src/lib/localStorage/journal.service.ts:15-19 | a permutation of the store, latest consumption first, with equal dates in stored order |
| JournalService.JournalStore.GetById | src/lib/localStorage/journal.service.ts:71-73 | null exactly when no entry has the id; otherwise the first entry with it |
| JournalService.JournalStore.FilterByType | src/lib/localStorage/journal.service.ts:75-77 | exactly the entries of the type, each as often as stored, kept in the order of `list()`: latest first, and entries sharing a time in stored order |
| JournalService.JournalStore.FilterByTag | src/lib/localStorage/journal.service.ts:79-81 | exactly the entries carrying the tag, each as often as stored, kept in the order of `list()`: latest first, and entries sharing a time in stored order |
| JournalService.JournalStore.GetAllTags | src/lib/localStorage/journal.service.ts:83-87 | every tag used by some entry, once each, in ascending order |
| JournalService.JournalStore.Add | src/lib/localStorage/journal.service.ts:21-47 | exactly one new entry is appended and returned; the existing entries are unchanged |
| JournalService.JournalStore.Update | src/lib/localStorage/journal.service.ts:49-61 | an unknown id gives null and changes nothing; a known id merges the update into the first entry with it only, and returns that entry |
| JournalService.JournalStore.Delete | src/lib/localStorage/journal.service.ts:63-69 | false exactly when no entry has the id, and then nothing changes; otherwise every entry with the id is removed |
| WishlistService.MatchesPair | src/lib/localStorage/wishlist.service.ts:24-26 | matching by external id and type literal is matching the `(externalId, type)` pair |
| WishlistService.Removal | src/lib/localStorage/wishlist.service.ts:44-60 | the items kept are exactly those passing the test, each as often as stored and in stored order (a subsequence), and something was removed exactly when some item fails it; nothing removed means nothing changed |
| WishlistService.RemovalKeepsUnique | src/lib/localStorage/wishlist.service.ts:44-60 | removing never makes a media wished for twice |
| WishlistService.RemovalSameElements | src/hooks/useWishlist.ts:26-44 | the same removal on two lists with the same items leaves lists with the same items |
| WishlistService.AppendNewPair | src/lib/localStorage/wishlist.service.ts:32-39 | appending a media not yet wished for keeps the pairs unique |
| WishlistService.WishlistStore.constructor | src/lib/localStorage/wishlist.service.ts:6-9 | the store holds what storage holds |
| WishlistService.WishlistStore.List | src/lib/localStorage/wishlist.service.ts:15-19 | a permutation of the store, latest added first, with equal dates in stored order |
| WishlistService.WishlistStore.IsInWishlist | src/lib/localStorage/wishlist.service.ts:70-74 | true exactly when some item is for that external id and type |
| WishlistService.WishlistStore.GetById | src/lib/localStorage/wishlist.service.ts:62-64 | null exactly when no item has the id; otherwise the first item with it |
| WishlistService.WishlistStore.FilterByType | src/lib/localStorage/wishlist.service.ts:66-68 | exactly the items of the type, each as often as stored, kept in the order of `list()`: latest first, and items sharing a time in stored order |
| WishlistService.WishlistStore.Add | src/lib/localStorage/wishlist.service.ts:21-42 | a media already wished for: the first item for it is returned and nothing changes; otherwise one item with the priority (default 0) is appended; the media is wished for afterwards and pairs stay unique |
| WishlistService.WishlistStore.Remove | src/lib/localStorage/wishlist.service.ts:44-50 | false exactly when no item has the id, with nothing changed; otherwise every item with the id is removed; pairs stay unique |
| WishlistService.WishlistStore.RemoveByMedia | src/lib/localStorage/wishlist.service.ts:52-60 | exactly the items for the media are removed, the answer says whether there was one, and afterwards the media is not wished for |
| UseJournal.ReplaceOne | src/hooks/useJournal.ts:42 | with distinct ids, replacing by id replaces exactly one entry |
| UseJournal.ReplaceInCopy | src/hooks/useJournal.ts:40-44 | the copy's replace-by-id and the store's update give lists with the same entries |
| UseJournal.JournalHook.constructor | src/hooks/useJournal.ts:16-18 | on mount the copy is the store's `list()` |
| UseJournal.JournalHook.Load | src/hooks/useJournal.ts:9-14 | the copy becomes the store's `list()`, and loading ends |
| UseJournal.JournalHook.AddEntry | src/hooks/useJournal.ts:20-36 | the new entry is appended to the store and put in front of the copy; with a new id the copy stays in sync |
| UseJournal.JournalHook.UpdateEntry | src/hooks/useJournal.ts:38-47 | when the store returns null, neither list changes; otherwise the store's answer replaces the entries with the id in the copy, and the copy stays in sync |
| UseJournal.JournalHook.DeleteEntry | src/hooks/useJournal.ts:49-55 | only on success is the id removed, from both lists; the copy stays in sync |
| UseWishlist.PrependAsWritten | src/hooks/useWishlist.ts:22 | the copy update as written: the store's answer is always put in front |
| UseWishlist.AddItemAsWrittenDuplicates | src/hooks/useWishlist.ts:20-24 | for a media already wished for, the copy as written shows its item once more than the store holds it |
| UseWishlist.PrependNew | src/hooks/useWishlist.ts:22 | the corrected update: the answer is put in front only when the copy has no item with its id |
| UseWishlist.PrependNewKeepsSync | src/hooks/useWishlist.ts:20-24 | with the corrected update the copy stays in sync, whether the item was already stored or just appended |
| UseWishlist.WishlistHook.constructor | src/hooks/useWishlist.ts:16-18 | on mount the copy is the store's `list()` |
| UseWishlist.WishlistHook.Load | src/hooks/useWishlist.ts:9-14 | the copy becomes the store's `list()`, and loading ends |
| UseWishlist.WishlistHook.AddItem | src/hooks/useWishlist.ts:20-24 | the store's add, then the copy update as written, the answer always put in front; a media new to the store keeps the copy in sync, and one already wished for leaves the copy out of sync; stored pairs stay unique |
| UseWishlist.WishlistHook.RemoveItem | src/hooks/useWishlist.ts:26-32 | only on success is the id filtered out of the copy; the store's removal as in `remove`; the copy stays in sync |
| UseWishlist.WishlistHook.RemoveByMedia | src/hooks/useWishlist.ts:34-44 | only on success are the media's items filtered out of the copy; the copy stays in sync |
| LogMediaModal.RatingValuesExact | src/features/journal/components/LogMediaModal.tsx:103 | the rating buttons are the whole numbers 1 to 10, in order |
| LogMediaModal.ParsedTagsClean | src/features/journal/components/LogMediaModal.tsx:31-34 | every parsed tag is non-empty, has no white space at either end and holds no comma |
| LogMediaModal.ParsedTagsFromPieces | src/features/journal/components/LogMediaModal.tsx:31-34 | at most one tag more than there are commas, and a tag is parsed exactly when some piece trims to it |
| LogMediaModal.NoTagsInEmptyField | src/features/journal/components/LogMediaModal.tsx:31-34 | an empty field gives no tags |
| LogMediaModal.ParseJoinedTags | src/features/journal/components/LogMediaModal.tsx:31-34 | clean tags written back with commas parse to the same tags, in the same order |
| LogMediaModal.ToggleRating | src/features/journal/components/LogMediaModal.tsx:107 | clicking the selected rating clears it; any other value selects that value |
| LogMediaModal.ToggleRatingFacts | src/features/journal/components/LogMediaModal.tsx:103-107 | clicking an offered button keeps the rating valid, and two clicks on one button clear the rating unless it was selected before |
| LogMediaModal.LogForm.constructor | src/features/journal/components/LogMediaModal.tsx:21-27 | the form opens on today's date, the part of the ISO time stamp before `T`, unrated, with an empty note and tags, not a rewatch |
| LogMediaModal.LogForm.ClickRating | src/features/journal/components/LogMediaModal.tsx:107 | the rating toggles and no other field changes |
| LogMediaModal.LogForm.Submit | src/features/journal/components/LogMediaModal.tsx:29-44 | date, rating, note and rewatch flag are forwarded unchanged, and the tags are parsed and clean |

## Left out

- HTTP requests (`axios.get`) are inputs. Each adapter call receives the
  settled answer as a `Result`, and a failed request is passed on as the
  thrown value. Request parameters other than the MusicBrainz offset and
  limit, as well as headers and the API base URLs, are not modelled.
- `localStorage`, `JSON.parse` and `JSON.stringify` are left out.
  - Each store is a class whose sequence field is the stored array.
  - The constructor takes what storage holds.
  - Malformed JSON is not modelled.
- `crypto.randomUUID()` and `new Date()` are parameters: ids and ISO time
  stamps passed in. The journal's `createdAt` and `updatedAt` come from two
  separate clock reads, so they are separate parameters and are not claimed
  equal.
- JournalService.JournalStore.List and WishlistService.WishlistStore.List:
  `new Date(s).getTime()` is a parameter `timeOf` that returns an integer.
  An unparsable date gives `NaN` in JavaScript, which makes the comparator's
  answers inconsistent. That case is not modelled.
- Sorting.SortDesc: `Array.sort` is specified only as a stable sort by the
  comparator, so the model uses one stable sort. It does not model the
  engine's algorithm or an inconsistent comparator.
- MusicBrainz.Year, OpenLibrary.DetailsMedia, Rawg.DetailsMedia,
  Tmdb.NormalizeResult, Tmdb.DetailsMedia: `slice(0, 4)` of a date string
  takes four UTF-16 code units, while the model's `Take(date, 4)` takes
  four characters. The two agree unless the date holds a character outside
  the Basic Multilingual Plane, and an ISO date never does.
- Sorting.SortedUnique: `sort()` without a comparator orders strings by
  UTF-16 code units. The model orders them by Dafny character order, which
  agrees on the Basic Multilingual Plane only.
- Counting.CountBy: JavaScript lists integer-like object keys, such as a
  genre named "2020", before all other keys in numeric order. The model
  uses insertion order for every key.
- Counting.CountBy: the counter is a plain object literal, so a genre named
  after an `Object.prototype` member (`constructor`, `toString`,
  `valueOf`, …) first reads the inherited member, and `(acc[g] || 0) + 1`
  then yields a string rather than 1; a genre named `__proto__` is never
  stored at all. The model, and CulturalDna.TopGenres built on it, counts
  such names like any other genre.
- MediaApi.AdapterNamed: `adapters[type]` on a plain object also finds
  inherited members, so a type name such as `toString` is truthy and the
  source goes on to call `adapter.search` (or `adapter.getDetails`) and
  throws a TypeError. The model, and MediaApi.SearchByType and
  MediaApi.GetMediaDetails built on it, return `Failure(NoAdapter(name))`
  for every name other than the five media types.
- CulturalDna.AverageTenths: the average is kept as the integer
  `Math.round(10 · sum / count)`, computed exactly. Floating-point rounding
  of the division and of `/ 10` is not modelled.
- CulturalDna.Months: the French month label (`toLocaleDateString`) is an
  input function, `monthKeyOf`.
- Concurrency is not modelled.
  - `Promise.allSettled` is modelled only as the merge of outcomes that
    have already settled.
  - The missing single-flight guard in `fetchGenres` is not modelled.
  - Calls to `throttle` that overlap are not modelled.
  - React's batching of state updates and the `loadMore` closure that
    reads a stale `hasMore` are not modelled. Hook methods run one at a
    time on the current state.
- MusicBrainz.MusicBrainzAdapter.Throttle: `setTimeout` may fire late.
  The second clock reading is `now + wait + overshoot`, with the overshoot
  a parameter.
- UseSearch.SearchHook.Search: the `catch` branch that stores
  `Erreur de recherche` is not modelled. `searchAll` settles every adapter
  and never throws, so the branch cannot be taken.
- UseJournal: `importEntries` calls `journalService.importEntries`, which
  the journal service does not define. That call has no behaviour to
  model.
- These one-line hook functions are covered by the store members they
  call:
  - `useJournal`'s `filterByType`, `filterByTag` and `getAllTags`;
  - `useWishlist`'s `isInWishlist` and `filterByType`.
- JournalService.Apply: the update record carries the fields an update may
  set. The id, owner and media are excluded by the update's type. A stray
  `updatedAt` in the update would be overwritten anyway. Fields spread as
  `undefined` are treated as absent.
- UseJournal.JournalHook.AddEntry keeps the copy in sync only when the new
  id is fresh. `randomUUID` is not
  modelled, so freshness is an assumption in the contract.
- Rendering, the modal's input handlers and `onClose`, routing, toasts,
  authentication and the other pages and components are left out. They
  hold no logic beyond storing typed values.
- The MusicBrainz `.sort` also reorders the response's tag array in place.
  The model does not return the reordered array, because nothing reads it
  afterwards.

## Findings

| source | as written | input that shows it | evidently intended | confidence | as-written member | corrected member |
|---|---|---|---|---|---|---|
| src/hooks/useCulturalDna.ts:77-79 | the month counters are in the order months are first seen; the journal arrives newest first, and `slice(-12)` keeps the last twelve counters, which are the oldest months | a journal listed newest first with entries in thirteen different months: the month of the newest entry is not shown | the latest twelve months, as the comment `Last 12 months` says; the comment fixes no order, and the corrected member puts them oldest first | not executed; medium | CulturalDna.LastMonths, CulturalDna.LastMonthsDropsFirstListed | CulturalDna.RecentMonths, CulturalDna.RecentMonthsKeepsFirstListed |
| src/hooks/useWishlist.ts:20-24 | `addItem` prepends whatever `wishlistService.add` returns, and for a media already wished for that is the item the store already holds, unchanged | a copy in sync with a store holding item X; calling `addItem` for X's media makes the copy show X twice while the store holds it once | show the item only when it was newly added, so the copy keeps the store's items | not executed; high | UseWishlist.WishlistHook.AddItem, UseWishlist.PrependAsWritten, UseWishlist.AddItemAsWrittenDuplicates | UseWishlist.PrependNew, UseWishlist.PrependNewKeepsSync |
