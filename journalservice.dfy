/** The journal store (src/lib/localStorage/journal.service.ts). The array
    kept under the `nexus_journal` key is the `entries` field; each call
    reads it, changes it and writes it back, which here is one update of
    the field. Entry ids and clock readings are parameters, and so is the
    conversion of a `consumedAt` date to a time (`Date.getTime`). */
module JournalService {
  import opened Wrappers
  import opened Media
  import opened Sorting

  /** The sort key of `list()`: the consumption time of an entry. */
  function ConsumedTime(timeOf: string -> int): JournalEntry -> int {
    (e: JournalEntry) => timeOf(e.consumedAt)
  }

  function EntryId(e: JournalEntry): string {
    e.id
  }

  function HasId(id: string): JournalEntry -> bool {
    (e: JournalEntry) => e.id == id
  }

  function IdIsNot(id: string): JournalEntry -> bool {
    (e: JournalEntry) => e.id != id
  }

  function OfType(typeName: string): JournalEntry -> bool {
    (e: JournalEntry) => TypeName(e.media.mediaType) == typeName
  }

  function Tagged(tag: string): JournalEntry -> bool {
    (e: JournalEntry) => tag in e.tags
  }

  /** The store keeps each id at most once. */
  predicate UniqueIds(entries: seq<JournalEntry>) {
    Distinct(entries, EntryId)
  }

  /** The entry a new log produces: the media snapshot and the user's data,
      owned by the local user, with the two clock readings. */
  function NewEntry(media: NormalizedMedia, data: EntryData, id: string, createdAt: string, updatedAt: string): (e: JournalEntry)
    ensures e.id == id && e.userId == LOCAL_USER && e.media == media
    ensures EntryData(e.consumedAt, e.rating, e.note, e.tags, e.isRewatch) == data
    ensures e.createdAt == createdAt && e.updatedAt == updatedAt
  {
    JournalEntry(id, LOCAL_USER, media, data.consumedAt, data.rating, data.note, data.tags, data.isRewatch, createdAt, updatedAt)
  }

  /** The fields an update may carry; a missing field is left as it is.
      `rating` is `Some(None)` when the update clears the rating. */
  datatype EntryUpdate = EntryUpdate(
    consumedAt: Option<string>,
    rating: Option<Option<int>>,
    note: Option<string>,
    tags: Option<seq<string>>,
    isRewatch: Option<bool>,
    createdAt: Option<string>)

  /** `{ ...entry, ...updates, updatedAt: now }`. */
  function Apply(e: JournalEntry, u: EntryUpdate, now: string): JournalEntry {
    JournalEntry(
      e.id, e.userId, e.media,
      u.consumedAt.GetOr(e.consumedAt), u.rating.GetOr(e.rating), u.note.GetOr(e.note),
      u.tags.GetOr(e.tags), u.isRewatch.GetOr(e.isRewatch), u.createdAt.GetOr(e.createdAt),
      now)
  }

  /** An update never touches the id, the owner or the media; it stamps the
      time; a field it carries replaces the entry's, any other is kept; and
      applying it again to its own result changes nothing more. */
  lemma ApplyFacts(e: JournalEntry, u: EntryUpdate, now: string)
    ensures var r := Apply(e, u, now);
      r.id == e.id && r.userId == e.userId && r.media == e.media && r.updatedAt == now
      && (u.consumedAt.Some? ==> r.consumedAt == u.consumedAt.value)
      && (u.consumedAt.None? ==> r.consumedAt == e.consumedAt)
      && (u.rating.Some? ==> r.rating == u.rating.value)
      && (u.rating.None? ==> r.rating == e.rating)
      && (u.note.Some? ==> r.note == u.note.value)
      && (u.note.None? ==> r.note == e.note)
      && (u.tags.Some? ==> r.tags == u.tags.value)
      && (u.tags.None? ==> r.tags == e.tags)
      && (u.isRewatch.Some? ==> r.isRewatch == u.isRewatch.value)
      && (u.isRewatch.None? ==> r.isRewatch == e.isRewatch)
      && (u.createdAt.Some? ==> r.createdAt == u.createdAt.value)
      && (u.createdAt.None? ==> r.createdAt == e.createdAt)
    ensures Apply(Apply(e, u, now), u, now) == Apply(e, u, now)
  {
  }

  /** An empty update only refreshes the time stamp. */
  lemma ApplyNothing(e: JournalEntry, now: string)
    ensures Apply(e, EntryUpdate(None, None, None, None, None, None), now) == e.(updatedAt := now)
  {
  }

  /** The update of an entry keeps its rating valid when the new rating is. */
  lemma ApplyKeepsRatingValid(e: JournalEntry, u: EntryUpdate, now: string)
    requires ValidRating(e.rating)
    requires u.rating.Some? ==> ValidRating(u.rating.value)
    ensures ValidRating(Apply(e, u, now).rating)
  {
  }

  /** `entries.filter((e) => e.id !== id)`: every entry but those with the
      id, each as often as before, in the stored order. */
  function WithoutId(entries: seq<JournalEntry>, id: string): (r: seq<JournalEntry>)
    ensures forall e :: multiset(r)[e] == if e.id != id then multiset(entries)[e] else 0
    ensures forall e :: e in r <==> e in entries && e.id != id
    ensures Subsequence(r, entries)
  {
    FilterCountAll(entries, IdIsNot(id));
    Filter(entries, IdIsNot(id))
  }

  /** Removing an id shortens the list exactly when some entry has it, and
      leaves distinct ids distinct. */
  lemma WithoutIdFacts(entries: seq<JournalEntry>, id: string)
    ensures |WithoutId(entries, id)| == |entries| <==> forall i :: 0 <= i < |entries| ==> entries[i].id != id
    ensures |WithoutId(entries, id)| == |entries| ==> WithoutId(entries, id) == entries
    ensures UniqueIds(entries) ==> UniqueIds(WithoutId(entries, id))
  {
    FilterLength(entries, IdIsNot(id));
    if UniqueIds(entries) {
      FilterDistinct(entries, IdIsNot(id), EntryId);
    }
  }

  /** All tags of all entries, entry by entry (`flatMap`). */
  function AllTags(entries: seq<JournalEntry>): (r: seq<string>)
    ensures forall t :: t in r <==> exists i :: 0 <= i < |entries| && t in entries[i].tags
  {
    if entries == [] then []
    else
      var rest := AllTags(entries[1..]);
      assert forall i :: 1 <= i < |entries| ==> entries[i] == entries[1..][i - 1];
      entries[0].tags + rest
  }

  /** Replacing the entry at `i` by a new one with the same id keeps the ids. */
  lemma ReplaceKeepsIds(entries: seq<JournalEntry>, i: nat, e: JournalEntry)
    requires i < |entries| && e.id == entries[i].id
    ensures UniqueIds(entries) ==> UniqueIds(entries[i := e])
    ensures forall j :: 0 <= j < |entries| ==> entries[i := e][j].id == entries[j].id
  {
  }

  /** Adding an entry whose id is new keeps the ids distinct. */
  lemma AppendFreshId(entries: seq<JournalEntry>, e: JournalEntry)
    requires UniqueIds(entries)
    requires forall j :: 0 <= j < |entries| ==> entries[j].id != e.id
    ensures UniqueIds(entries + [e])
  {
  }

  class JournalStore {
    /** The stored entries, in insertion order. */
    var entries: seq<JournalEntry>

    /** The store over whatever the storage key holds (`[]` when it is empty). */
    constructor (stored: seq<JournalEntry>)
      ensures entries == stored
    {
      entries := stored;
    }

    /** `list()`: the entries by consumption time, latest first. The sort is
        stable, so entries consumed at the same time keep their stored order. */
    function List(timeOf: string -> int): (r: seq<JournalEntry>)
      reads this
      ensures multiset(r) == multiset(entries)
      ensures SortedDesc(r, ConsumedTime(timeOf))
      ensures forall k :: WithKey(r, ConsumedTime(timeOf), k) == WithKey(entries, ConsumedTime(timeOf), k)
    {
      SortDescSorted(entries, ConsumedTime(timeOf));
      SortDescStableAll(entries, ConsumedTime(timeOf));
      SortDesc(entries, ConsumedTime(timeOf))
    }

    /** `getById(id)`: the first entry with the id, or null. */
    function GetById(id: string): (r: Option<JournalEntry>)
      reads this
      ensures r.None? <==> forall i :: 0 <= i < |entries| ==> entries[i].id != id
      ensures r.Some? ==> exists i :: (0 <= i < |entries| && entries[i] == r.value
                                        && r.value.id == id && forall j :: 0 <= j < i ==> entries[j].id != id)
    {
      match FindFirst(entries, HasId(id))
      case None => None
      case Some(i) => Some(entries[i])
    }

    /** `filterByType(type)`: the entries of that type, latest first. */
    function FilterByType(typeName: string, timeOf: string -> int): (r: seq<JournalEntry>)
      reads this
      ensures forall e :: multiset(r)[e] == if TypeName(e.media.mediaType) == typeName then multiset(entries)[e] else 0
      ensures forall e :: e in r <==> e in entries && TypeName(e.media.mediaType) == typeName
      ensures SortedDesc(r, ConsumedTime(timeOf))
      ensures Subsequence(r, List(timeOf))
      ensures forall k :: WithKey(r, ConsumedTime(timeOf), k)
                       == Filter(WithKey(entries, ConsumedTime(timeOf), k), OfType(typeName))
    {
      var sorted := List(timeOf);
      FilterCountAll(sorted, OfType(typeName));
      FilterSorted(sorted, OfType(typeName), ConsumedTime(timeOf));
      FilterWithKeyAll(sorted, OfType(typeName), ConsumedTime(timeOf));
      Filter(sorted, OfType(typeName))
    }

    /** `filterByTag(tag)`: the entries carrying the tag, latest first. */
    function FilterByTag(tag: string, timeOf: string -> int): (r: seq<JournalEntry>)
      reads this
      ensures forall e :: multiset(r)[e] == if tag in e.tags then multiset(entries)[e] else 0
      ensures forall e :: e in r <==> e in entries && tag in e.tags
      ensures SortedDesc(r, ConsumedTime(timeOf))
      ensures Subsequence(r, List(timeOf))
      ensures forall k :: WithKey(r, ConsumedTime(timeOf), k)
                       == Filter(WithKey(entries, ConsumedTime(timeOf), k), Tagged(tag))
    {
      var sorted := List(timeOf);
      FilterCountAll(sorted, Tagged(tag));
      FilterSorted(sorted, Tagged(tag), ConsumedTime(timeOf));
      FilterWithKeyAll(sorted, Tagged(tag), ConsumedTime(timeOf));
      Filter(sorted, Tagged(tag))
    }

    /** `getAllTags()`: every tag used by some entry, once each, in ascending order. */
    function GetAllTags(): (r: seq<string>)
      reads this
      ensures StrictlyAscending(r)
      ensures forall t :: t in r <==> exists i :: 0 <= i < |entries| && t in entries[i].tags
      ensures forall i, j :: 0 <= i < j < |r| ==> r[i] != r[j]
    {
      var tags := SortedUnique(AllTags(entries));
      forall i, j | 0 <= i < j < |tags| ensures tags[i] != tags[j] {
        AscendingDistinct(tags, i, j);
      }
      tags
    }

    /** `add(media, data)`: exactly one entry is appended, built from the
        media and the data; the entries already stored are kept. */
    method Add(media: NormalizedMedia, data: EntryData, id: string, createdAt: string, updatedAt: string)
      returns (e: JournalEntry)
      modifies this
      ensures e == NewEntry(media, data, id, createdAt, updatedAt)
      ensures entries == old(entries) + [e]
    {
      e := NewEntry(media, data, id, createdAt, updatedAt);
      entries := entries + [e];
    }

    /** `update(id, updates)`: an unknown id gives null and changes nothing;
        otherwise the first entry with the id is merged with the update and
        stamped, and no other entry changes. */
    method Update(id: string, u: EntryUpdate, now: string) returns (r: Option<JournalEntry>)
      modifies this
      ensures (forall i :: 0 <= i < |old(entries)| ==> old(entries)[i].id != id) ==> r == None && entries == old(entries)
      ensures r.Some? ==> exists i :: (0 <= i < |old(entries)| && old(entries)[i].id == id
                                        && (forall j :: 0 <= j < i ==> old(entries)[j].id != id)
                                        && r.value == Apply(old(entries)[i], u, now)
                                        && entries == old(entries)[i := r.value])
      ensures (exists i :: 0 <= i < |old(entries)| && old(entries)[i].id == id) ==> r.Some?
    {
      var index := FindFirst(entries, HasId(id));
      if index.None? {
        return None;
      }
      var i := index.value;
      var updated := Apply(entries[i], u, now);
      entries := entries[i := updated];
      r := Some(updated);
    }

    /** `delete(id)`: false, with nothing changed, when no entry has the id;
        otherwise every entry with the id is removed. */
    method Delete(id: string) returns (deleted: bool)
      modifies this
      ensures deleted <==> exists i :: 0 <= i < |old(entries)| && old(entries)[i].id == id
      ensures !deleted ==> entries == old(entries)
      ensures deleted ==> entries == WithoutId(old(entries), id)
    {
      var filtered := WithoutId(entries, id);
      WithoutIdFacts(entries, id);
      if |filtered| == |entries| {
        return false;
      }
      entries := filtered;
      deleted := true;
    }
  }
}
