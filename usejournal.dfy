/** The journal hook (src/hooks/useJournal.ts): an in-memory copy of the
    journal that every change is applied to twice, once through the store
    and once to the copy. React's state is the `entries` field of an
    object holding the store it talks to. */
module UseJournal {
  import opened Wrappers
  import opened Media
  import opened Sorting
  import opened JournalService

  /** `(e) => (e.id === id ? updated : e)`. */
  function ReplaceWithId(id: string, updated: JournalEntry): JournalEntry -> JournalEntry {
    (e: JournalEntry) => if e.id == id then updated else e
  }

  /** In a list whose ids are distinct, replacing by id replaces the one
      entry at `i` that has the id. */
  lemma ReplaceOne(s: seq<JournalEntry>, i: nat, updated: JournalEntry)
    requires UniqueIds(s) && i < |s|
    ensures MapSeq(s, ReplaceWithId(s[i].id, updated)) == s[i := updated]
  {
    var r := MapSeq(s, ReplaceWithId(s[i].id, updated));
    forall j | 0 <= j < |s| ensures r[j] == s[i := updated][j] {
      MapSeqAt(s, ReplaceWithId(s[i].id, updated), j);
      if j != i {
        assert EntryId(s[j]) != EntryId(s[i]) by {
          if j < i {
            assert EntryId(s[j]) != EntryId(s[i]);
          }
        }
      }
    }
  }

  /** Replacing by id in copies holding the same entries as the store, when
      the store's ids are distinct, gives what the store's own update gives. */
  lemma ReplaceInCopy(view: seq<JournalEntry>, stored: seq<JournalEntry>, i: nat, updated: JournalEntry)
    requires UniqueIds(stored) && i < |stored|
    requires multiset(view) == multiset(stored)
    ensures multiset(MapSeq(view, ReplaceWithId(stored[i].id, updated))) == multiset(stored[i := updated])
  {
    MapSameElements(view, stored, ReplaceWithId(stored[i].id, updated));
    ReplaceOne(stored, i, updated);
  }

  class JournalHook {
    const store: JournalStore
    /** The entries shown, latest loaded first. */
    var entries: seq<JournalEntry>
    var loading: bool

    /** The copy holds exactly the stored entries, in some order. */
    ghost predicate Synced()
      reads this, store
    {
      multiset(entries) == multiset(store.entries)
    }

    /** The copy is in sync with a store whose ids are distinct. */
    ghost predicate Valid()
      reads this, store
    {
      Synced() && UniqueIds(store.entries)
    }

    /** Mounting the hook: the state starts empty and the mount effect loads it. */
    constructor (store: JournalStore, timeOf: string -> int)
      ensures this.store == store
      ensures entries == store.List(timeOf) && !loading
      ensures Synced()
    {
      this.store := store;
      entries := store.List(timeOf);
      loading := false;
    }

    /** `loadEntries()`: the copy becomes the store's `list()`. */
    method Load(timeOf: string -> int)
      modifies this
      ensures entries == store.List(timeOf) && !loading
      ensures Synced()
    {
      loading := true;
      entries := store.List(timeOf);
      loading := false;
    }

    /** `addEntry(media, data)`: the stored entry is put at the front of the
        copy. With an id new to the store, the copy stays in sync. */
    method AddEntry(media: NormalizedMedia, data: EntryData, id: string, createdAt: string, updatedAt: string)
      returns (e: JournalEntry)
      modifies this, store
      ensures e == NewEntry(media, data, id, createdAt, updatedAt)
      ensures store.entries == old(store.entries) + [e]
      ensures entries == [e] + old(entries)
      ensures loading == old(loading)
      ensures old(Synced()) ==> Synced()
      ensures old(Valid()) && (forall j :: 0 <= j < |old(store.entries)| ==> old(store.entries)[j].id != id) ==> Valid()
    {
      ghost var before := store.entries;
      e := store.Add(media, data, id, createdAt, updatedAt);
      entries := [e] + entries;
      if UniqueIds(before) && forall j :: 0 <= j < |before| ==> before[j].id != id {
        AppendFreshId(before, e);
      }
    }

    /** `updateEntry(id, updates)`: when the store found the id, its answer
        replaces every entry of the copy with that id; otherwise neither
        changes. */
    method UpdateEntry(id: string, u: EntryUpdate, now: string) returns (r: Option<JournalEntry>)
      modifies this, store
      ensures r.None? ==> entries == old(entries) && store.entries == old(store.entries)
      ensures r.None? <==> forall i :: 0 <= i < |old(store.entries)| ==> old(store.entries)[i].id != id
      ensures r.Some? ==> r.value.id == id && entries == MapSeq(old(entries), ReplaceWithId(id, r.value))
      ensures r.Some? ==> exists i :: (0 <= i < |old(store.entries)| && old(store.entries)[i].id == id
                                        && r.value == Apply(old(store.entries)[i], u, now)
                                        && store.entries == old(store.entries)[i := r.value])
      ensures loading == old(loading)
      ensures old(Valid()) ==> Valid()
    {
      ghost var before, view, wasValid := store.entries, entries, Valid();
      r := store.Update(id, u, now);
      if r.Some? {
        ghost var i :| 0 <= i < |before| && before[i].id == id
                      && r.value == Apply(before[i], u, now) && store.entries == before[i := r.value];
        ApplyFacts(before[i], u, now);
        entries := MapSeq(entries, ReplaceWithId(id, r.value));
        if wasValid {
          ReplaceInCopy(view, before, i, r.value);
          ReplaceKeepsIds(before, i, r.value);
          assert multiset(entries) == multiset(store.entries);
        }
      }
    }

    /** `deleteEntry(id)`: when the store removed the id, the copy drops it
        too; otherwise neither changes. */
    method DeleteEntry(id: string) returns (success: bool)
      modifies this, store
      ensures success <==> exists i :: 0 <= i < |old(store.entries)| && old(store.entries)[i].id == id
      ensures success ==> entries == WithoutId(old(entries), id) && store.entries == WithoutId(old(store.entries), id)
      ensures !success ==> entries == old(entries) && store.entries == old(store.entries)
      ensures loading == old(loading)
      ensures old(Valid()) ==> Valid()
    {
      ghost var before, view, wasValid := store.entries, entries, Valid();
      success := store.Delete(id);
      if success {
        entries := WithoutId(entries, id);
        if wasValid {
          FilterSameElements(view, before, IdIsNot(id));
          WithoutIdFacts(before, id);
          assert multiset(entries) == multiset(store.entries);
        }
      }
    }
  }
}
