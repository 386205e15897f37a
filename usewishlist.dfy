/** The wishlist hook (src/hooks/useWishlist.ts): an in-memory copy of the
    wishlist kept next to the store, changed after each store call. React's
    state is the `items` field of an object holding the store it talks to. */
module UseWishlist {
  import opened Wrappers
  import opened Media
  import opened Sorting
  import opened WishlistService

  /** `setItems((prev) => [newItem, ...prev])` as `addItem` is written: the
      store's answer is put in front whether or not it was just added. */
  function PrependAsWritten(view: seq<WishlistItem>, item: WishlistItem): (r: seq<WishlistItem>)
    ensures |r| == |view| + 1 && r[0] == item && r[1..] == view
  {
    [item] + view
  }

  /** When the media was already wished for, the store hands back the item
      it holds and changes nothing, so the copy written this way shows that
      item once more than the store holds it. */
  lemma AddItemAsWrittenDuplicates(view: seq<WishlistItem>, stored: seq<WishlistItem>, item: WishlistItem)
    requires multiset(view) == multiset(stored)
    requires item in stored
    ensures multiset(PrependAsWritten(view, item))[item] == multiset(stored)[item] + 1
    ensures multiset(PrependAsWritten(view, item)) != multiset(stored)
  {
    assert multiset(PrependAsWritten(view, item)) == multiset{item} + multiset(view);
  }

  /** The copy's update `addItem` evidently intends: the store's answer is
      put in front only when the copy does not show an item with its id. */
  function PrependNew(view: seq<WishlistItem>, item: WishlistItem): (r: seq<WishlistItem>)
    ensures (exists i :: 0 <= i < |view| && view[i].id == item.id) ==> r == view
    ensures (forall i :: 0 <= i < |view| ==> view[i].id != item.id) ==> r == [item] + view
  {
    if FindFirst(view, HasId(item.id)).Some? then view else [item] + view
  }

  /** With the corrected update the copy stays in sync with the store: an
      item the store already held is not shown twice, and an item it just
      appended with a new id is shown once. */
  lemma PrependNewKeepsSync(view: seq<WishlistItem>, stored: seq<WishlistItem>, item: WishlistItem)
    requires multiset(view) == multiset(stored)
    ensures item in stored ==> multiset(PrependNew(view, item)) == multiset(stored)
    ensures (forall j :: 0 <= j < |stored| ==> stored[j].id != item.id) ==>
      multiset(PrependNew(view, item)) == multiset(stored + [item])
  {
    if item in stored {
      assert item in multiset(view);
      var i :| 0 <= i < |view| && view[i] == item;
      assert view[i].id == item.id;
    }
    if forall j :: 0 <= j < |stored| ==> stored[j].id != item.id {
      forall i | 0 <= i < |view| ensures view[i].id != item.id {
        assert view[i] in multiset(stored);
      }
    }
  }

  class WishlistHook {
    const store: WishlistStore
    /** The items shown, latest loaded first. */
    var items: seq<WishlistItem>
    var loading: bool

    /** The copy holds exactly the stored items, in some order. */
    ghost predicate Synced()
      reads this, store
    {
      multiset(items) == multiset(store.items)
    }

    /** Mounting the hook: the state starts empty and the mount effect loads it. */
    constructor (store: WishlistStore, timeOf: string -> int)
      ensures this.store == store
      ensures items == store.List(timeOf) && !loading
      ensures Synced()
    {
      this.store := store;
      items := store.List(timeOf);
      loading := false;
    }

    /** `loadItems()`: the copy becomes the store's `list()`. */
    method Load(timeOf: string -> int)
      modifies this
      ensures items == store.List(timeOf) && !loading
      ensures Synced()
    {
      loading := true;
      items := store.List(timeOf);
      loading := false;
    }

    /** `addItem(media, priority)`: the store adds the media unless it is
        already wished for, and the copy puts the store's answer in front
        either way. A media new to the store keeps the copy in sync; one
        already wished for leaves the copy showing its item once too often. */
    method AddItem(media: NormalizedMedia, priority: Option<int>, id: string, addedAt: string)
      returns (item: WishlistItem)
      modifies this, store
      ensures old(store.IsInWishlist(media.externalId, TypeName(media.mediaType))) ==>
        store.items == old(store.items) && item in store.items
        && SameMedia(item.media, media.externalId, TypeName(media.mediaType))
      ensures !old(store.IsInWishlist(media.externalId, TypeName(media.mediaType))) ==>
        item == WishlistItem(id, LOCAL_USER, media, priority.GetOr(DEFAULT_PRIORITY), addedAt)
        && store.items == old(store.items) + [item]
      ensures store.IsInWishlist(media.externalId, TypeName(media.mediaType))
      ensures items == [item] + old(items)
      ensures loading == old(loading)
      ensures old(Synced()) && !old(store.IsInWishlist(media.externalId, TypeName(media.mediaType))) ==> Synced()
      ensures old(Synced()) && old(store.IsInWishlist(media.externalId, TypeName(media.mediaType))) ==> !Synced()
      ensures old(store.Valid()) ==> store.Valid()
    {
      ghost var before, view, wasSynced := store.items, items, Synced();
      ghost var known := store.IsInWishlist(media.externalId, TypeName(media.mediaType));
      item := store.Add(media, priority, id, addedAt);
      items := PrependAsWritten(items, item);
      if wasSynced {
        if known {
          AddItemAsWrittenDuplicates(view, before, item);
        } else {
          assert multiset(items) == multiset{item} + multiset(view);
          assert multiset(store.items) == multiset(before) + multiset{item};
        }
      }
    }

    /** `removeItem(id)`: when the store removed the id, the copy drops it
        too; otherwise neither changes. */
    method RemoveItem(id: string) returns (success: bool)
      modifies this, store
      ensures success <==> exists i :: 0 <= i < |old(store.items)| && old(store.items)[i].id == id
      ensures store.items == Removal(old(store.items), IdIsNot(id)).0
      ensures success ==> items == Removal(old(items), IdIsNot(id)).0
      ensures !success ==> items == old(items)
      ensures loading == old(loading)
      ensures old(Synced()) ==> Synced()
      ensures old(store.Valid()) ==> store.Valid()
    {
      ghost var before, view, wasSynced := store.items, items, Synced();
      success := store.Remove(id);
      if success {
        items := Removal(items, IdIsNot(id)).0;
        if wasSynced {
          RemovalSameElements(view, before, IdIsNot(id));
          assert multiset(items) == multiset(store.items);
        }
      }
    }

    /** `removeByMedia(externalId, type)`: when the store removed the media,
        the copy drops every item for it too; otherwise neither changes. */
    method RemoveByMedia(externalId: string, typeName: string) returns (success: bool)
      modifies this, store
      ensures success <==> exists i :: 0 <= i < |old(store.items)| && SameMedia(old(store.items)[i].media, externalId, typeName)
      ensures store.items == Removal(old(store.items), Unmatched(externalId, typeName)).0
      ensures success ==> items == Removal(old(items), Unmatched(externalId, typeName)).0
      ensures !success ==> items == old(items)
      ensures forall i :: 0 <= i < |store.items| ==> !SameMedia(store.items[i].media, externalId, typeName)
      ensures loading == old(loading)
      ensures old(Synced()) ==> Synced()
      ensures old(store.Valid()) ==> store.Valid()
    {
      ghost var before, view, wasSynced := store.items, items, Synced();
      success := store.RemoveByMedia(externalId, typeName);
      if success {
        items := Removal(items, Unmatched(externalId, typeName)).0;
        if wasSynced {
          RemovalSameElements(view, before, Unmatched(externalId, typeName));
          assert multiset(items) == multiset(store.items);
        }
      }
    }
  }
}
