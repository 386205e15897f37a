/** The wishlist store (src/lib/localStorage/wishlist.service.ts). The array
    kept under the `nexus_wishlist` key is the `items` field. A media item is
    wished for at most once: items are told apart by the external id and
    the type of their media. Item ids, clock readings and the conversion
    of an `addedAt` date to a time are parameters. */
module WishlistService {
  import opened Wrappers
  import opened Media
  import opened Sorting

  /** The default priority of `add(media, priority = 0)`. */
  const DEFAULT_PRIORITY: int := 0

  /** How the store tells media apart: external id and type. */
  function PairOf(item: WishlistItem): (string, MediaType) {
    (item.media.externalId, item.media.mediaType)
  }

  /** `item.media.externalId === externalId && item.media.type === type`. */
  function Matches(externalId: string, typeName: string): WishlistItem -> bool {
    (item: WishlistItem) => SameMedia(item.media, externalId, typeName)
  }

  function Unmatched(externalId: string, typeName: string): WishlistItem -> bool {
    (item: WishlistItem) => !SameMedia(item.media, externalId, typeName)
  }

  function HasId(id: string): WishlistItem -> bool {
    (item: WishlistItem) => item.id == id
  }

  function IdIsNot(id: string): WishlistItem -> bool {
    (item: WishlistItem) => item.id != id
  }

  function OfType(typeName: string): WishlistItem -> bool {
    (item: WishlistItem) => TypeName(item.media.mediaType) == typeName
  }

  /** The sort key of `list()`: the time an item was added. */
  function AddedTime(timeOf: string -> int): WishlistItem -> int {
    (item: WishlistItem) => timeOf(item.addedAt)
  }

  /** No media is wished for twice. */
  predicate UniquePairs(items: seq<WishlistItem>) {
    Distinct(items, PairOf)
  }

  /** Matching a media item by its own id and type literal is matching its pair. */
  lemma MatchesPair(item: WishlistItem, media: NormalizedMedia)
    ensures Matches(media.externalId, TypeName(media.mediaType))(item) <==> PairOf(item) == (media.externalId, media.mediaType)
  {
    TypeNameInjective(item.media.mediaType, media.mediaType);
  }

  /** `items.filter(keep)` with its length compared to the original: the
      items kept, and whether anything was dropped. */
  function Removal(items: seq<WishlistItem>, keep: WishlistItem -> bool): (r: (seq<WishlistItem>, bool))
    ensures r.1 <==> exists i :: 0 <= i < |items| && !keep(items[i])
    ensures !r.1 ==> r.0 == items
    ensures forall x :: x in r.0 <==> x in items && keep(x)
    ensures forall x :: multiset(r.0)[x] == if keep(x) then multiset(items)[x] else 0
    ensures Subsequence(r.0, items)
  {
    var kept := Filter(items, keep);
    FilterLength(items, keep);
    FilterCountAll(items, keep);
    (kept, |kept| != |items|)
  }

  /** Removing items never makes a media wished for twice. */
  lemma RemovalKeepsUnique(items: seq<WishlistItem>, keep: WishlistItem -> bool)
    requires UniquePairs(items)
    ensures UniquePairs(Removal(items, keep).0)
  {
    FilterDistinct(items, keep, PairOf);
  }

  /** Removing from two lists holding the same items leaves lists holding the same items. */
  lemma RemovalSameElements(a: seq<WishlistItem>, b: seq<WishlistItem>, keep: WishlistItem -> bool)
    requires multiset(a) == multiset(b)
    ensures multiset(Removal(a, keep).0) == multiset(Removal(b, keep).0)
  {
    FilterSameElements(a, b, keep);
  }

  /** An item added for a media that is not wished for yet keeps the pairs unique. */
  lemma AppendNewPair(items: seq<WishlistItem>, item: WishlistItem)
    requires UniquePairs(items)
    requires forall j :: 0 <= j < |items| ==> PairOf(items[j]) != PairOf(item)
    ensures UniquePairs(items + [item])
  {
  }

  class WishlistStore {
    /** The stored items, in insertion order. */
    var items: seq<WishlistItem>

    ghost predicate Valid()
      reads this
    {
      UniquePairs(items)
    }

    /** The store over whatever the storage key holds. */
    constructor (stored: seq<WishlistItem>)
      ensures items == stored
    {
      items := stored;
    }

    /** `list()`: the items by the time they were added, latest first, with
        items added at the same time in stored order. */
    function List(timeOf: string -> int): (r: seq<WishlistItem>)
      reads this
      ensures multiset(r) == multiset(items)
      ensures SortedDesc(r, AddedTime(timeOf))
      ensures forall k :: WithKey(r, AddedTime(timeOf), k) == WithKey(items, AddedTime(timeOf), k)
    {
      SortDescSorted(items, AddedTime(timeOf));
      SortDescStableAll(items, AddedTime(timeOf));
      SortDesc(items, AddedTime(timeOf))
    }

    /** `isInWishlist(externalId, type)`: some item is for that media. */
    function IsInWishlist(externalId: string, typeName: string): (r: bool)
      reads this
      ensures r <==> exists i :: 0 <= i < |items| && SameMedia(items[i].media, externalId, typeName)
    {
      FindFirst(items, Matches(externalId, typeName)).Some?
    }

    /** `getById(id)`: the first item with the id, or null. */
    function GetById(id: string): (r: Option<WishlistItem>)
      reads this
      ensures r.None? <==> forall i :: 0 <= i < |items| ==> items[i].id != id
      ensures r.Some? ==> exists i :: (0 <= i < |items| && items[i] == r.value
                                        && r.value.id == id && forall j :: 0 <= j < i ==> items[j].id != id)
    {
      match FindFirst(items, HasId(id))
      case None => None
      case Some(i) => Some(items[i])
    }

    /** `filterByType(type)`: the items of that type, latest first. */
    function FilterByType(typeName: string, timeOf: string -> int): (r: seq<WishlistItem>)
      reads this
      ensures forall x :: multiset(r)[x] == if TypeName(x.media.mediaType) == typeName then multiset(items)[x] else 0
      ensures forall x :: x in r <==> x in items && TypeName(x.media.mediaType) == typeName
      ensures SortedDesc(r, AddedTime(timeOf))
      ensures Subsequence(r, List(timeOf))
      ensures forall k :: WithKey(r, AddedTime(timeOf), k)
                       == Filter(WithKey(items, AddedTime(timeOf), k), OfType(typeName))
    {
      var sorted := List(timeOf);
      FilterCountAll(sorted, OfType(typeName));
      FilterSorted(sorted, OfType(typeName), AddedTime(timeOf));
      FilterWithKeyAll(sorted, OfType(typeName), AddedTime(timeOf));
      Filter(sorted, OfType(typeName))
    }

    /** `add(media, priority)`: when the media is already wished for, the
        first item for it is returned and nothing changes; otherwise one new
        item with the priority (0 when none is given) is appended. Either
        way the media is wished for afterwards and no media is wished for
        twice. */
    method Add(media: NormalizedMedia, priority: Option<int>, id: string, addedAt: string)
      returns (item: WishlistItem)
      modifies this
      ensures IsInWishlist(media.externalId, TypeName(media.mediaType))
      ensures old(IsInWishlist(media.externalId, TypeName(media.mediaType))) ==>
        items == old(items) && SameMedia(item.media, media.externalId, TypeName(media.mediaType))
        && exists k :: (0 <= k < |items| && items[k] == item
                         && forall j :: 0 <= j < k ==> !SameMedia(items[j].media, media.externalId, TypeName(media.mediaType)))
      ensures !old(IsInWishlist(media.externalId, TypeName(media.mediaType))) ==>
        item == WishlistItem(id, LOCAL_USER, media, priority.GetOr(DEFAULT_PRIORITY), addedAt)
        && items == old(items) + [item]
      ensures old(Valid()) ==> Valid()
    {
      var found := FindFirst(items, Matches(media.externalId, TypeName(media.mediaType)));
      if found.Some? {
        item := items[found.value];
        return;
      }
      item := WishlistItem(id, LOCAL_USER, media, priority.GetOr(DEFAULT_PRIORITY), addedAt);
      forall j | 0 <= j < |items| ensures PairOf(items[j]) != PairOf(item) {
        MatchesPair(items[j], media);
      }
      if Valid() {
        AppendNewPair(items, item);
      }
      items := items + [item];
      assert Matches(media.externalId, TypeName(media.mediaType))(items[|items| - 1]);
    }

    /** `remove(id)`: false, with nothing changed, when no item has the id;
        otherwise every item with the id is removed. */
    method Remove(id: string) returns (removed: bool)
      modifies this
      ensures removed <==> exists i :: 0 <= i < |old(items)| && old(items)[i].id == id
      ensures items == Removal(old(items), IdIsNot(id)).0
      ensures old(Valid()) ==> Valid()
    {
      var r := Removal(items, IdIsNot(id));
      if Valid() {
        RemovalKeepsUnique(items, IdIsNot(id));
      }
      if !r.1 {
        return false;
      }
      items := r.0;
      removed := true;
    }

    /** `removeByMedia(externalId, type)`: every item for that media is
        removed, and the answer says whether there was one. Afterwards the
        media is not wished for. */
    method RemoveByMedia(externalId: string, typeName: string) returns (removed: bool)
      modifies this
      ensures removed <==> exists i :: 0 <= i < |old(items)| && SameMedia(old(items)[i].media, externalId, typeName)
      ensures items == Removal(old(items), Unmatched(externalId, typeName)).0
      ensures forall i :: 0 <= i < |items| ==> !SameMedia(items[i].media, externalId, typeName)
      ensures old(Valid()) ==> Valid()
    {
      var r := Removal(items, Unmatched(externalId, typeName));
      if Valid() {
        RemovalKeepsUnique(items, Unmatched(externalId, typeName));
      }
      if !r.1 {
        return false;
      }
      items := r.0;
      removed := true;
    }
  }
}
