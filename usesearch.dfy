/** The search state hook (src/hooks/useSearch.ts): one list of results and
    one "more pages" flag per media type, a loading flag and an error
    message. React state is modelled as the fields of an object that the
    two callbacks update. */
module UseSearch {
  import opened Wrappers
  import opened Text
  import opened Media
  import MediaApi

  /** The initial and cleared state of the result lists. */
  function EmptyResults(): (r: map<MediaType, seq<NormalizedMedia>>)
    ensures forall t :: t in r && r[t] == []
  {
    AllTypesExact();
    map t | t in ALL_TYPES :: []
  }

  function NoMore(): (r: map<MediaType, bool>)
    ensures forall t :: t in r && !r[t]
  {
    AllTypesExact();
    map t | t in ALL_TYPES :: false
  }

  /** What the adapter of `t` settles with when asked for page 1 of the query. */
  function Page(search: (MediaApi.Source, string, int) -> Result<PaginatedResult, Exception>,
                t: MediaType, query: string): Result<PaginatedResult, Exception> {
    search(MediaApi.AdapterFor(t), query, 1)
  }

  class SearchHook {
    var loading: bool
    var error: Option<string>
    var results: map<MediaType, seq<NormalizedMedia>>
    var hasMore: map<MediaType, bool>

    /** Both records have an entry for every media type. */
    ghost predicate Valid()
      reads this
    {
      forall t :: t in results && t in hasMore
    }

    constructor ()
      ensures Valid()
      ensures !loading && error == None
      ensures results == EmptyResults() && hasMore == NoMore()
    {
      loading := false;
      error := None;
      results := EmptyResults();
      hasMore := NoMore();
    }

    /** `search(query)`. A blank query clears the lists and touches nothing
        else (the flags keep their values). Otherwise every type gets the
        page its adapter settled with, a failed type an empty list and no
        more pages; the error is cleared and loading ends. `searchAll`
        settles every adapter, so its `catch` branch is never taken. */
    method Search(query: string, search: (MediaApi.Source, string, int) -> Result<PaginatedResult, Exception>)
      requires Valid()
      modifies this
      ensures Valid()
      ensures Trim(query) == "" ==>
        results == EmptyResults() && hasMore == old(hasMore)
        && loading == old(loading) && error == old(error)
      ensures Trim(query) != "" ==>
        !loading && error == None
        && (forall t :: Page(search, t, query).Success? ==>
              results[t] == Page(search, t, query).value.results && hasMore[t] == Page(search, t, query).value.hasMore)
        && (forall t :: Page(search, t, query).Failure? ==> results[t] == [] && !hasMore[t])
    {
      if Trim(query) == "" {
        results := EmptyResults();
        return;
      }
      loading := true;
      error := None;
      var all := MediaApi.SearchAll(query, search);
      AllTypesExact();
      results := map t | t in ALL_TYPES :: all[t].results;
      hasMore := map t | t in ALL_TYPES :: all[t].hasMore;
      loading := false;
    }

    /** `loadMore(type, query, page)`: nothing happens when the type has no
        more pages (no request is made) or when `searchByType(type, query,
        page)` fails; otherwise the new page, which the type's own adapter
        returned for that query and page, is appended to that type's list
        and its flag replaced, and the other types are left alone. */
    method LoadMore(t: MediaType, query: string, page: int,
                    search: (MediaApi.Source, string, int) -> Result<PaginatedResult, Exception>)
      requires Valid()
      modifies this
      ensures Valid()
      ensures loading == old(loading) && error == old(error)
      ensures var outcome := MediaApi.SearchByType(TypeName(t), query, page, search);
        (!old(hasMore[t]) || outcome.Failure? ==> results == old(results) && hasMore == old(hasMore))
        && (old(hasMore[t]) && outcome.Success? ==>
              results == old(results)[t := old(results[t]) + outcome.value.results]
              && hasMore == old(hasMore)[t := outcome.value.hasMore])
      ensures MediaApi.SearchByType(TypeName(t), query, page, search) == search(MediaApi.AdapterFor(t), query, page)
      ensures old(results[t]) <= results[t]
      ensures forall u :: u != t ==> results[u] == old(results[u]) && hasMore[u] == old(hasMore[u])
    {
      if !hasMore[t] {
        return;
      }
      var outcome := MediaApi.SearchByType(TypeName(t), query, page, search);
      match outcome {
        case Failure(_) =>
        case Success(more) =>
          results := results[t := results[t] + more.results];
          hasMore := hasMore[t := more.hasMore];
      }
    }
  }
}
