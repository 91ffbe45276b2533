/** The browse store (app/store.ts): the page's shared state, its plain
    field setters, `setFilters` and `forceSearch`. The store is a value and
    each action returns the next value. */
module Store {
  import opened Types

  /** `{ [key in OptionType]?: Filter }`: at most one filter per kind. */
  type FilterMap = map<OptionType, Filter>

  /** Every stored filter sits under its own kind. */
  predicate KeyedByKind(m: FilterMap) {
    forall k :: k in m ==> m[k].kind == k
  }

  /** `a` and `b` hold the same keys and values, except perhaps at `k`. */
  predicate AgreeExcept(a: FilterMap, b: FilterMap, k: OptionType) {
    forall j :: j != k ==> (j in a <==> j in b) && (j in a ==> a[j] == b[j])
  }

  /** `{ ...prev }` then `delete newFilters[k]`. */
  function Without(m: FilterMap, k: OptionType): (r: FilterMap)
    ensures k !in r
    ensures AgreeExcept(r, m, k)
    ensures |r| == if k in m then |m| - 1 else |m|
  {
    m - {k}
  }

  /** `{ ...prev, [k]: f }`. */
  function With(m: FilterMap, k: OptionType, f: Filter): (r: FilterMap)
    ensures k in r && r[k] == f
    ensures AgreeExcept(r, m, k)
    ensures |r| == if k in m then |m| else |m| + 1
  {
    m[k := f]
  }

  /** Deleting a key, or storing a filter under its own kind, keeps the map
      keyed by kind. */
  lemma EditsKeepKeyedByKind(m: FilterMap, k: OptionType, f: Filter)
    requires KeyedByKind(m)
    ensures KeyedByKind(Without(m, k))
    ensures f.kind == k ==> KeyedByKind(With(m, k, f))
  {
  }

  /** The state shared by the page, the filter widgets and the table. */
  datatype BrowseStore = BrowseStore(
    loading: bool,
    searchQuery: string,
    currentPage: int,
    items: seq<Item>,
    advancedSearch: bool,
    totalCount: int,
    totalPages: int,
    needsSearch: int,
    filters: FilterMap)

  /** The state the store is created with. */
  const Initial: BrowseStore :=
    BrowseStore(false, "", 1, [], false, 0, 0, 0, map[])

  /** The initial state shows no search, the first page, nothing loaded and
      no filter, and it satisfies the key invariant. */
  lemma InitialState()
    ensures Initial.searchQuery == "" && Initial.currentPage == 1 && Initial.items == []
    ensures Initial.totalCount == 0 && Initial.totalPages == 0
    ensures !Initial.loading && !Initial.advancedSearch && Initial.needsSearch == 0
    ensures |Initial.filters| == 0 && KeyedByKind(Initial.filters)
  {
  }

  // ---------------------------------------------------------------------------
  // Plain setters: each replaces its own field and nothing else

  function SetLoading(s: BrowseStore, loading: bool): (r: BrowseStore)
    ensures r.loading == loading && r.(loading := s.loading) == s
  {
    s.(loading := loading)
  }

  function SetSearchQuery(s: BrowseStore, searchQuery: string): (r: BrowseStore)
    ensures r.searchQuery == searchQuery && r.(searchQuery := s.searchQuery) == s
  {
    s.(searchQuery := searchQuery)
  }

  function SetCurrentPage(s: BrowseStore, currentPage: int): (r: BrowseStore)
    ensures r.currentPage == currentPage && r.(currentPage := s.currentPage) == s
  {
    s.(currentPage := currentPage)
  }

  function SetItems(s: BrowseStore, items: seq<Item>): (r: BrowseStore)
    ensures r.items == items && r.(items := s.items) == s
  {
    s.(items := items)
  }

  function SetTotalCount(s: BrowseStore, totalCount: int): (r: BrowseStore)
    ensures r.totalCount == totalCount && r.(totalCount := s.totalCount) == s
  {
    s.(totalCount := totalCount)
  }

  function SetTotalPages(s: BrowseStore, totalPages: int): (r: BrowseStore)
    ensures r.totalPages == totalPages && r.(totalPages := s.totalPages) == s
  {
    s.(totalPages := totalPages)
  }

  function SetAdvancedSearch(s: BrowseStore, advancedSearch: bool): (r: BrowseStore)
    ensures r.advancedSearch == advancedSearch && r.(advancedSearch := s.advancedSearch) == s
  {
    s.(advancedSearch := advancedSearch)
  }

  /** One call of a plain setter, with its argument. */
  datatype Write =
    | Loading(loading: bool)
    | SearchQuery(searchQuery: string)
    | CurrentPage(currentPage: int)
    | Items(items: seq<Item>)
    | TotalCount(totalCount: int)
    | TotalPages(totalPages: int)
    | AdvancedSearch(advancedSearch: bool)
  {
    /** Which field the setter writes. */
    function Field(): nat {
      match this
      case Loading(_) => 0
      case SearchQuery(_) => 1
      case CurrentPage(_) => 2
      case Items(_) => 3
      case TotalCount(_) => 4
      case TotalPages(_) => 5
      case AdvancedSearch(_) => 6
    }
  }

  /** Calls the setter a write names. */
  function Apply(s: BrowseStore, w: Write): BrowseStore {
    match w
    case Loading(v) => SetLoading(s, v)
    case SearchQuery(v) => SetSearchQuery(s, v)
    case CurrentPage(v) => SetCurrentPage(s, v)
    case Items(v) => SetItems(s, v)
    case TotalCount(v) => SetTotalCount(s, v)
    case TotalPages(v) => SetTotalPages(s, v)
    case AdvancedSearch(v) => SetAdvancedSearch(s, v)
  }

  /** The write of the field `w` names, with the value `s` holds there. */
  function Current(s: BrowseStore, w: Write): (c: Write)
    ensures c.Field() == w.Field()
  {
    match w
    case Loading(_) => Loading(s.loading)
    case SearchQuery(_) => SearchQuery(s.searchQuery)
    case CurrentPage(_) => CurrentPage(s.currentPage)
    case Items(_) => Items(s.items)
    case TotalCount(_) => TotalCount(s.totalCount)
    case TotalPages(_) => TotalPages(s.totalPages)
    case AdvancedSearch(_) => AdvancedSearch(s.advancedSearch)
  }

  /** For every pair of plain setters: setters of different fields commute,
      the last write to a field wins, and writing a field's current value
      changes nothing. */
  lemma SetterLaws(s: BrowseStore, a: Write, b: Write)
    ensures a.Field() != b.Field() ==> Apply(Apply(s, a), b) == Apply(Apply(s, b), a)
    ensures a.Field() == b.Field() ==> Apply(Apply(s, a), b) == Apply(s, b)
    ensures Apply(s, Current(s, a)) == s
  {
  }

  // ---------------------------------------------------------------------------
  // Filters and the search counter

  /** The argument of `setFilters`: a whole map, or an updater applied to
      the current one. */
  datatype FiltersArg = Value(m: FilterMap) | Updater(f: FilterMap -> FilterMap)

  function SetFilters(s: BrowseStore, arg: FiltersArg): (r: BrowseStore)
    ensures r.(filters := s.filters) == s
    ensures arg.Value? ==> r.filters == arg.m
    ensures arg.Updater? ==> r.filters == arg.f(s.filters)
  {
    s.(filters := match arg case Value(m) => m case Updater(f) => f(s.filters))
  }

  /** An updater that ignores its argument is the same as passing its value,
      and the identity updater changes nothing. */
  lemma SetFiltersForms(s: BrowseStore, m: FilterMap)
    ensures SetFilters(s, Updater(_ => m)) == SetFilters(s, Value(m))
    ensures SetFilters(s, Updater(prev => prev)) == s
  {
  }

  /** `forceSearch()`: bumps the store's `needsSearch`. The page
      (app/page.tsx) re-runs its fetch on a counter of its own, so this
      counter is not what triggers a search. */
  function ForceSearch(s: BrowseStore): (r: BrowseStore)
    ensures r.needsSearch == s.needsSearch + 1
    ensures r.(needsSearch := s.needsSearch) == s
  {
    s.(needsSearch := s.needsSearch + 1)
  }

  /** Repeated `forceSearch` calls count up one by one and touch nothing
      else. */
  function ForceSearchTimes(s: BrowseStore, n: nat): (r: BrowseStore)
    decreases n
  {
    if n == 0 then s else ForceSearch(ForceSearchTimes(s, n - 1))
  }

  lemma {:induction false} ForceSearchCounts(s: BrowseStore, n: nat)
    ensures ForceSearchTimes(s, n).needsSearch == s.needsSearch + n
    ensures ForceSearchTimes(s, n).(needsSearch := s.needsSearch) == s
    decreases n
  {
    if n > 0 {
      ForceSearchCounts(s, n - 1);
    }
  }
}
