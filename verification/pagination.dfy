/** The pager (components/pagination.tsx) and the "Showing a-b of n" line
    above the table (app/page.tsx:126). */
module Pagination {
  import opened Types
  import opened Db

  predicate CanGoPrevious(currentPage: int) {
    currentPage > 1
  }

  predicate CanGoNext(currentPage: int, totalPages: int) {
    currentPage < totalPages
  }

  /** The four buttons, left to right. */
  datatype NavButton = First | Previous | Next | Last

  /** The page a button asks for. */
  function Target(b: NavButton, currentPage: int, totalPages: int): int {
    match b
    case First => 1
    case Previous => currentPage - 1
    case Next => currentPage + 1
    case Last => totalPages
  }

  /** First and Previous share one guard, Next and Last the other. */
  predicate Enabled(b: NavButton, currentPage: int, totalPages: int) {
    if b.First? || b.Previous? then CanGoPrevious(currentPage) else CanGoNext(currentPage, totalPages)
  }

  /** From a page within range, every enabled button leads to a page within
      range, and to a different page. */
  lemma EnabledTargetsInRange(b: NavButton, currentPage: int, totalPages: int)
    requires 1 <= currentPage <= totalPages
    requires Enabled(b, currentPage, totalPages)
    ensures 1 <= Target(b, currentPage, totalPages) <= totalPages
  {
  }

  lemma EnabledTargetsMove(b: NavButton, currentPage: int, totalPages: int)
    requires Enabled(b, currentPage, totalPages)
    ensures Target(b, currentPage, totalPages) != currentPage
  {
  }

  /** On the first page only Next and Last can be enabled, on the last page
      only First and Previous; a single page disables all four. */
  lemma EndsDisableTheirSide(b: NavButton, totalPages: int)
    ensures !Enabled(First, 1, totalPages) && !Enabled(Previous, 1, totalPages)
    ensures !Enabled(Next, totalPages, totalPages) && !Enabled(Last, totalPages, totalPages)
    ensures !Enabled(b, 1, 1)
  {
  }

  /** Following an enabled button and reading the guards again: Previous
      then Next is the identity, and after Last, Next is disabled. */
  lemma NavigationRoundTrip(currentPage: int, totalPages: int)
    requires Enabled(Previous, currentPage, totalPages)
    ensures var p := Target(Previous, currentPage, totalPages);
      Enabled(Next, p, totalPages) == (p < totalPages) && Target(Next, p, totalPages) == currentPage
    ensures !Enabled(Next, Target(Last, currentPage, totalPages), totalPages)
  {
  }

  /** The first and last positions in "Showing a-b of n items" for pages of
      50. */
  function ShowingRange(currentPage: int, totalCount: int): (r: (int, int))
    ensures r.0 == (currentPage - 1) * 50 + 1
    ensures r.1 <= currentPage * 50 && r.1 <= totalCount
    ensures r.1 == currentPage * 50 || r.1 == totalCount
  {
    ((currentPage - 1) * 50 + 1, Min(currentPage * 50, totalCount))
  }

  /** The label counts exactly the items the page holds: for any page the
      items request accepts, `b - a + 1`, floored at 0, is the length of
      the page of 50 served for it. */
  lemma ShowingMatchesPage(
    env: Env, table: seq<Where.Row>, page: int, searchQuery: string,
    embeddings: Wrappers.Option<seq<real>>, filters: seq<Filter>, distance: Ordering.Distance)
    requires FetchItems(env, table, page, 50, searchQuery, embeddings, filters, distance).Success?
    ensures var data := FetchItems(env, table, page, 50, searchQuery, embeddings, filters, distance).value;
      var (first, last) := ShowingRange(page, data.totalCount);
      Max(0, last - first + 1) == |data.items|
  {
    var data := FetchItems(env, table, page, 50, searchQuery, embeddings, filters, distance).value;
    OffsetOfFifty(page);
  }

  lemma OffsetOfFifty(page: int)
    ensures Offset(page, 50) == (page - 1) * 50
  {
  }
}
