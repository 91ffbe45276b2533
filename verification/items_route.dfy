/** The `POST /api/items` handler (app/api/items/route.ts): parse the page,
    fix the page size, then either run a name search (advanced mode) or an
    embedding-ordered listing (basic mode). The embedding model is the
    `embed` argument; `None` from it is the model throwing. */
module ItemsRoute {
  import opened Wrappers
  import opened Text
  import opened Types
  import opened Where
  import opened Ordering
  import opened Db

  /** Every request is served in pages of 50, whatever the body says. */
  const PageSize: int := 50

  /** The JSON body as the handler reads it. A body that is not JSON reads
      as `{}`, that is `Fields(None, None, false)`; a body that is the JSON
      value `null` makes the first field access throw. In `Fields`, `page`
      and `searchQuery` hold the text `String(…)` makes of the field, `None`
      when the field is missing or null; `advancedSearch` is whether
      `body.advancedSearch ?? false` is truthy. */
  datatype ItemsBody =
    | JsonNull
    | Fields(page: Option<string>, searchQuery: Option<string>, advancedSearch: bool)
  {
    function Query(): string
      requires Fields?
    {
      searchQuery.GetOr("")
    }
  }

  /** The feature-extraction model: the query's embedding, or `None` when
      it throws. */
  type Embedder = string -> Option<seq<real>>

  datatype Reply = Ok(data: PaginatedResponse) | Fail(status: int, message: string)

  /** `Number.parseInt(String(body.page ?? '1'), 10) || 1`: a missing,
      unparsable or zero page becomes 1; any other integer, negative ones
      included, passes through. */
  function ParsePage(field: Option<string>): (p: int)
    ensures p != 0
    ensures p == 1 || ParseInt(field.GetOr("1")) == Some(p)
  {
    match ParseInt(field.GetOr("1"))
    case None => 1
    case Some(n) => if n == 0 then 1 else n
  }

  /** The page the client sent comes back as is unless it is 0. */
  lemma ParsePageOfDecimal(n: int)
    ensures ParsePage(Some(IntToDecimal(n))) == if n == 0 then 1 else n
  {
    ParseIntOfDecimal(n);
  }

  /** A missing page is page 1. */
  lemma ParsePageMissing()
    ensures ParsePage(None) == 1
  {
    ParsePageOfDecimal(1);
    assert IntToDecimal(1) == "1";
  }

  /** A page whose text, after leading whitespace and one optional sign,
      does not start with a digit is page 1. */
  lemma ParsePageUnparsable(s: string)
    requires var t := TrimStart(s);
      var u := if |t| > 0 && (t[0] == '-' || t[0] == '+') then t[1..] else t;
      |u| == 0 || !IsDigit(u[0])
    ensures ParsePage(Some(s)) == 1
  {
  }

  /** Basic mode asks for an embedding only when the query has a character
      that is not whitespace. */
  predicate WantsEmbedding(query: string) {
    query != "" && |Trim(query)| > 0
  }

  lemma WantsEmbeddingMeaning(query: string)
    ensures WantsEmbedding(query) <==> !IsBlank(query)
  {
    TrimEmptyIffBlank(query);
  }

  /** The page bundle, or the generic 500 when anything throws. */
  function Respond(r: Result<PaginatedResponse, DbError>): Reply {
    match r
    case Success(data) => Ok(data)
    case Failure(_) => Fail(500, "Failed to fetch items")
  }

  /** `POST(request)`. Filters are never forwarded: advanced mode searches
      names with the raw query and no embedding; basic mode never searches
      names and orders by embedding distance only for a non-blank query. */
  function Post(env: Env, table: seq<Row>, distance: Distance, embed: Embedder, body: ItemsBody): (r: Reply)
    ensures r.Fail? ==> r.status == 500 && r.message == "Failed to fetch items"
    ensures body.JsonNull? || !Configured(env) ==> r.Fail?
    ensures body.Fields? && ParsePage(body.page) < 0 ==> r.Fail?
    ensures body.Fields? && Configured(env) && ParsePage(body.page) >= 1
      && (body.advancedSearch || !WantsEmbedding(body.Query()) || embed(body.Query()).Some?)
      ==> r.Ok?
    ensures r.Ok? ==> body.Fields? && r.data.pageSize == PageSize && r.data.page == ParsePage(body.page) >= 1
    ensures r.Ok? && !body.advancedSearch ==> r.data.totalCount == |table|
    ensures r.Ok? && body.advancedSearch ==> r.data.totalCount == |Select(table, body.Query(), [])|
  {
    match body
    case JsonNull => Fail(500, "Failed to fetch items")
    case Fields(pageField, _, advanced) =>
      var page := ParsePage(pageField);
      var query := body.Query();
      UnfilteredCountsAll(table);
      if advanced then
        Respond(FetchItems(env, table, page, PageSize, query, None, [], distance))
      else if WantsEmbedding(query) then
        match embed(query)
        case None => Fail(500, "Failed to fetch items")
        case Some(vector) => Respond(FetchItems(env, table, page, PageSize, "", Some(vector), [], distance))
      else
        Respond(FetchItems(env, table, page, PageSize, "", None, [], distance))
  }

  /** The page a successful reply carries is the one `fetchItems` serves:
      in advanced mode a name search for the raw query with no embedding;
      in basic mode no name search, ordered by distance to the query's
      embedding when the query is not blank, and unordered by distance
      otherwise. */
  lemma PostServesFetchedPage(env: Env, table: seq<Row>, distance: Distance, embed: Embedder, body: ItemsBody)
    requires Post(env, table, distance, embed, body).Ok?
    ensures body.Fields?
    ensures var r := Post(env, table, distance, embed, body);
      var page := ParsePage(body.page);
      var q := body.Query();
      && (body.advancedSearch ==>
            FetchItems(env, table, page, PageSize, q, None, [], distance) == Success(r.data))
      && (!body.advancedSearch && WantsEmbedding(q) ==>
            embed(q).Some? && FetchItems(env, table, page, PageSize, "", embed(q), [], distance) == Success(r.data))
      && (!body.advancedSearch && !WantsEmbedding(q) ==>
            FetchItems(env, table, page, PageSize, "", None, [], distance) == Success(r.data))
  {
  }

  /** Advanced mode keeps exactly the items whose name contains the query,
      ignoring case (every item when the query is empty). */
  lemma AdvancedSearchMatchesNames(env: Env, table: seq<Row>, distance: Distance, embed: Embedder, body: ItemsBody)
    requires body.Fields? && body.advancedSearch
    requires Post(env, table, distance, embed, body).Ok?
    ensures forall it :: it in Post(env, table, distance, embed, body).data.items ==>
      SearchKeeps(it, body.Query())
  {
    var query := body.Query();
    var r := FetchItems(env, table, ParsePage(body.page), PageSize, query, None, [], distance);
    var matching := Select(table, query, []);
    ReorderedStillAdmitted(SortRows(matching, None, distance), matching, query, []);
    forall it | it in r.value.items
      ensures SearchKeeps(it, query)
    {
      AdmitsMeaning(it, query, []);
    }
  }

  /** The embedding model is consulted only in basic mode with a non-blank
      query: otherwise the reply does not depend on it. */
  lemma EmbedderConsultedOnlyForBasicQueries(env: Env, table: seq<Row>, distance: Distance, embed1: Embedder, embed2: Embedder, body: ItemsBody)
    requires body.Fields? && (body.advancedSearch || IsBlank(body.Query()))
    ensures Post(env, table, distance, embed1, body) == Post(env, table, distance, embed2, body)
  {
    WantsEmbeddingMeaning(body.Query());
  }

  /** Advanced mode never orders by distance: the reply does not depend on
      the distance function. */
  lemma AdvancedIgnoresDistance(env: Env, table: seq<Row>, d1: Distance, d2: Distance, embed: Embedder, body: ItemsBody)
    requires body.Fields? && body.advancedSearch
    ensures Post(env, table, d1, embed, body) == Post(env, table, d2, embed, body)
  {
    FetchItemsIgnoresDistance(env, table, ParsePage(body.page), PageSize, body.Query(), [], d1, d2);
  }
}
