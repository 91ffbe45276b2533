/** The data-access layer (lib/db.ts): `fetchItems`, which selects the
    matching rows, orders them, cuts out one page and counts all matches, and
    `fetchDistinctOptions`, which post-processes the distinct values of one
    text field. The database is the `table` argument; the result of each
    DISTINCT query is passed in as the column it returns. */
module Db {
  import opened Wrappers
  import opened Text
  import opened Types
  import opened Where
  import opened Ordering

  /** The process environment; only the connection string is read. */
  datatype Env = Env(databaseUrl: Option<string>)

  /** `if (!connectionString)`: missing and empty both fail. */
  predicate Configured(env: Env) {
    env.databaseUrl.Some? && env.databaseUrl.value != ""
  }

  /** What the data-access functions throw. `NegativeOffset` is PostgreSQL
      refusing `OFFSET` below zero, which a page below 1 produces. */
  datatype DbError = MissingConnectionString | UnsupportedOptionType(kind: OptionType) | NegativeOffset

  function Min(a: int, b: int): int {
    if a <= b then a else b
  }

  function Max(a: int, b: int): int {
    if a <= b then b else a
  }

  // ---------------------------------------------------------------------------
  // Pagination arithmetic

  /** `Math.ceil(n / d)` for a row count and a positive page size: the
      fewest pages of `d` rows that hold `n` rows. */
  function CeilDiv(n: nat, d: nat): (r: nat)
    requires d > 0
    ensures r * d >= n
    ensures r > 0 ==> (r - 1) * d < n
    ensures r == 0 <==> n == 0
  {
    var q := (n + d - 1) / d;
    var m := (n + d - 1) % d;
    assert n + d - 1 == q * d + m && 0 <= m < d;
    assert q * d == n + d - 1 - m;
    assert q * d - d == n - 1 - m;
    assert (q - 1) * d == q * d - d;
    q
  }

  /** `(page - 1) * pageSize`: negative exactly when the page is below 1. */
  function Offset(page: int, pageSize: int): (r: int)
    requires pageSize > 0
    ensures r >= 0 <==> page >= 1
  {
    var r := (page - 1) * pageSize;
    if page >= 1 then
      assert (page - 1) * pageSize >= 0 * pageSize;
      r
    else
      assert (1 - page) * pageSize > 0;
      r
  }

  /** The rows `LIMIT limit OFFSET offset` keeps. */
  function Window<T>(rows: seq<T>, offset: nat, limit: nat): (r: seq<T>)
    ensures |r| == Min(limit, Max(0, |rows| - offset))
    ensures forall i :: 0 <= i < |r| ==> r[i] == rows[offset + i]
  {
    if offset >= |rows| then [] else rows[offset..Min(|rows|, offset + limit)]
  }

  // ---------------------------------------------------------------------------
  // Row selection

  /** The elements of `s` that `keep` accepts, in order. */
  function Retain<T>(s: seq<T>, keep: T -> bool): (r: seq<T>)
    ensures |r| <= |s|
    ensures forall i :: 0 <= i < |r| ==> keep(r[i])
  {
    if |s| == 0 then []
    else (if keep(s[0]) then [s[0]] else []) + Retain(s[1..], keep)
  }

  /** Each element occurs in the selection as often as in `s` when `keep`
      accepts it, and not at all otherwise. */
  lemma {:induction false} RetainMultiset<T>(s: seq<T>, keep: T -> bool, x: T)
    ensures multiset(Retain(s, keep))[x] == if keep(x) then multiset(s)[x] else 0
    decreases |s|
  {
    if |s| > 0 {
      RetainMultiset(s[1..], keep, x);
      assert s == [s[0]] + s[1..];
    }
  }

  /** A weaker test keeps at least as many elements. */
  lemma {:induction false} RetainMonotone<T>(s: seq<T>, strong: T -> bool, weak: T -> bool)
    requires forall i :: 0 <= i < |s| && strong(s[i]) ==> weak(s[i])
    ensures |Retain(s, strong)| <= |Retain(s, weak)|
    decreases |s|
  {
    if |s| > 0 {
      RetainMonotone(s[1..], strong, weak);
    }
  }

  /** Tests that agree on every element keep the same elements. */
  lemma {:induction false} RetainCongruent<T>(s: seq<T>, a: T -> bool, b: T -> bool)
    requires forall i :: 0 <= i < |s| ==> a(s[i]) == b(s[i])
    ensures Retain(s, a) == Retain(s, b)
    decreases |s|
  {
    if |s| > 0 {
      RetainCongruent(s[1..], a, b);
    }
  }

  /** Two successive selections are one selection by both tests. */
  lemma {:induction false} RetainTwice<T>(s: seq<T>, first: T -> bool, second: T -> bool, both: T -> bool)
    requires forall i :: 0 <= i < |s| ==> both(s[i]) == (first(s[i]) && second(s[i]))
    ensures Retain(Retain(s, first), second) == Retain(s, both)
    decreases |s|
  {
    if |s| > 0 {
      var x := s[0];
      var tail := Retain(s[1..], first);
      assert both(x) == (first(x) && second(x));
      assert forall i :: 0 <= i < |s[1..]| ==> s[1..][i] == s[i + 1];
      RetainTwice(s[1..], first, second, both);
      assert Retain(tail, second) == Retain(s[1..], both);
      if first(x) {
        var t := [x] + tail;
        assert Retain(s, first) == t;
        assert t[0] == x && t[1..] == tail;
        assert Retain(t, second) == (if second(x) then [x] else []) + Retain(tail, second);
      } else {
        assert Retain(s, first) == tail;
        assert Retain(s, both) == Retain(s[1..], both);
      }
    }
  }

  /** The rows the WHERE clause admits, in table order. */
  function Select(table: seq<Row>, search: string, filters: seq<Filter>): (r: seq<Row>)
    ensures forall x :: multiset(r)[x] == if Admits(x.data, search, filters) then multiset(table)[x] else 0
    ensures forall i :: 0 <= i < |r| ==> Admits(r[i].data, search, filters)
  {
    var keep := (row: Row) => Admits(row.data, search, filters);
    forall x
      ensures multiset(Retain(table, keep))[x] == if keep(x) then multiset(table)[x] else 0
    {
      RetainMultiset(table, keep, x);
    }
    Retain(table, keep)
  }

  /** The rows that carry a damage record, in table order. */
  function WithDamage(table: seq<Row>): (r: seq<Row>)
    ensures forall i :: 0 <= i < |r| ==> r[i].data.damage.Some?
    ensures forall x :: multiset(r)[x] == if x.data.damage.Some? then multiset(table)[x] else 0
  {
    var keep := (row: Row) => row.data.damage.Some?;
    forall x
      ensures multiset(Retain(table, keep))[x] == if keep(x) then multiset(table)[x] else 0
    {
      RetainMultiset(table, keep, x);
    }
    Retain(table, keep)
  }

  function Documents(rows: seq<Row>): (r: seq<Item>)
    ensures |r| == |rows| && forall i :: 0 <= i < |rows| ==> r[i] == rows[i].data
  {
    seq(|rows|, i requires 0 <= i < |rows| => rows[i].data)
  }

  /** `fetchItems(page, pageSize, searchQuery, embeddings, filters)`. The
      page size must be positive: `Math.ceil` of a division by zero is not
      an integer. */
  function FetchItems(
    env: Env, table: seq<Row>, page: int, pageSize: int, searchQuery: string,
    embeddings: Option<seq<real>>, filters: seq<Filter>, distance: Distance)
    : (r: Result<PaginatedResponse, DbError>)
    requires pageSize > 0
    ensures !Configured(env) <==> r == Failure(MissingConnectionString)
    ensures Configured(env) ==> (r.Success? <==> page >= 1)
    ensures r.Success? ==> r.value.page == page && r.value.pageSize == pageSize
    ensures r.Success? ==> r.value.totalCount == |Select(table, searchQuery, filters)|
    ensures r.Success? ==>
      r.value == PageOf(SortRows(Select(table, searchQuery, filters), embeddings, distance),
                        page, pageSize, Offset(page, pageSize), searchQuery, filters)
  {
    if !Configured(env) then Failure(MissingConnectionString)
    else
      var offset := Offset(page, pageSize);
      if offset < 0 then Failure(NegativeOffset)
      else
        var matching := Select(table, searchQuery, filters);
        var ordered := SortRows(matching, embeddings, distance);
        ReorderedStillAdmitted(ordered, matching, searchQuery, filters);
        Success(PageOf(ordered, page, pageSize, offset, searchQuery, filters))
  }

  /** The response for one page of the ordered matches, which start at row
      `offset`. */
  function PageOf(
    ordered: seq<Row>, page: int, pageSize: int, offset: nat, searchQuery: string, filters: seq<Filter>)
    : (p: PaginatedResponse)
    requires pageSize > 0
    ensures p.page == page && p.pageSize == pageSize && p.totalCount == |ordered|
    ensures |p.items| == Min(pageSize, Max(0, |ordered| - offset))
    ensures (forall i :: 0 <= i < |ordered| ==> Admits(ordered[i].data, searchQuery, filters)) ==>
      forall i :: 0 <= i < |p.items| ==> Admits(p.items[i], searchQuery, filters)
    ensures p.totalPages * pageSize >= p.totalCount
      && (p.totalPages > 0 ==> (p.totalPages - 1) * pageSize < p.totalCount)
      && (p.totalPages == 0 <==> p.totalCount == 0)
  {
    var pageRows := Window(ordered, offset, pageSize);
    PaginatedResponse(Documents(pageRows), |ordered|, page, pageSize, CeilDiv(|ordered|, pageSize))
  }

  /** Reordering admitted rows leaves them admitted. */
  lemma ReorderedStillAdmitted(ordered: seq<Row>, matching: seq<Row>, search: string, filters: seq<Filter>)
    requires multiset(ordered) == multiset(matching)
    requires forall i :: 0 <= i < |matching| ==> Admits(matching[i].data, search, filters)
    ensures forall i :: 0 <= i < |ordered| ==> Admits(ordered[i].data, search, filters)
  {
    forall i | 0 <= i < |ordered|
      ensures Admits(ordered[i].data, search, filters)
    {
      assert ordered[i] in multiset(matching);
    }
  }

  /** Without a query embedding the page does not depend on the distance
      function. */
  lemma FetchItemsIgnoresDistance(
    env: Env, table: seq<Row>, page: int, pageSize: int, searchQuery: string,
    filters: seq<Filter>, d1: Distance, d2: Distance)
    requires pageSize > 0
    ensures FetchItems(env, table, page, pageSize, searchQuery, None, filters, d1)
         == FetchItems(env, table, page, pageSize, searchQuery, None, filters, d2)
  {
    SortRowsIgnoresDistance(Select(table, searchQuery, filters), d1, d2);
  }

  /** The page is the window at `(page - 1) * pageSize` of an arrangement of
      exactly the matching rows in sort-key order. */
  lemma PageIsSortedWindow(
    env: Env, table: seq<Row>, page: int, pageSize: int, searchQuery: string,
    embeddings: Option<seq<real>>, filters: seq<Filter>, distance: Distance)
    requires pageSize > 0
    requires FetchItems(env, table, page, pageSize, searchQuery, embeddings, filters, distance).Success?
    ensures page >= 1
    ensures exists ordered: seq<Row> ::
      && multiset(ordered) == multiset(Select(table, searchQuery, filters))
      && Sorted(ordered, embeddings, distance)
      && FetchItems(env, table, page, pageSize, searchQuery, embeddings, filters, distance).value.items
         == Documents(Window(ordered, Offset(page, pageSize), pageSize))
  {
    var r := FetchItems(env, table, page, pageSize, searchQuery, embeddings, filters, distance);
    var matching := Select(table, searchQuery, filters);
    var ordered := SortRows(matching, embeddings, distance);
    var offset := Offset(page, pageSize);
    assert r.value.items == Documents(Window(ordered, offset, pageSize));
    assert multiset(ordered) == multiset(matching) && Sorted(ordered, embeddings, distance);
  }

  /** Adding a filter never raises the count; a filter that adds no clause
      leaves it unchanged. */
  lemma CountUnderExtraFilter(table: seq<Row>, search: string, filters: seq<Filter>, f: Filter)
    ensures |Select(table, search, filters + [f])| <= |Select(table, search, filters)|
    ensures ClauseOf(f).None? ==> Select(table, search, filters + [f]) == Select(table, search, filters)
  {
    var with := (row: Row) => Admits(row.data, search, filters + [f]);
    var without := (row: Row) => Admits(row.data, search, filters);
    forall i | 0 <= i < |table|
      ensures with(table[i]) == (without(table[i]) && FilterKeeps(table[i].data, f))
    {
      ExtraFilterMeaning(table[i].data, search, filters, f);
    }
    RetainMonotone(table, with, without);
    if ClauseOf(f).None? {
      forall i | 0 <= i < |table|
        ensures with(table[i]) == without(table[i])
      {
        ClauseOfMeaning(f, table[i].data);
      }
      RetainCongruent(table, with, without);
    }
  }

  /** With no search text and no filter, every row is counted. */
  lemma UnfilteredCountsAll(table: seq<Row>)
    ensures Select(table, "", []) == table
  {
    var all := (row: Row) => Admits(row.data, "", []);
    forall i | 0 <= i < |table|
      ensures all(table[i])
    {
      NoInputAdmitsAll(table[i].data);
    }
    RetainEverything(table, all);
  }

  lemma {:induction false} RetainEverything<T>(s: seq<T>, keep: T -> bool)
    requires forall i :: 0 <= i < |s| ==> keep(s[i])
    ensures Retain(s, keep) == s
    decreases |s|
  {
    if |s| > 0 {
      RetainEverything(s[1..], keep);
      assert s == [s[0]] + s[1..];
    }
  }

  /** A range filter whose bounds cover every row's value (the aggregate
      endpoints' own MIN and MAX, say) drops nothing for a level kind, but a
      DPS or speed filter still drops every row without damage. */
  lemma FullRangeFilter(table: seq<Row>, search: string, filters: seq<Filter>, kind: OptionType, min: real, max: real)
    requires kind.IsRangeKind()
    requires forall i :: 0 <= i < |table| && NumberAt(table[i].data, kind).Some? ==>
      min <= NumberAt(table[i].data, kind).value <= max
    ensures (kind == ItemLevel || kind == RequiredLevel) ==>
      Select(table, search, filters + [RangeFilter(kind, min, max)]) == Select(table, search, filters)
    ensures (kind == Dps || kind == Speed) ==>
      Select(table, search, filters + [RangeFilter(kind, min, max)])
      == Select(WithDamage(table), search, filters)
  {
    var f := RangeFilter(kind, min, max);
    var with := (row: Row) => Admits(row.data, search, filters + [f]);
    var without := (row: Row) => Admits(row.data, search, filters);
    var damaged := (row: Row) => row.data.damage.Some?;
    forall i | 0 <= i < |table|
      ensures kind == Dps || kind == Speed ==> with(table[i]) == (damaged(table[i]) && without(table[i]))
      ensures kind == ItemLevel || kind == RequiredLevel ==> with(table[i]) == without(table[i])
    {
      ExtraFilterMeaning(table[i].data, search, filters, f);
    }
    if kind == ItemLevel || kind == RequiredLevel {
      RetainCongruent(table, with, without);
    } else {
      RetainTwice(table, damaged, without, with);
      assert WithDamage(table) == Retain(table, damaged);
    }
  }

  // ---------------------------------------------------------------------------
  // Distinct options

  /** One entry of an option list: `{ label, value }` (`label` is a Dafny keyword). */
  datatype SelectOption = SelectOption(labelText: string, value: string)

  /** The DISTINCT column without its NULL and empty entries, in order. */
  function KeepNames(column: seq<Option<string>>): (r: seq<string>)
    ensures forall i :: 0 <= i < |r| ==> r[i] != ""
    ensures forall s :: s in r <==> s != "" && Some(s) in column
  {
    if |column| == 0 then []
    else
      assert column == [column[0]] + column[1..];
      (if column[0].Some? && column[0].value != "" then [column[0].value] else [])
      + KeepNames(column[1..])
  }

  /** Text values of a column in strictly increasing order, NULLs aside
      (what `SELECT DISTINCT … ORDER BY name ASC` returns). */
  predicate ColumnSorted(column: seq<Option<string>>) {
    forall i, j :: 0 <= i < j < |column| && column[i].Some? && column[j].Some? ==>
      StrLt(column[i].value, column[j].value)
  }

  predicate StrictlySorted(names: seq<string>) {
    forall i, j :: 0 <= i < j < |names| ==> StrLt(names[i], names[j])
  }

  /** Dropping entries keeps a strictly increasing column strictly
      increasing, hence free of duplicates. */
  lemma {:induction false} KeepNamesSorted(column: seq<Option<string>>)
    ensures ColumnSorted(column) ==> StrictlySorted(KeepNames(column))
    decreases |column|
  {
    if |column| > 0 && ColumnSorted(column) {
      var rest := KeepNames(column[1..]);
      assert ColumnSorted(column[1..]) by {
        forall i, j | 0 <= i < j < |column[1..]| && column[1..][i].Some? && column[1..][j].Some?
          ensures StrLt(column[1..][i].value, column[1..][j].value)
        {
          assert column[1..][i] == column[i + 1] && column[1..][j] == column[j + 1];
        }
      }
      KeepNamesSorted(column[1..]);
      if column[0].Some? && column[0].value != "" {
        var r := [column[0].value] + rest;
        forall j | 0 <= j < |rest|
          ensures StrLt(column[0].value, rest[j])
        {
          assert rest[j] in rest;
          var k :| 0 <= k < |column[1..]| && column[1..][k] == Some(rest[j]);
          assert column[k + 1] == Some(rest[j]);
        }
        forall i, j | 0 <= i < j < |r|
          ensures StrLt(r[i], r[j])
        {
          assert r[j] == rest[j - 1];
          if i > 0 {
            assert r[i] == rest[i - 1];
          }
        }
      }
    }
  }

  /** `fetchDistinctOptions(type)`: the connection is checked first, then
      only the five column kinds have a query; `column` is what that query
      returns. */
  function FetchDistinctOptions(env: Env, kind: OptionType, column: seq<Option<string>>)
    : (r: Result<seq<SelectOption>, DbError>)
    ensures !Configured(env) ==> r == Failure(MissingConnectionString)
    ensures Configured(env) && !kind.IsColumnKind() ==> r == Failure(UnsupportedOptionType(kind))
    ensures Configured(env) && kind.IsColumnKind() ==> r.Success?
    ensures r.Success? ==> forall i :: 0 <= i < |r.value| ==> r.value[i].labelText == r.value[i].value != ""
    ensures r.Success? ==> forall s ::
      (exists i :: 0 <= i < |r.value| && r.value[i].value == s) <==> s != "" && Some(s) in column
    ensures r.Success? && ColumnSorted(column) ==>
      forall i, j :: 0 <= i < j < |r.value| ==> StrLt(r.value[i].value, r.value[j].value)
  {
    if !Configured(env) then Failure(MissingConnectionString)
    else if !kind.IsColumnKind() then Failure(UnsupportedOptionType(kind))
    else
      var names := KeepNames(column);
      KeepNamesSorted(column);
      var options := seq(|names|, i requires 0 <= i < |names| => SelectOption(names[i], names[i]));
      forall s
        ensures (exists i :: 0 <= i < |options| && options[i].value == s) <==> s in names
      {
        if s in names {
          var i :| 0 <= i < |names| && names[i] == s;
          assert options[i].value == s;
        }
      }
      Success(options)
  }

  /** `column` is the DISTINCT listing of `kind` over `table`: each value of
      the field (NULL included) exactly once, text values in order. */
  ghost predicate ListsDistinct(column: seq<Option<string>>, table: seq<Row>, kind: OptionType) {
    && ColumnSorted(column)
    && (forall i, j :: 0 <= i < j < |column| ==> column[i] != column[j])
    && (forall v :: v in column <==> exists k :: 0 <= k < |table| && FieldText(table[k].data, kind) == v)
  }

  /** Against its own table, the option list holds each non-empty field value
      exactly once, in increasing order, and nothing else. */
  lemma DistinctOptionsOfTable(env: Env, kind: OptionType, column: seq<Option<string>>, table: seq<Row>)
    requires ListsDistinct(column, table, kind)
    requires FetchDistinctOptions(env, kind, column).Success?
    ensures var opts := FetchDistinctOptions(env, kind, column).value;
      && (forall s :: (exists i :: 0 <= i < |opts| && opts[i].value == s)
           <==> s != "" && exists k :: 0 <= k < |table| && FieldText(table[k].data, kind) == Some(s))
      && (forall i, j :: 0 <= i < j < |opts| ==> opts[i].value != opts[j].value)
  {
    var opts := FetchDistinctOptions(env, kind, column).value;
    forall i, j | 0 <= i < j < |opts|
      ensures opts[i].value != opts[j].value
    {
      assert StrLt(opts[i].value, opts[j].value);
    }
  }
}
