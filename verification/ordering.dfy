/** The ORDER BY of the page query (lib/db.ts:144-151): distance to the query
    embedding first when one is given, then `data->>'name'`, then
    `data->>'itemLevel'` — the latter compared as text, since `->>` yields
    text. Distance is computed by a function the caller supplies. */
module Ordering {
  import opened Wrappers
  import opened Text
  import opened Types
  import opened Where

  /** The pgvector `<->` operator: (row embedding, query embedding) -> distance. */
  type Distance = (seq<real>, seq<real>) -> real

  /** The sort key of a row. Without an embedding every row has distance 0,
      so the name and level keys decide alone. */
  datatype SortKey = SortKey(distance: real, name: string, level: string)

  function KeyOf(row: Row, embeddings: Option<seq<real>>, distance: Distance): SortKey {
    SortKey(
      if embeddings.Some? then distance(row.embedding, embeddings.value) else 0.0,
      row.data.name,
      IntToDecimal(row.data.itemLevel))
  }

  /** Lexicographic order on keys. */
  predicate KeyLe(a: SortKey, b: SortKey) {
    a.distance < b.distance
    || (a.distance == b.distance
        && (StrLt(a.name, b.name) || (a.name == b.name && StrLe(a.level, b.level))))
  }

  lemma KeyLeTotal(a: SortKey, b: SortKey)
    ensures KeyLe(a, b) || KeyLe(b, a)
  {
    StrLtTrichotomy(a.name, b.name);
    StrLeTotal(a.level, b.level);
  }

  lemma KeyLeTransitive(a: SortKey, b: SortKey, c: SortKey)
    requires KeyLe(a, b) && KeyLe(b, c)
    ensures KeyLe(a, c)
  {
    if a.distance == b.distance == c.distance {
      if StrLt(a.name, b.name) && StrLt(b.name, c.name) {
        StrLeTransitive(a.name, b.name, c.name);
        if a.name == c.name {
          StrLeAntisymmetric(a.name, b.name);
        }
      } else if a.name == b.name && b.name == c.name {
        StrLeTransitive(a.level, b.level, c.level);
      }
    }
  }

  /** Rows in non-decreasing key order. */
  predicate Sorted(rows: seq<Row>, embeddings: Option<seq<real>>, distance: Distance) {
    forall i, j :: 0 <= i < j < |rows| ==>
      KeyLe(KeyOf(rows[i], embeddings, distance), KeyOf(rows[j], embeddings, distance))
  }

  /** Inserts `x` before the first row that does not sort before it. */
  function Insert(x: Row, rows: seq<Row>, embeddings: Option<seq<real>>, distance: Distance): (r: seq<Row>)
    ensures |r| == |rows| + 1
  {
    if |rows| == 0 then [x]
    else if KeyLe(KeyOf(x, embeddings, distance), KeyOf(rows[0], embeddings, distance)) then [x] + rows
    else [rows[0]] + Insert(x, rows[1..], embeddings, distance)
  }

  /** Insertion adds `x` and loses nothing. */
  lemma {:induction false} InsertMultiset(x: Row, rows: seq<Row>, embeddings: Option<seq<real>>, distance: Distance)
    ensures multiset(Insert(x, rows, embeddings, distance)) == multiset(rows) + multiset{x}
    decreases |rows|
  {
    if |rows| > 0 && !KeyLe(KeyOf(x, embeddings, distance), KeyOf(rows[0], embeddings, distance)) {
      InsertMultiset(x, rows[1..], embeddings, distance);
      assert rows == [rows[0]] + rows[1..];
    }
  }

  /** Inserting into sorted rows keeps them sorted. */
  lemma {:induction false} InsertSorted(x: Row, rows: seq<Row>, embeddings: Option<seq<real>>, distance: Distance)
    requires Sorted(rows, embeddings, distance)
    ensures Sorted(Insert(x, rows, embeddings, distance), embeddings, distance)
    decreases |rows|
  {
    if |rows| > 0 {
      if KeyLe(KeyOf(x, embeddings, distance), KeyOf(rows[0], embeddings, distance)) {
        PrependSorted(x, rows, embeddings, distance);
      } else {
        SortedTail(rows, embeddings, distance);
        InsertSorted(x, rows[1..], embeddings, distance);
        KeyLeTotal(KeyOf(x, embeddings, distance), KeyOf(rows[0], embeddings, distance));
        HeadBelowInsert(x, rows, embeddings, distance);
        PrependSorted(rows[0], Insert(x, rows[1..], embeddings, distance), embeddings, distance);
      }
    }
  }

  lemma SortedTail(rows: seq<Row>, embeddings: Option<seq<real>>, distance: Distance)
    requires |rows| > 0 && Sorted(rows, embeddings, distance)
    ensures Sorted(rows[1..], embeddings, distance)
  {
    forall i, j | 0 <= i < j < |rows[1..]|
      ensures KeyLe(KeyOf(rows[1..][i], embeddings, distance), KeyOf(rows[1..][j], embeddings, distance))
    {
      assert rows[1..][i] == rows[i + 1] && rows[1..][j] == rows[j + 1];
    }
  }

  /** A row whose key is at most the first key of sorted rows can go in
      front of them. */
  lemma PrependSorted(x: Row, rows: seq<Row>, embeddings: Option<seq<real>>, distance: Distance)
    requires Sorted(rows, embeddings, distance)
    requires |rows| > 0 ==> KeyLe(KeyOf(x, embeddings, distance), KeyOf(rows[0], embeddings, distance))
    ensures Sorted([x] + rows, embeddings, distance)
  {
    var r := [x] + rows;
    forall i, j | 0 <= i < j < |r|
      ensures KeyLe(KeyOf(r[i], embeddings, distance), KeyOf(r[j], embeddings, distance))
    {
      assert r[j] == rows[j - 1];
      if i > 0 {
        assert r[i] == rows[i - 1];
      } else if j > 1 {
        KeyLeTransitive(KeyOf(x, embeddings, distance), KeyOf(rows[0], embeddings, distance), KeyOf(r[j], embeddings, distance));
      }
    }
  }

  /** When `x` goes after the head, the head still sorts first. */
  lemma HeadBelowInsert(x: Row, rows: seq<Row>, embeddings: Option<seq<real>>, distance: Distance)
    requires |rows| > 0 && Sorted(rows, embeddings, distance)
    requires KeyLe(KeyOf(rows[0], embeddings, distance), KeyOf(x, embeddings, distance))
    ensures var rest := Insert(x, rows[1..], embeddings, distance);
      |rest| > 0 ==> KeyLe(KeyOf(rows[0], embeddings, distance), KeyOf(rest[0], embeddings, distance))
  {
    var rest := Insert(x, rows[1..], embeddings, distance);
    InsertMultiset(x, rows[1..], embeddings, distance);
    if |rest| > 0 {
      assert rest[0] in multiset(rest);
      if rest[0] != x {
        assert rest[0] in multiset(rows[1..]);
        var m :| 0 <= m < |rows[1..]| && rows[1..][m] == rest[0];
        assert rows[m + 1] == rest[0];
      }
    }
  }

  /** Insertion sort by key. SQL leaves the order of rows with equal keys
      unspecified; this model fixes one such order. */
  function SortRows(rows: seq<Row>, embeddings: Option<seq<real>>, distance: Distance): (r: seq<Row>)
    ensures |r| == |rows|
    ensures multiset(r) == multiset(rows)
    ensures Sorted(r, embeddings, distance)
  {
    if |rows| == 0 then []
    else
      assert rows == [rows[0]] + rows[1..];
      var rest := SortRows(rows[1..], embeddings, distance);
      InsertSorted(rows[0], rest, embeddings, distance);
      InsertMultiset(rows[0], rest, embeddings, distance);
      Insert(rows[0], rest, embeddings, distance)
  }

  /** Without a query embedding the distance function is never called, so
      the sort does not depend on it. */
  lemma {:induction false} SortRowsIgnoresDistance(rows: seq<Row>, d1: Distance, d2: Distance)
    ensures SortRows(rows, None, d1) == SortRows(rows, None, d2)
    decreases |rows|
  {
    if |rows| > 0 {
      SortRowsIgnoresDistance(rows[1..], d1, d2);
      InsertIgnoresDistance(rows[0], SortRows(rows[1..], None, d1), d1, d2);
    }
  }

  lemma {:induction false} InsertIgnoresDistance(x: Row, rows: seq<Row>, d1: Distance, d2: Distance)
    ensures Insert(x, rows, None, d1) == Insert(x, rows, None, d2)
    decreases |rows|
  {
    assert forall r: Row :: KeyOf(r, None, d1) == KeyOf(r, None, d2);
    if |rows| > 0 {
      InsertIgnoresDistance(x, rows[1..], d1, d2);
    }
  }

  /** Without an embedding the page is in name order, ties broken by the
      item level compared as text; with one, distance comes first and
      name, then item level as text, break ties. */
  lemma SortedMeaning(rows: seq<Row>, embeddings: Option<seq<real>>, distance: Distance, i: int, j: int)
    requires Sorted(rows, embeddings, distance)
    requires 0 <= i < j < |rows|
    ensures embeddings.Some? ==>
      distance(rows[i].embedding, embeddings.value) <= distance(rows[j].embedding, embeddings.value)
    ensures (embeddings.None? || distance(rows[i].embedding, embeddings.value) == distance(rows[j].embedding, embeddings.value))
      ==> StrLe(rows[i].data.name, rows[j].data.name)
    ensures (embeddings.None? || distance(rows[i].embedding, embeddings.value) == distance(rows[j].embedding, embeddings.value))
      && rows[i].data.name == rows[j].data.name
      ==> StrLe(IntToDecimal(rows[i].data.itemLevel), IntToDecimal(rows[j].data.itemLevel))
  {
    assert KeyLe(KeyOf(rows[i], embeddings, distance), KeyOf(rows[j], embeddings, distance));
    StrLeReflexive(rows[i].data.name);
  }

  /** Item level sorts as text: of two items named alike, level 10 comes
      before level 9, since "10" < "9". */
  lemma ItemLevelSortsAsText(a: Row, b: Row, embeddings: Option<seq<real>>, distance: Distance)
    requires a.data.name == b.data.name && a.data.itemLevel == 10 && b.data.itemLevel == 9
    requires embeddings.None?
    ensures KeyLe(KeyOf(a, embeddings, distance), KeyOf(b, embeddings, distance))
    ensures !KeyLe(KeyOf(b, embeddings, distance), KeyOf(a, embeddings, distance))
  {
    assert IntToDecimal(10) == "10";
    assert IntToDecimal(9) == "9";
    StrLeReflexive(a.data.name);
  }
}
