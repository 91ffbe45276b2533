/** The row predicate `fetchItems` builds (lib/db.ts:98-142): one clause for
    a non-empty search text, one per effective filter, all ANDed. The clauses
    are modelled by what they admit, not by their SQL text. */
module Where {
  import opened Wrappers
  import opened Text
  import opened Types

  /** A row of the `items` table: the document and its embedding column. */
  datatype Row = Row(data: Item, embedding: seq<real>)

  /** `data->>'<field>'` for the five column kinds; `None` is SQL NULL. */
  function FieldText(item: Item, kind: OptionType): (r: Option<string>)
    ensures r.Some? ==> kind.IsColumnKind()
    ensures kind.IsColumnKind() && kind != ItemType ==> r.Some?
  {
    match kind
    case Zone => Some(item.zone)
    case Quality => Some(item.quality)
    case SlotType => Some(item.slotType)
    case ItemType => item.itemType
    case Slot => Some(item.slot)
    case _ => None
  }

  /** The numeric field a range kind constrains; `None` is SQL NULL. The two
      levels are mandatory, the damage figures exist only with `damage`. */
  function NumberAt(item: Item, kind: OptionType): (r: Option<real>)
    ensures r.Some? ==> kind.IsRangeKind()
    ensures kind.ItemLevel? || kind.RequiredLevel? ==> r.Some?
    ensures kind.Dps? || kind.Speed? ==> (r.Some? <==> item.damage.Some?)
  {
    match kind
    case ItemLevel => Some(item.itemLevel as real)
    case RequiredLevel => Some(item.requiredLevel as real)
    case Dps => if item.damage.Some? then Some(item.damage.value.damagePerSecond) else None
    case Speed => if item.damage.Some? then Some(item.damage.value.speed) else None
    case _ => None
  }

  /** One conjunct of the WHERE clause. */
  datatype Clause =
    | NameLike(text: string)
    | FieldIn(kind: OptionType, values: seq<string>)
    | Between(kind: OptionType, min: real, max: real)

  /** Whether a row satisfies a clause; a comparison with NULL is not true. */
  predicate Holds(c: Clause, item: Item) {
    match c
    case NameLike(text) => Contains(Lower(item.name), Lower(text))
    case FieldIn(kind, values) => FieldText(item, kind).Some? && FieldText(item, kind).value in values
    case Between(kind, min, max) =>
      NumberAt(item, kind).Some? && min <= NumberAt(item, kind).value <= max
  }

  /** The clause a filter contributes, if any: a membership filter with a
      non-empty list over a column kind, or a range filter over a range kind.
      Everything else (an empty list, `PrimaryStats`, a shape that does not
      match the kind) falls through the `switch` and adds nothing. */
  function ClauseOf(f: Filter): Option<Clause> {
    if f.InFilter? && |f.values| > 0 then
      if f.kind.IsColumnKind() then Some(FieldIn(f.kind, f.values)) else None
    else if f.RangeFilter? && f.kind.IsRangeKind() then
      Some(Between(f.kind, f.min, f.max))
    else None
  }

  /** The `wheres` list, in push order. */
  function Clauses(search: string, filters: seq<Filter>): seq<Clause> {
    (if search != "" then [NameLike(search)] else []) + FilterClauses(filters)
  }

  function FilterClauses(filters: seq<Filter>): seq<Clause> {
    if |filters| == 0 then []
    else
      (match ClauseOf(filters[0]) case Some(c) => [c] case None => [])
      + FilterClauses(filters[1..])
  }

  predicate AllHold(cs: seq<Clause>, item: Item) {
    forall i :: 0 <= i < |cs| ==> Holds(cs[i], item)
  }

  /** The WHERE clause of both the page query and the count query; an empty
      `wheres` list means no WHERE clause at all. */
  predicate Admits(item: Item, search: string, filters: seq<Filter>) {
    AllHold(Clauses(search, filters), item)
  }

  // ---------------------------------------------------------------------------
  // The predicate one filter at a time, read directly off kind and shape

  /** The search text keeps an item when empty, or when it occurs in the
      item's name ignoring case. */
  predicate SearchKeeps(item: Item, search: string) {
    search == "" || Contains(Lower(item.name), Lower(search))
  }

  /** What one filter demands of an item, read off its kind and shape. */
  predicate FilterKeeps(item: Item, f: Filter) {
    if f.InFilter? then
      |f.values| == 0 || !f.kind.IsColumnKind()
      || (FieldText(item, f.kind).Some? && FieldText(item, f.kind).value in f.values)
    else
      !f.kind.IsRangeKind()
      || (NumberAt(item, f.kind).Some? && f.min <= NumberAt(item, f.kind).value <= f.max)
  }

  predicate AllFiltersKeep(item: Item, filters: seq<Filter>) {
    forall i :: 0 <= i < |filters| ==> FilterKeeps(item, filters[i])
  }

  lemma AllHoldAppend(a: seq<Clause>, b: seq<Clause>, item: Item)
    ensures AllHold(a + b, item) <==> AllHold(a, item) && AllHold(b, item)
  {
    if AllHold(a, item) && AllHold(b, item) {
      forall i | 0 <= i < |a + b|
        ensures Holds((a + b)[i], item)
      {
        if i >= |a| {
          assert (a + b)[i] == b[i - |a|];
        }
      }
    }
    if AllHold(a + b, item) {
      forall i | 0 <= i < |a|
        ensures Holds(a[i], item)
      {
        assert (a + b)[i] == a[i];
      }
      forall i | 0 <= i < |b|
        ensures Holds(b[i], item)
      {
        assert (a + b)[|a| + i] == b[i];
      }
    }
  }

  /** A filter's clause holds exactly when the filter keeps the item. Both
      sides follow the same case split on kind and shape, so this is the
      bridge from the clause list to `FilterKeeps` that the folding lemmas
      use; what each kind keeps is spelled out in `LevelFilterMeaning`,
      `DamageFilterMeaning` and `MembershipFilterMeaning`. */
  lemma ClauseOfMeaning(f: Filter, item: Item)
    ensures FilterKeeps(item, f) <==> (ClauseOf(f).None? || Holds(ClauseOf(f).value, item))
  {
  }

  lemma {:induction false} FilterClausesMeaning(filters: seq<Filter>, item: Item)
    ensures AllHold(FilterClauses(filters), item) <==> AllFiltersKeep(item, filters)
    decreases |filters|
  {
    if |filters| > 0 {
      var head := match ClauseOf(filters[0]) case Some(c) => [c] case None => [];
      FilterClausesMeaning(filters[1..], item);
      AllHoldAppend(head, FilterClauses(filters[1..]), item);
      ClauseOfMeaning(filters[0], item);
      if AllFiltersKeep(item, filters[1..]) && FilterKeeps(item, filters[0]) {
        forall i | 0 <= i < |filters|
          ensures FilterKeeps(item, filters[i])
        {
          if i > 0 {
            assert filters[i] == filters[1..][i - 1];
          }
        }
      }
      if AllFiltersKeep(item, filters) {
        assert FilterKeeps(item, filters[0]);
        forall i | 0 <= i < |filters[1..]|
          ensures FilterKeeps(item, filters[1..][i])
        {
          assert filters[1..][i] == filters[i + 1];
        }
      }
    }
  }

  /** The clauses are independent conjuncts: a row matches exactly when the
      search text keeps it and every filter keeps it. */
  lemma AdmitsMeaning(item: Item, search: string, filters: seq<Filter>)
    ensures Admits(item, search, filters) <==> SearchKeeps(item, search) && AllFiltersKeep(item, filters)
  {
    var pre: seq<Clause> := if search != "" then [NameLike(search)] else [];
    AllHoldAppend(pre, FilterClauses(filters), item);
    FilterClausesMeaning(filters, item);
    if search != "" {
      assert pre[0] == NameLike(search);
    }
  }

  /** Appending a filter adds its demand and nothing else. */
  lemma ExtraFilterMeaning(item: Item, search: string, filters: seq<Filter>, f: Filter)
    ensures Admits(item, search, filters + [f]) <==> Admits(item, search, filters) && FilterKeeps(item, f)
  {
    AdmitsMeaning(item, search, filters + [f]);
    AdmitsMeaning(item, search, filters);
    assert forall i :: 0 <= i < |filters| ==> (filters + [f])[i] == filters[i];
    assert (filters + [f])[|filters|] == f;
  }

  // ---------------------------------------------------------------------------
  // Consequences

  /** With no search text and no filter, every row matches. */
  lemma NoInputAdmitsAll(item: Item)
    ensures Admits(item, "", [])
  {
  }

  /** Non-empty search text keeps exactly the items whose name contains it,
      ignoring case. */
  lemma SearchOnly(item: Item, search: string)
    requires search != ""
    ensures Admits(item, search, []) <==> Contains(Lower(item.name), Lower(search))
  {
    AdmitsMeaning(item, search, []);
  }

  /** A filter adds no clause when its list is empty, when it is a
      `PrimaryStats` filter, or when its shape does not match its kind. */
  lemma NoClauseCases(f: Filter)
    ensures f.InFilter? && |f.values| == 0 ==> ClauseOf(f).None?
    ensures f.kind == PrimaryStats ==> ClauseOf(f).None?
    ensures f.InFilter? && f.kind.IsRangeKind() ==> ClauseOf(f).None?
    ensures f.RangeFilter? && f.kind.IsInKind() ==> ClauseOf(f).None?
    ensures f.WellShaped() && f.kind != PrimaryStats && !(f.InFilter? && |f.values| == 0) ==> ClauseOf(f).Some?
  {
  }

  /** A filter that adds no clause can be inserted anywhere in the list
      without changing which rows match. */
  lemma NoClauseIsNoOp(item: Item, search: string, before: seq<Filter>, f: Filter, after: seq<Filter>)
    requires ClauseOf(f).None?
    ensures Admits(item, search, before + [f] + after) <==> Admits(item, search, before + after)
  {
    var with := before + [f] + after;
    var without := before + after;
    AdmitsMeaning(item, search, with);
    AdmitsMeaning(item, search, without);
    ClauseOfMeaning(f, item);
    if AllFiltersKeep(item, without) {
      forall i | 0 <= i < |with|
        ensures FilterKeeps(item, with[i])
      {
        if i < |before| {
          assert with[i] == without[i];
        } else if i > |before| {
          assert with[i] == without[i - 1];
        }
      }
    }
    if AllFiltersKeep(item, with) {
      forall i | 0 <= i < |without|
        ensures FilterKeeps(item, without[i])
      {
        if i < |before| {
          assert without[i] == with[i];
        } else {
          assert without[i] == with[i + 1];
        }
      }
    }
  }

  /** A level filter keeps exactly the items whose level lies in
      `[min, max]`; the levels are never missing. */
  lemma LevelFilterMeaning(item: Item, kind: OptionType, min: real, max: real)
    requires kind == ItemLevel || kind == RequiredLevel
    ensures FilterKeeps(item, RangeFilter(kind, min, max))
      <==> min <= (if kind == ItemLevel then item.itemLevel else item.requiredLevel) as real <= max
  {
  }

  /** A DPS or speed filter also drops every item without a damage record. */
  lemma DamageFilterMeaning(item: Item, kind: OptionType, min: real, max: real)
    requires kind == Dps || kind == Speed
    ensures FilterKeeps(item, RangeFilter(kind, min, max))
      <==> item.damage.Some?
           && min <= (if kind == Dps then item.damage.value.damagePerSecond else item.damage.value.speed) <= max
  {
  }

  /** An inverted range (`min > max`) is accepted and matches nothing. */
  lemma InvertedRangeMatchesNothing(item: Item, search: string, filters: seq<Filter>, i: int)
    requires 0 <= i < |filters|
    requires filters[i].RangeFilter? && filters[i].kind.IsRangeKind() && filters[i].min > filters[i].max
    ensures !Admits(item, search, filters)
  {
    AdmitsMeaning(item, search, filters);
    assert !FilterKeeps(item, filters[i]);
  }

  /** A column filter with a non-empty list keeps exactly the items whose
      field is one of the listed values; an item without `itemType` never
      passes an `ItemType` filter. */
  lemma MembershipFilterMeaning(item: Item, kind: OptionType, values: seq<string>)
    requires kind.IsColumnKind() && |values| > 0
    ensures FilterKeeps(item, InFilter(kind, values))
      <==> FieldText(item, kind).Some? && FieldText(item, kind).value in values
    ensures kind == ItemType && item.itemType.None? ==> !FilterKeeps(item, InFilter(kind, values))
  {
  }
}
