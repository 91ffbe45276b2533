/** The multi-select filter (components/filter-select.tsx). Only the `Zone`
    kind is wired to the store; for every other kind a selection change
    still bumps the store's `needsSearch` but leaves the filters alone. */
module FilterSelect {
  import opened Types
  import opened Where
  import opened Store

  /** The filter map after a `Zone` selection: a non-empty selection is
      stored as a membership filter, an empty one deletes the key. */
  function ZoneEdited(filters: FilterMap, selection: seq<string>): FilterMap {
    if |selection| > 0 then With(filters, Zone, InFilter(Zone, selection))
    else Without(filters, Zone)
  }

  /** `onValueChange(value)` for a select of kind `kind`. */
  function OnValueChange(s: BrowseStore, kind: OptionType, selection: seq<string>): (r: BrowseStore)
    ensures r.needsSearch == s.needsSearch + 1
    ensures r.(filters := s.filters, needsSearch := s.needsSearch) == s
    ensures kind != Zone ==> r.filters == s.filters
    ensures kind == Zone && |selection| > 0 ==> Zone in r.filters && r.filters[Zone] == InFilter(Zone, selection)
    ensures kind == Zone && |selection| == 0 ==> Zone !in r.filters
    ensures AgreeExcept(r.filters, s.filters, Zone)
  {
    var afterFilters := if kind == Zone then SetFilters(s, Updater(prev => ZoneEdited(prev, selection))) else s;
    ForceSearch(afterFilters)
  }

  /** No membership filter with an empty list is ever stored. */
  predicate NoEmptyMembership(m: FilterMap) {
    forall k :: k in m && m[k].InFilter? ==> |m[k].values| > 0
  }

  /** A selection change keeps both store invariants. */
  lemma ChangeKeepsInvariants(s: BrowseStore, kind: OptionType, selection: seq<string>)
    requires KeyedByKind(s.filters) && NoEmptyMembership(s.filters)
    ensures KeyedByKind(OnValueChange(s, kind, selection).filters)
    ensures NoEmptyMembership(OnValueChange(s, kind, selection).filters)
  {
    EditsKeepKeyedByKind(s.filters, Zone, InFilter(Zone, selection));
  }

  /** After a `Zone` selection the stored filters keep an item on the zone
      condition exactly when its zone is one of the selected ones, or when
      nothing is selected. */
  lemma ZoneSelectionMeaning(s: BrowseStore, selection: seq<string>, item: Item)
    ensures var m := OnValueChange(s, Zone, selection).filters;
      (Zone in m ==> (FilterKeeps(item, m[Zone]) <==> item.zone in selection))
      && (Zone !in m <==> |selection| == 0)
  {
  }
}
