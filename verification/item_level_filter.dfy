/** The item-level slider (components/item-level-filter.tsx). It differs
    from the shared range slider in that its lower end is always 0, not the
    data minimum, and only the maximum is loaded. */
module ItemLevelFilter {
  import opened Wrappers
  import opened Types
  import opened Where
  import opened Store

  /** The component's local state. */
  datatype Widget = Widget(maxItemLevel: real, minValue: real, maxValue: real, loading: bool)

  const Mounted: Widget := Widget(0.0, 0.0, 0.0, true)

  /** The mount effect: `data.max ?? 0` when the request succeeds (`None`
      when it throws), and stop loading in every case. */
  function MaxFetched(w: Widget, reply: Option<Option<real>>): (r: Widget)
    ensures !r.loading
    ensures r.minValue == w.minValue && r.maxValue == w.maxValue
    ensures r.maxItemLevel == if reply.Some? then reply.value.GetOr(0.0) else w.maxItemLevel
  {
    match reply
    case None => w.(loading := false)
    case Some(max) => w.(maxItemLevel := max.GetOr(0.0), loading := false)
  }

  /** The `ItemLevel` range filter the store holds, if any. */
  function StoredLevels(filters: FilterMap): Option<(real, real)> {
    if ItemLevel in filters && filters[ItemLevel].kind == ItemLevel && filters[ItemLevel].RangeFilter? then
      Some((filters[ItemLevel].min, filters[ItemLevel].max))
    else None
  }

  /** The init effect: once the maximum is known, the thumbs show the stored
      filter's bounds, or `[0, maxItemLevel]`. */
  function Sync(w: Widget, filters: FilterMap): (r: Widget)
    ensures r.(minValue := w.minValue, maxValue := w.maxValue) == w
    ensures w.maxItemLevel == 0.0 ==> r == w
    ensures w.maxItemLevel != 0.0 ==>
      (r.minValue, r.maxValue) == StoredLevels(filters).GetOr((0.0, w.maxItemLevel))
  {
    if w.maxItemLevel == 0.0 then w
    else
      match StoredLevels(filters)
      case Some((min, max)) => w.(minValue := min, maxValue := max)
      case None => w.(minValue := 0.0, maxValue := w.maxItemLevel)
  }

  /** The filter map after a change: `[0, maxItemLevel]` deletes the key,
      anything else stores an `ItemLevel` range filter. */
  function Edited(filters: FilterMap, maxItemLevel: real, min: real, max: real): FilterMap {
    if min == 0.0 && max == maxItemLevel then Without(filters, ItemLevel)
    else With(filters, ItemLevel, RangeFilter(ItemLevel, min, max))
  }

  /** `handleValueChange([min, max])`. */
  function HandleValueChange(w: Widget, s: BrowseStore, min: real, max: real): (r: (Widget, BrowseStore))
    ensures r.0 == w.(minValue := min, maxValue := max)
    ensures r.1.needsSearch == s.needsSearch + 1
    ensures r.1.(filters := s.filters, needsSearch := s.needsSearch) == s
    ensures min == 0.0 && max == w.maxItemLevel ==> ItemLevel !in r.1.filters
    ensures !(min == 0.0 && max == w.maxItemLevel) ==>
      ItemLevel in r.1.filters && r.1.filters[ItemLevel] == RangeFilter(ItemLevel, min, max)
    ensures AgreeExcept(r.1.filters, s.filters, ItemLevel)
  {
    var maxItemLevel := w.maxItemLevel;
    var update := Updater(prev => Edited(prev, maxItemLevel, min, max));
    (w.(minValue := min, maxValue := max), ForceSearch(SetFilters(s, update)))
  }

  predicate Visible(w: Widget) {
    !w.loading && w.maxItemLevel != 0.0
  }

  /** Hidden while loading (on mount in particular); once the request
      settles, shown exactly when the reported maximum is present and not
      0, or, when the request failed, when the previous maximum was not 0. */
  lemma HiddenUntilMaxKnown(w: Widget, reply: Option<Option<real>>)
    ensures w.loading ==> !Visible(w)
    ensures !Visible(Mounted)
    ensures reply.Some? ==>
      (Visible(MaxFetched(w, reply)) <==> reply.value.Some? && reply.value.value != 0.0)
    ensures reply.None? ==> (Visible(MaxFetched(w, reply)) <==> w.maxItemLevel != 0.0)
  {
  }

  /** Round trip: after a change, the init effect run on the new filters
      shows exactly the chosen bounds. */
  lemma ChangeThenSyncShowsChoice(w: Widget, s: BrowseStore, min: real, max: real)
    requires w.maxItemLevel != 0.0
    ensures var (w2, s2) := HandleValueChange(w, s, min, max);
      Sync(w2, s2.filters).minValue == min && Sync(w2, s2.filters).maxValue == max
  {
  }

  /** Because the default lower end is 0, a filter is stored whenever the
      lower thumb is above 0, even if every item's level is above it; and
      the stored filter keeps exactly the items with a level in the chosen
      bounds. */
  lemma StoredFilterMeaning(w: Widget, s: BrowseStore, min: real, max: real, item: Item)
    requires min != 0.0 || max != w.maxItemLevel
    ensures var f := HandleValueChange(w, s, min, max).1.filters[ItemLevel];
      FilterKeeps(item, f) <==> min <= item.itemLevel as real <= max
  {
    LevelFilterMeaning(item, ItemLevel, min, max);
  }

  lemma ChangeKeepsKeyedByKind(w: Widget, s: BrowseStore, min: real, max: real)
    requires KeyedByKind(s.filters)
    ensures KeyedByKind(HandleValueChange(w, s, min, max).1.filters)
  {
    EditsKeepKeyedByKind(s.filters, ItemLevel, RangeFilter(ItemLevel, min, max));
  }
}
