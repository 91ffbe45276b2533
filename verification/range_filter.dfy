/** The range slider shared by the required-level, DPS and speed filters
    (components/range-filter.tsx): its local state, the range it loads, the
    effect that initialises the thumbs from the store, and the change
    handler that stores or deletes the filter. */
module RangeFilter {
  import opened Wrappers
  import opened Types
  import opened Where
  import opened Store

  /** The kinds the component accepts. */
  type SliderKind = k: OptionType | k == RequiredLevel || k == Dps || k == Speed witness RequiredLevel

  /** The component's local state: the data range and the two thumbs. */
  datatype Widget = Widget(minRange: real, maxRange: real, minValue: real, maxValue: real, loading: bool)

  /** The state on mount, before the range request settles. */
  const Mounted: Widget := Widget(0.0, 0.0, 0.0, 0.0, true)

  /** What the range request yields: `None` when the request or its JSON
      throws, otherwise the `min` and `max` fields (`None` when missing). A
      failing endpoint answers `{ error }`, which reads as both missing. */
  datatype RangeReply = RangeReply(min: Option<real>, max: Option<real>)

  /** The mount effect: store `data.min ?? 0` and `data.max ?? 0` when the
      request succeeds, and stop loading in every case. */
  function RangeFetched(w: Widget, reply: Option<RangeReply>): (r: Widget)
    ensures !r.loading
    ensures r.minValue == w.minValue && r.maxValue == w.maxValue
    ensures reply.None? ==> r.minRange == w.minRange && r.maxRange == w.maxRange
    ensures reply.Some? ==> r.minRange == reply.value.min.GetOr(0.0) && r.maxRange == reply.value.max.GetOr(0.0)
  {
    match reply
    case None => w.(loading := false)
    case Some(RangeReply(min, max)) => w.(minRange := min.GetOr(0.0), maxRange := max.GetOr(0.0), loading := false)
  }

  /** Whether the range counts as loaded for the init effect. */
  predicate RangeKnown(w: Widget) {
    !(w.maxRange == 0.0 && w.minRange == 0.0)
  }

  /** The range filter the store holds for `kind`, if the entry is one. */
  function StoredRange(filters: FilterMap, kind: OptionType): Option<(real, real)> {
    if kind in filters && filters[kind].kind == kind && filters[kind].RangeFilter? then
      Some((filters[kind].min, filters[kind].max))
    else None
  }

  /** The init effect: once the range is known, the thumbs show the stored
      filter's bounds, or the whole range when there is none. */
  function Sync(w: Widget, kind: SliderKind, filters: FilterMap): (r: Widget)
    ensures r.(minValue := w.minValue, maxValue := w.maxValue) == w
    ensures !RangeKnown(w) ==> r == w
    ensures RangeKnown(w) ==>
      (r.minValue, r.maxValue) == StoredRange(filters, kind).GetOr((w.minRange, w.maxRange))
  {
    if !RangeKnown(w) then w
    else
      match StoredRange(filters, kind)
      case Some((min, max)) => w.(minValue := min, maxValue := max)
      case None => w.(minValue := w.minRange, maxValue := w.maxRange)
  }

  /** The filter map after a change: the whole range deletes the key,
      anything else stores a range filter under it. */
  function Edited(filters: FilterMap, kind: SliderKind, minRange: real, maxRange: real, min: real, max: real): FilterMap {
    if min == minRange && max == maxRange then Without(filters, kind)
    else With(filters, kind, RangeFilter(kind, min, max))
  }

  /** `handleValueChange([min, max])`: move the thumbs, update the store's
      filter for `kind` through an updater, then `forceSearch` once. */
  function HandleValueChange(w: Widget, s: BrowseStore, kind: SliderKind, min: real, max: real): (r: (Widget, BrowseStore))
    ensures r.0 == w.(minValue := min, maxValue := max)
    ensures r.1.needsSearch == s.needsSearch + 1
    ensures r.1.(filters := s.filters, needsSearch := s.needsSearch) == s
    ensures min == w.minRange && max == w.maxRange ==> kind !in r.1.filters
    ensures !(min == w.minRange && max == w.maxRange) ==>
      kind in r.1.filters && r.1.filters[kind] == RangeFilter(kind, min, max)
    ensures AgreeExcept(r.1.filters, s.filters, kind)
  {
    var minRange, maxRange := w.minRange, w.maxRange;
    var update := Updater(prev => Edited(prev, kind, minRange, maxRange, min, max));
    (w.(minValue := min, maxValue := max), ForceSearch(SetFilters(s, update)))
  }

  /** The component renders nothing while loading or while the range's
      maximum is 0. */
  predicate Visible(w: Widget) {
    !w.loading && w.maxRange != 0.0
  }

  /** Hidden while loading (on mount in particular); once the request
      settles, shown exactly when the reported maximum is present and not
      0, or, when the request failed, when the previous maximum was not 0. */
  lemma HiddenUntilRangeKnown(w: Widget, reply: Option<RangeReply>)
    ensures w.loading ==> !Visible(w)
    ensures !Visible(Mounted)
    ensures reply.Some? ==>
      (Visible(RangeFetched(w, reply)) <==> reply.value.max.Some? && reply.value.max.value != 0.0)
    ensures reply.None? ==> (Visible(RangeFetched(w, reply)) <==> w.maxRange != 0.0)
  {
  }

  /** Round trip: after a change, the init effect run on the new filters
      shows exactly the chosen bounds, whether the change stored a filter or
      deleted one. */
  lemma ChangeThenSyncShowsChoice(w: Widget, s: BrowseStore, kind: SliderKind, min: real, max: real)
    requires RangeKnown(w)
    ensures var (w2, s2) := HandleValueChange(w, s, kind, min, max);
      Sync(w2, kind, s2.filters).minValue == min && Sync(w2, kind, s2.filters).maxValue == max
  {
  }

  /** A change keeps the store keyed by kind. */
  lemma ChangeKeepsKeyedByKind(w: Widget, s: BrowseStore, kind: SliderKind, min: real, max: real)
    requires KeyedByKind(s.filters)
    ensures KeyedByKind(HandleValueChange(w, s, kind, min, max).1.filters)
  {
    EditsKeepKeyedByKind(s.filters, kind, RangeFilter(kind, min, max));
  }

  /** The stored filter keeps exactly the items whose value lies in the
      chosen bounds; for DPS and speed that excludes items without damage,
      which is why the full range deletes the filter instead. */
  lemma StoredFilterMeaning(w: Widget, s: BrowseStore, kind: SliderKind, min: real, max: real, item: Item)
    requires !(min == w.minRange && max == w.maxRange)
    ensures var f := HandleValueChange(w, s, kind, min, max).1.filters[kind];
      FilterKeeps(item, f) <==> NumberAt(item, kind).Some? && min <= NumberAt(item, kind).value <= max
    ensures kind != RequiredLevel && item.damage.None? ==>
      !FilterKeeps(item, HandleValueChange(w, s, kind, min, max).1.filters[kind])
  {
  }
}
