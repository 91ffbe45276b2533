/** The standalone filter panel (components/item-filters.tsx). Its state is
    a plain object owned by the parent; every edit hands the parent a new
    object. Object keys are kept even when their value is `undefined`. */
module ItemFilters {
  import opened Wrappers

  /** The keys of `FilterState`. */
  datatype FilterKey = SlotType | Slot | Quality | RequiredLevel | ItemLevel | Binding
  {
    predicate IsSelectKey() {
      SlotType? || Slot? || Quality? || Binding?
    }
  }

  /** A value under a key: `undefined`, a selected text or slider bounds. */
  datatype FieldValue = Undefined | Text(text: string) | Bounds(min: real, max: real)

  type FilterState = map<FilterKey, FieldValue>

  /** `updateFilter(key, value)`: `{ ...filters, [key]: value }`. */
  function UpdateFilter(filters: FilterState, key: FilterKey, value: FieldValue): (r: FilterState)
    ensures key in r && r[key] == value
    ensures forall k :: k != key ==> (k in r <==> k in filters) && (k in r ==> r[k] == filters[k])
  {
    filters[key := value]
  }

  /** `clearFilter(key)`: a copy without the key. */
  function ClearFilter(filters: FilterState, key: FilterKey): (r: FilterState)
    ensures key !in r
    ensures forall k :: k != key ==> (k in r <==> k in filters) && (k in r ==> r[k] == filters[k])
  {
    filters - {key}
  }

  /** `clearAllFilters()`. */
  function ClearAllFilters(): (r: FilterState)
    ensures forall k :: k !in r
  {
    map[]
  }

  /** `Object.keys(filters).length`: keys whose value is `undefined` count. */
  function ActiveFilterCount(filters: FilterState): (n: nat)
    ensures n == 0 <==> forall k :: k !in filters
    ensures n <= 6
  {
    KeysAtMostSix(filters);
    EmptyIffNoKey(filters);
    |filters|
  }

  lemma EmptyIffNoKey(filters: FilterState)
    ensures |filters| == 0 <==> forall k :: k !in filters
  {
    if |filters| != 0 {
      var k :| k in filters;
    }
  }

  lemma KeysAtMostSix(filters: FilterState)
    ensures |filters| <= 6
  {
    var all := {SlotType, Slot, Quality, RequiredLevel, ItemLevel, Binding};
    forall k | k in filters.Keys
      ensures k in all
    {
      match k
      case SlotType =>
      case Slot =>
      case Quality =>
      case RequiredLevel =>
      case ItemLevel =>
      case Binding =>
    }
    assert filters.Keys <= all;
    assert |all| == 6;
    SubsetCard(filters.Keys, all);
  }

  lemma SubsetCard(a: set<FilterKey>, b: set<FilterKey>)
    requires a <= b
    ensures |a| <= |b|
  {
    assert b == a + (b - a);
  }

  /** "Clear all (n)" is shown iff some key is present. */
  predicate ShowsClearAll(filters: FilterState) {
    ActiveFilterCount(filters) > 0
  }

  /** The select's change handler: the "all" entry stores `undefined`. */
  function SelectValueChange(filters: FilterState, key: FilterKey, choice: string): (r: FilterState)
    requires key.IsSelectKey()
    ensures key in r
    ensures choice == "all" ==> r[key] == Undefined
    ensures choice != "all" ==> r[key] == Text(choice)
    ensures forall k :: k != key ==> (k in r <==> k in filters) && (k in r ==> r[k] == filters[k])
  {
    UpdateFilter(filters, key, if choice == "all" then Undefined else Text(choice))
  }

  /** The select shows `filters[key] || "all"`. */
  function SelectShown(filters: FilterState, key: FilterKey): string {
    if key in filters && filters[key].Text? && filters[key].text != "" then filters[key].text else "all"
  }

  /** The slider's change handler, given the bounds it was drawn with: the
      full range stores `undefined`, anything else the chosen bounds. */
  function SliderValueChange(filters: FilterState, key: FilterKey, lowest: real, highest: real, min: real, max: real): (r: FilterState)
    requires !key.IsSelectKey()
    ensures key in r
    ensures min == lowest && max == highest ==> r[key] == Undefined
    ensures !(min == lowest && max == highest) ==> r[key] == Bounds(min, max)
    ensures forall k :: k != key ==> (k in r <==> k in filters) && (k in r ==> r[k] == filters[k])
  {
    UpdateFilter(filters, key, if min == lowest && max == highest then Undefined else Bounds(min, max))
  }

  /** The slider shows `filters[key]?.min ?? lowest` and
      `filters[key]?.max ?? highest`. */
  function SliderShown(filters: FilterState, key: FilterKey, lowest: real, highest: real): (real, real) {
    if key in filters && filters[key].Bounds? then (filters[key].min, filters[key].max) else (lowest, highest)
  }

  /** A badge is drawn only for a truthy value; bounds are an object and so
      always truthy. */
  predicate ShowsBadge(filters: FilterState, key: FilterKey) {
    key in filters && match filters[key]
      case Undefined => false
      case Text(t) => t != ""
      case Bounds(_, _) => true
  }

  /** `Math.min(...values)`; `None` stands for the `Infinity` an empty list
      gives. */
  function Lowest(values: seq<real>): (r: Option<real>)
    ensures r.None? <==> |values| == 0
    ensures r.Some? ==> r.value in values && forall i :: 0 <= i < |values| ==> r.value <= values[i]
  {
    if |values| == 0 then None
    else
      var rest := Lowest(values[1..]);
      assert forall i :: 1 <= i < |values| ==> values[i] == values[1..][i - 1];
      if rest.None? || values[0] <= rest.value then Some(values[0]) else rest
  }

  /** `Math.max(...values)`; `None` stands for the `-Infinity` an empty
      list gives. */
  function Highest(values: seq<real>): (r: Option<real>)
    ensures r.None? <==> |values| == 0
    ensures r.Some? ==> r.value in values && forall i :: 0 <= i < |values| ==> values[i] <= r.value
  {
    if |values| == 0 then None
    else
      var rest := Highest(values[1..]);
      assert forall i :: 1 <= i < |values| ==> values[i] == values[1..][i - 1];
      if rest.None? || values[0] >= rest.value then Some(values[0]) else rest
  }

  // ---------------------------------------------------------------------------
  // Properties of the panel

  /** Choosing "all" keeps the key: it is still counted, has no badge, and
      the select shows "all" again. */
  lemma AllKeepsKeyCounted(filters: FilterState, key: FilterKey)
    requires key.IsSelectKey()
    ensures var r := SelectValueChange(filters, key, "all");
      && ActiveFilterCount(r) == (if key in filters then ActiveFilterCount(filters) else ActiveFilterCount(filters) + 1)
      && ShowsClearAll(r)
      && !ShowsBadge(r, key)
      && SelectShown(r, key) == "all"
  {
  }

  /** Choosing a real value shows it in the select and as a badge. */
  lemma SelectRoundTrip(filters: FilterState, key: FilterKey, choice: string)
    requires key.IsSelectKey() && choice != "all" && choice != ""
    ensures SelectShown(SelectValueChange(filters, key, choice), key) == choice
    ensures ShowsBadge(SelectValueChange(filters, key, choice), key)
  {
  }

  /** Moving a slider and drawing it again shows the chosen bounds, whether
      they were stored or replaced by `undefined`. */
  lemma SliderRoundTrip(filters: FilterState, key: FilterKey, lowest: real, highest: real, min: real, max: real)
    requires !key.IsSelectKey()
    ensures SliderShown(SliderValueChange(filters, key, lowest, highest, min, max), key, lowest, highest) == (min, max)
  {
  }

  /** Clearing one key lowers the count by one and removes its badge;
      clearing all hides the "Clear all" button. */
  lemma ClearingCounts(filters: FilterState, key: FilterKey)
    requires key in filters
    ensures ActiveFilterCount(ClearFilter(filters, key)) == ActiveFilterCount(filters) - 1
    ensures !ShowsBadge(ClearFilter(filters, key), key)
    ensures !ShowsClearAll(ClearAllFilters())
  {
  }

  /** A badge implies the key is counted, but not the other way round. */
  lemma BadgeImpliesCounted(filters: FilterState, key: FilterKey)
    requires ShowsBadge(filters, key)
    ensures ShowsClearAll(filters)
  {
  }
}
