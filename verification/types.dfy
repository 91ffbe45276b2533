/** The shared record types of the catalogue (types/types.ts): the item
    document, the filter kinds, the two filter shapes and the page bundle. */
module Types {
  import opened Wrappers

  /** The filterable attributes of an item. */
  datatype OptionType =
    | Zone | Quality | SlotType | ItemType | Slot | PrimaryStats
    | ItemLevel | RequiredLevel | Dps | Speed
  {
    /** The enum's string value, as sent over the wire and used as a key. */
    function Value(): string {
      match this
      case Zone => "zone"
      case Quality => "quality"
      case SlotType => "slotType"
      case ItemType => "itemType"
      case Slot => "slot"
      case PrimaryStats => "primaryStats"
      case ItemLevel => "itemLevel"
      case RequiredLevel => "requiredLevel"
      case Dps => "dps"
      case Speed => "speed"
    }

    /** The kinds a membership filter (`in: string[]`) may carry. */
    predicate IsInKind() {
      Zone? || Quality? || SlotType? || ItemType? || Slot? || PrimaryStats?
    }

    /** The kinds a range filter (`min`, `max`) may carry. */
    predicate IsRangeKind() {
      ItemLevel? || RequiredLevel? || Dps? || Speed?
    }

    /** The five kinds that name a single text field of the document, and so
        have a list of distinct values. */
    predicate IsColumnKind() {
      Zone? || Quality? || SlotType? || ItemType? || Slot?
    }
  }

  /** `Object.values(OptionType)`, in declaration order. */
  const AllOptionTypes: seq<OptionType> :=
    [Zone, Quality, SlotType, ItemType, Slot, PrimaryStats, ItemLevel, RequiredLevel, Dps, Speed]

  /** The kind whose string value is `s`, if any. */
  function FromValue(s: string): (r: Option<OptionType>)
    ensures r.Some? ==> r.value.Value() == s
    ensures r.None? ==> forall k: OptionType :: k.Value() != s
  {
    if s == "zone" then Some(Zone)
    else if s == "quality" then Some(Quality)
    else if s == "slotType" then Some(SlotType)
    else if s == "itemType" then Some(ItemType)
    else if s == "slot" then Some(Slot)
    else if s == "primaryStats" then Some(PrimaryStats)
    else if s == "itemLevel" then Some(ItemLevel)
    else if s == "requiredLevel" then Some(RequiredLevel)
    else if s == "dps" then Some(Dps)
    else if s == "speed" then Some(Speed)
    else None
  }

  /** Every kind is found again from its string value, so no two kinds share
      a value. */
  lemma FromValueOfValue(k: OptionType)
    ensures FromValue(k.Value()) == Some(k)
  {
  }

  lemma ValueInjective(a: OptionType, b: OptionType)
    requires a.Value() == b.Value()
    ensures a == b
  {
    FromValueOfValue(a);
    FromValueOfValue(b);
  }

  /** The membership kinds and the range kinds split the enum in two; the
      column kinds are the membership kinds other than `PrimaryStats`. */
  lemma KindsPartition(k: OptionType)
    ensures k.IsInKind() != k.IsRangeKind()
    ensures k.IsColumnKind() <==> k.IsInKind() && k != PrimaryStats
    ensures k in AllOptionTypes
  {
  }

  /** The `damage` sub-record, present only on weapons. */
  datatype Damage = Damage(min: int, max: int, damageType: string, speed: real, damagePerSecond: real)

  /** A secondary stat is a number (resistances) or a text (equip effects). */
  datatype StatValue = NumberStat(amount: int) | TextStat(text: string)

  datatype Description = Description(name: Option<string>, cooldown: Option<string>, description: Option<string>)

  /** The item document. `Record<string, …>` fields are kept as their
      `Object.entries` lists. `itemType` is not declared on the interface but
      the queries filter and list on it, so it is an optional extra field. */
  datatype Item = Item(
    id: int,
    name: string,
    coords: seq<real>,
    slotType: string,
    slot: string,
    quality: string,
    requiredLevel: int,
    itemLevel: int,
    binding: string,
    zone: string,
    damage: Option<Damage>,
    primaryStats: Option<seq<(string, int)>>,
    secondaryStats: Option<seq<(string, StatValue)>>,
    classRestrictions: Option<seq<string>>,
    descriptions: Option<seq<Description>>,
    itemType: Option<string>)

  /** A filter is a membership filter or a range filter. The declared types
      tie each shape to its kinds (`WellShaped`); the datatype also admits
      the other pairings because the query code is written to ignore them. */
  datatype Filter =
    | InFilter(kind: OptionType, values: seq<string>)
    | RangeFilter(kind: OptionType, min: real, max: real)
  {
    predicate WellShaped() {
      (InFilter? && kind.IsInKind()) || (RangeFilter? && kind.IsRangeKind())
    }
  }

  /** A well-shaped filter is exactly one of the two shapes, and its kind
      alone decides which. */
  lemma ShapeFollowsKind(f: Filter, g: Filter)
    requires f.WellShaped() && g.WellShaped() && f.kind == g.kind
    ensures f.InFilter? <==> g.InFilter?
  {
  }

  /** One page of results: the items, the number of matching rows, the echoed
      page and page size, and the number of pages. */
  datatype PaginatedResponse = PaginatedResponse(
    items: seq<Item>,
    totalCount: int,
    page: int,
    pageSize: int,
    totalPages: int)
}
