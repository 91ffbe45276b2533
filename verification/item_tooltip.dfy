/** The hover card of an item (components/item-tooltip.tsx): which sections
    appear, how stat lines read, and which colour classes they get. */
module ItemTooltip {
  import opened Wrappers
  import opened Text
  import opened Types

  /** The `qualityColors` table, with `"text-white"` when the quality is
      not in it. */
  function QualityColor(quality: string): (c: string)
    ensures quality !in {"Epic", "Rare", "Uncommon"} ==> c == "text-white"
  {
    if quality == "Epic" then "text-purple-400"
    else if quality == "Rare" then "text-blue-400"
    else if quality == "Uncommon" then "text-green-400"
    else if quality == "Common" then "text-white"
    else "text-white"
  }

  /** The three qualities with their own colour get distinct colours, none
      of them white. */
  lemma QualityColorsDistinct()
    ensures QualityColor("Epic") != QualityColor("Rare")
    ensures QualityColor("Epic") != QualityColor("Uncommon")
    ensures QualityColor("Rare") != QualityColor("Uncommon")
    ensures forall q :: q in {"Epic", "Rare", "Uncommon"} ==> QualityColor(q) != "text-white"
  {
  }

  /** `stat.charAt(0).toUpperCase() + stat.slice(1)`. */
  function Capitalize(s: string): (r: string)
    ensures |r| == |s|
    ensures |s| > 0 ==> r[0] == UpperChar(s[0]) && r[1..] == s[1..]
  {
    if |s| == 0 then "" else [UpperChar(s[0])] + s[1..]
  }

  /** Capitalising changes nothing but the case of the first character: it
      is idempotent and the name reads the same ignoring case. */
  lemma CapitalizeKeepsName(s: string)
    ensures Capitalize(Capitalize(s)) == Capitalize(s)
    ensures Lower(Capitalize(s)) == Lower(s)
  {
    if |s| > 0 {
      UpperIdempotent(s[0]);
      LowerOfUpper(s[0]);
      assert Lower(Capitalize(s))[0] == Lower(s)[0];
      assert forall i :: 1 <= i < |s| ==> Lower(Capitalize(s))[i] == Lower(s)[i];
    }
  }

  lemma UpperIdempotent(c: char)
    ensures UpperChar(UpperChar(c)) == UpperChar(c)
  {
  }

  /** A rendered line: its colour class and its text. */
  datatype Line = Line(color: string, text: string)

  /** `+{value} {Stat}` in white: a plus sign, the number, a space and the
      capitalised stat name at the end. */
  function PrimaryStatLine(stat: string, value: int): (l: Line)
    ensures l.color == "text-white"
    ensures |l.text| > |stat| + 1 && l.text[0] == '+'
    ensures l.text[|l.text| - |stat| - 1..] == " " + Capitalize(stat)
  {
    NumberLineShape(value, Capitalize(stat));
    Line("text-white", "+" + IntToDecimal(value) + " " + Capitalize(stat))
  }

  /** The shape shared by every `+{value} {name}` line: a plus sign first,
      the name after a space at the end, and the number in between reading
      back with `parseInt`. */
  lemma NumberLineShape(value: int, name: string)
    ensures var t := "+" + IntToDecimal(value) + " " + name;
      && |t| > |name| + 1 && t[0] == '+'
      && t[|t| - |name| - 1..] == " " + name
      && ParseInt(t[1..]) == Some(value)
  {
    var t := "+" + IntToDecimal(value) + " " + name;
    assert t == "+" + IntToDecimal(value) + (" " + name);
    assert t[|t| - |name| - 1..] == " " + name;
    assert t[1..] == IntToDecimal(value) + (" " + name);
    ParseIntOfDecimalThen(value, " " + name);
  }

  /** The number on a primary line reads back: `parseInt` of the text after
      the plus sign is the stat's value, negative values included. */
  lemma PrimaryStatLineReadsBack(stat: string, value: int)
    ensures ParseInt(PrimaryStatLine(stat, value).text[1..]) == Some(value)
  {
    NumberLineShape(value, Capitalize(stat));
  }

  /** Case-sensitive: the text contains "Increases", "Improves", "Restores"
      or "chance" as written. */
  predicate IsEquipEffect(text: string) {
    Contains(text, "Increases") || Contains(text, "Improves")
    || Contains(text, "Restores") || Contains(text, "chance")
  }

  /** An equip effect stays one inside any longer text, so a line that
      shows the effect with a prefix is itself recognised as one. */
  lemma EquipEffectExtended(pre: string, text: string, post: string)
    requires IsEquipEffect(text)
    ensures IsEquipEffect(pre + text + post)
  {
    if Contains(text, "Increases") {
      ContainsExtended(pre, text, post, "Increases");
    } else if Contains(text, "Improves") {
      ContainsExtended(pre, text, post, "Improves");
    } else if Contains(text, "Restores") {
      ContainsExtended(pre, text, post, "Restores");
    } else {
      ContainsExtended(pre, text, post, "chance");
    }
  }

  /** A secondary stat line. Numbers read `+{value} {stat}`; a text is shown
      whole at the end of its line, preceded by `Equip: ` exactly when it is
      an equip effect. The line is green exactly for numbers and equip
      effects, and white otherwise. */
  function SecondaryStatLine(stat: string, value: StatValue): (l: Line)
    ensures l.color == "text-green-400" || l.color == "text-white"
    ensures l.color == "text-green-400" <==> value.NumberStat? || IsEquipEffect(value.text)
    ensures value.NumberStat? ==>
      |l.text| > |stat| + 1 && l.text[0] == '+' && l.text[|l.text| - |stat| - 1..] == " " + stat
    ensures value.TextStat? ==>
      |l.text| >= |value.text| && l.text[|l.text| - |value.text|..] == value.text
    ensures value.TextStat? ==>
      (|l.text| > |value.text| <==> IsEquipEffect(value.text))
      && (IsEquipEffect(value.text) ==> l.text[..|l.text| - |value.text|] == "Equip: ")
  {
    match value
    case NumberStat(amount) =>
      NumberLineShape(amount, stat);
      Line("text-green-400", "+" + IntToDecimal(amount) + " " + stat)
    case TextStat(text) =>
      if IsEquipEffect(text) then Line("text-green-400", "Equip: " + text) else Line("text-white", text)
  }

  /** What a secondary line reads as: a number line's value reads back
      with `parseInt`, and a green text line is itself an equip effect. */
  lemma SecondaryStatLineReadsBack(stat: string, value: StatValue)
    ensures var l := SecondaryStatLine(stat, value);
      && (value.NumberStat? ==> ParseInt(l.text[1..]) == Some(value.amount))
      && (value.TextStat? && l.color == "text-green-400" ==> IsEquipEffect(l.text))
  {
    var l := SecondaryStatLine(stat, value);
    match value
    case NumberStat(amount) =>
      NumberLineShape(amount, stat);
    case TextStat(text) =>
      if IsEquipEffect(text) {
        EquipEffectExtended("Equip: ", text, "");
        assert "Equip: " + text + "" == l.text;
      }
  }

  /** The markers are matched with their case: "Chance" alone is not an
      equip effect, while every text containing "chance" is. */
  lemma EquipMatchIsCaseSensitive(text: string)
    ensures !IsEquipEffect("Chance")
    ensures Contains(text, "chance") ==> IsEquipEffect(text)
    ensures IsEquipEffect("5% chance")
  {
    Mismatch("Chance", "chance", 0, 0);
    ContainsAt("5% chance", "chance", 3);
  }

  /** One differing character rules out an occurrence. */
  lemma Mismatch(s: string, sub: string, i: int, j: int)
    requires 0 <= j < |sub|
    requires 0 <= i + j < |s| && s[i + j] != sub[j]
    ensures !OccursAt(s, sub, i)
  {
  }

  /** The card of an item, section by section; `None` is a section that is
      not rendered. */
  datatype Card = Card(
    nameColor: string,
    binding: Option<string>,
    slotType: Option<string>,
    damage: Option<Damage>,
    primary: Option<seq<Line>>,
    secondary: Option<seq<Line>>)

  function PrimaryLines(stats: seq<(string, int)>): (r: seq<Line>)
    ensures |r| == |stats|
    ensures forall i :: 0 <= i < |stats| ==> r[i] == PrimaryStatLine(stats[i].0, stats[i].1)
  {
    seq(|stats|, i requires 0 <= i < |stats| => PrimaryStatLine(stats[i].0, stats[i].1))
  }

  function SecondaryLines(stats: seq<(string, StatValue)>): (r: seq<Line>)
    ensures |r| == |stats|
    ensures forall i :: 0 <= i < |stats| ==> r[i] == SecondaryStatLine(stats[i].0, stats[i].1)
  {
    seq(|stats|, i requires 0 <= i < |stats| => SecondaryStatLine(stats[i].0, stats[i].1))
  }

  /** `ItemTooltip({ item })`: the binding and slot type only when
      non-empty, damage only when present, each stat section only when it
      has an entry. */
  function Render(item: Item): (c: Card)
    ensures c.nameColor == QualityColor(item.quality)
    ensures c.binding.Some? <==> item.binding != ""
    ensures c.slotType.Some? <==> item.slotType != ""
    ensures c.damage == item.damage
    ensures c.primary.Some? <==> item.primaryStats.Some? && |item.primaryStats.value| > 0
    ensures c.secondary.Some? <==> item.secondaryStats.Some? && |item.secondaryStats.value| > 0
    ensures c.primary.Some? ==> |c.primary.value| == |item.primaryStats.value|
    ensures c.secondary.Some? ==> |c.secondary.value| == |item.secondaryStats.value|
  {
    Card(
      QualityColor(item.quality),
      if item.binding != "" then Some(item.binding) else None,
      if item.slotType != "" then Some(item.slotType) else None,
      item.damage,
      if item.primaryStats.Some? && |item.primaryStats.value| > 0 then Some(PrimaryLines(item.primaryStats.value)) else None,
      if item.secondaryStats.Some? && |item.secondaryStats.value| > 0 then Some(SecondaryLines(item.secondaryStats.value)) else None)
  }

  /** Every stat the item has is rendered once, in order: the i-th primary
      line names the i-th primary stat, capitalised. */
  lemma RenderListsEveryStat(item: Item, i: int)
    requires item.primaryStats.Some? && 0 <= i < |item.primaryStats.value|
    ensures Render(item).primary.Some?
    ensures var line := Render(item).primary.value[i];
      var (stat, value) := item.primaryStats.value[i];
      line.text[|line.text| - |stat|..] == Capitalize(stat)
      && Lower(line.text[|line.text| - |stat|..]) == Lower(stat)
  {
    CapitalizeKeepsName(item.primaryStats.value[i].0);
  }
}
