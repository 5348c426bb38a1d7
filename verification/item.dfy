/** Core/Loot/Item.cs: an item of some type and quality carrying a table of
    named integer stats. The table is a `Dictionary` that is only ever added
    to, so it enumerates in insertion order; it is modelled as a map together
    with the order in which its keys arrived. */
module Items {
  import opened Ints
  import opened Seqs
  import opened Entities
  import opened Text

  datatype ItemType = Weapon | Armor | Consumable | Accessory

  datatype ItemQuality = Common | Uncommon | Rare | Epic | Legendary

  /** The stat dictionary: values by name, and the names in insertion order. */
  datatype StatTable = StatTable(values: map<string, i32>, order: seq<string>)

  datatype Item = Item(entity: Entity, itemType: ItemType, quality: ItemQuality,
                       stats: StatTable, isEquipped: bool)

  /** The order lists each key of the table exactly once. */
  predicate ValidTable(t: StatTable) {
    && Distinct(t.order)
    && (forall k :: k in t.values ==> k in t.order)
    && (forall k :: k in t.order ==> k in t.values)
  }

  const NoStats: StatTable := StatTable(map[], [])

  function SymbolForItemType(t: ItemType): char {
    match t
    case Weapon => '\U{2692}'
    case Armor => '\U{26E8}'
    case Consumable => '\U{26B1}'
    case Accessory => '\U{25CE}'
  }

  /** Each item type has its own symbol. */
  lemma ItemSymbolsDistinct(a: ItemType, b: ItemType)
    ensures SymbolForItemType(a) == SymbolForItemType(b) <==> a == b
  {
  }

  /** The constructor: named, typed and graded, with no stats, not equipped. */
  function NewItem(name: string, t: ItemType, q: ItemQuality): (it: Item)
    ensures it.entity == NewEntity(name, SymbolForItemType(t))
    ensures it.itemType == t && it.quality == q
    ensures it.stats.order == [] && ValidTable(it.stats) && !it.isEquipped
    ensures forall k :: GetStat(it, k) == 0
  {
    Item(NewEntity(name, SymbolForItemType(t)), t, q, NoStats, false)
  }

  /** `TryGetValue`, falling back to zero for a missing key. */
  function Lookup(t: StatTable, key: string): (v: i32)
    ensures key in t.values ==> v == t.values[key]
    ensures key !in t.values ==> v == 0
  {
    if key in t.values then t.values[key] else 0
  }

  /** Adding to a stat: an existing entry grows by `value` in place, a new key
      enters with `value` and joins the end of the order. Every other entry
      stays, and the table stays well formed. */
  function Accumulate(t: StatTable, key: string, value: i32): (r: StatTable)
    ensures Lookup(r, key) == Wrap(Lookup(t, key) + value)
    ensures forall k :: k != key ==> Lookup(r, k) == Lookup(t, k)
    ensures key in r.values && (forall k :: k in t.values ==> k in r.values)
    ensures r.order == if key in t.order then t.order else t.order + [key]
    ensures ValidTable(t) ==> ValidTable(r)
  {
    var v := Wrap(Lookup(t, key) + value);
    var r := StatTable(t.values[key := v],
                       if key in t.order then t.order else t.order + [key]);
    assert ValidTable(t) ==> Distinct(r.order) by {
      if ValidTable(t) && key !in t.order {
        DistinctAppend(t.order, key);
      }
    }
    r
  }

  /** A stat the item has reads its stored value; any other stat reads 0. */
  function GetStat(it: Item, key: string): (v: i32)
    ensures key in it.stats.values ==> v == it.stats.values[key]
    ensures key !in it.stats.values ==> v == 0
  {
    Lookup(it.stats, key)
  }

  /** `AddStat`: the named stat grows by `value`, every other stat and every
      other field stays as it was; a new stat joins the end of the order. */
  function AddStat(it: Item, key: string, value: i32): (r: Item)
    ensures GetStat(r, key) == Wrap(GetStat(it, key) + value)
    ensures forall k :: k != key ==> GetStat(r, k) == GetStat(it, k)
    ensures r.stats.order == if key in it.stats.order then it.stats.order else it.stats.order + [key]
    ensures ValidTable(it.stats) ==> ValidTable(r.stats)
    ensures r.entity == it.entity && r.itemType == it.itemType && r.quality == it.quality
    ensures r.isEquipped == it.isEquipped
  {
    it.(stats := Accumulate(it.stats, key, value))
  }

  /** What `AddStat` makes of a stat depends only on that stat's old value. */
  lemma AddStatFromValue(a: Item, b: Item, key: string, v: i32)
    requires GetStat(a, key) == GetStat(b, key)
    ensures GetStat(AddStat(a, key, v), key) == GetStat(AddStat(b, key, v), key)
  {
  }

  function QualityName(q: ItemQuality): string {
    match q
    case Common => "Common"
    case Uncommon => "Uncommon"
    case Rare => "Rare"
    case Epic => "Epic"
    case Legendary => "Legendary"
  }

  function TypeName(t: ItemType): string {
    match t
    case Weapon => "Weapon"
    case Armor => "Armor"
    case Consumable => "Consumable"
    case Accessory => "Accessory"
  }

  function Header(it: Item): string {
    it.entity.name + " (" + QualityName(it.quality) + " " + TypeName(it.itemType) + ")\n"
  }

  /** One stat as "+5 Damage\n", with the '+' only on positive values. */
  function StatLine(key: string, value: i32): string {
    (if value > 0 then "+" else "") + IntToString(value) + " " + key + "\n"
  }

  /** The lines for the given keys, in order. */
  function StatLines(t: StatTable, keys: seq<string>): string {
    if |keys| == 0 then "" else StatLine(keys[0], Lookup(t, keys[0])) + StatLines(t, keys[1..])
  }

  /** The header line followed by one line per stat, in insertion order. */
  function GetDescription(it: Item): (d: string)
    ensures |it.entity.name| < |d| && d[..|it.entity.name|] == it.entity.name
    ensures d[|d| - 1] == '\n'
  {
    var h, lines := Header(it), StatLines(it.stats, it.stats.order);
    assert (h + lines)[..|it.entity.name|] == h[..|it.entity.name|];
    StatLinesEnd(it.stats, it.stats.order);
    h + lines
  }

  /** The stat lines are empty or end with a line break. */
  lemma {:induction false} StatLinesEnd(t: StatTable, keys: seq<string>)
    ensures var s := StatLines(t, keys); |s| == 0 || s[|s| - 1] == '\n'
    decreases |keys|
  {
    if |keys| > 0 {
      StatLinesEnd(t, keys[1..]);
    }
  }

  /** A stat line starts with '+' exactly when the value is positive. */
  lemma StatLineSign(key: string, value: i32)
    ensures |StatLine(key, value)| > 0
    ensures StatLine(key, value)[0] == '+' <==> value > 0
    ensures value < 0 ==> StatLine(key, value)[0] == '-'
  {
    IntToStringShape(value);
  }

  predicate NoLineBreak(s: string) {
    forall k :: 0 <= k < |s| ==> s[k] != '\n'
  }

  lemma {:induction false} StatLineBreaks(key: string, value: i32)
    requires NoLineBreak(key)
    ensures CountChar(StatLine(key, value), '\n') == 1
  {
    var sign := if value > 0 then "+" else "";
    IntToStringShape(value);
    CountCharAbsent(sign, '\n');
    CountCharAbsent(IntToString(value), '\n');
    CountCharAbsent(" ", '\n');
    CountCharAbsent(key, '\n');
    CountCharAppend(sign, IntToString(value), '\n');
    CountCharAppend(sign + IntToString(value), " ", '\n');
    CountCharAppend(sign + IntToString(value) + " ", key, '\n');
    CountCharAppend(sign + IntToString(value) + " " + key, "\n", '\n');
  }

  lemma {:induction false} StatLinesBreaks(t: StatTable, keys: seq<string>)
    requires forall i :: 0 <= i < |keys| ==> NoLineBreak(keys[i])
    ensures CountChar(StatLines(t, keys), '\n') == |keys|
  {
    if |keys| > 0 {
      StatLineBreaks(keys[0], Lookup(t, keys[0]));
      StatLinesBreaks(t, keys[1..]);
      CountCharAppend(StatLine(keys[0], Lookup(t, keys[0])), StatLines(t, keys[1..]), '\n');
    }
  }

  lemma NoLineBreakConcat(a: string, b: string)
    requires NoLineBreak(a) && NoLineBreak(b)
    ensures NoLineBreak(a + b)
  {
  }

  lemma {:induction false} HeaderBreaks(it: Item)
    requires NoLineBreak(it.entity.name)
    ensures CountChar(Header(it), '\n') == 1
  {
    var q, t := QualityName(it.quality), TypeName(it.itemType);
    assert NoLineBreak(q) && NoLineBreak(t);
    NoLineBreakConcat(it.entity.name, " (");
    NoLineBreakConcat(it.entity.name + " (", q);
    NoLineBreakConcat(it.entity.name + " (" + q, " ");
    NoLineBreakConcat(it.entity.name + " (" + q + " ", t);
    NoLineBreakConcat(it.entity.name + " (" + q + " " + t, ")");
    var line := it.entity.name + " (" + q + " " + t + ")";
    CountCharAbsent(line, '\n');
    CountCharAppend(line, "\n", '\n');
    assert Header(it) == line + "\n";
  }

  /** When neither the name nor any stat key holds a line break, the
      description is exactly 1 + (number of stats) lines: the header, then
      one line per stat. */
  lemma DescriptionLineCount(it: Item)
    requires NoLineBreak(it.entity.name)
    requires forall i :: 0 <= i < |it.stats.order| ==> NoLineBreak(it.stats.order[i])
    ensures CountChar(GetDescription(it), '\n') == 1 + |it.stats.order|
    ensures GetDescription(it)[..|Header(it)|] == Header(it)
    ensures GetDescription(it)[|Header(it)| - 1] == '\n'
  {
    HeaderBreaks(it);
    StatLinesBreaks(it.stats, it.stats.order);
    CountCharAppend(Header(it), StatLines(it.stats, it.stats.order), '\n');
  }
}
