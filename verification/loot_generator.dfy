/** Core/Loot/LootGenerator.cs: turns a loot table into concrete items. Every
    `Random` draw of the source is a parameter here; the quality roll and the
    stat-value rolls (floating point) arrive already decided. */
module LootGenerator {
  import opened Ints
  import opened Text
  import opened Seqs
  import opened Items
  import opened LootTables

  /** The stats an item can carry as a secondary stat, in the source's order. */
  const PossibleStats: seq<string> :=
    ["Strength", "Intelligence", "Dexterity", "MaxHealth", "MaxStamina", "Damage", "Armor", "CritChance"]

  const UncommonPrefixes: seq<string> := ["Fine", "Sturdy", "Sharp", "Strong", "Hardy"]
  const RarePrefixes: seq<string> := ["Superior", "Enchanted", "Gleaming", "Masterwork", "Reinforced"]
  const EpicPrefixes: seq<string> := ["Exquisite", "Magnificent", "Mythical", "Astral", "Draconic"]

  const UncommonSuffixes: seq<string> := ["of Skill", "of Power", "of Vigor", "of Haste", "of Defense"]
  const RareSuffixes: seq<string> := ["of Might", "of the Adept", "of Precision", "of the Sentinel", "of Quickness"]
  const EpicSuffixes: seq<string> := ["of the Champion", "of the Archmage", "of Dominance", "of Annihilation", "of the Titan"]

  const LegendaryWeaponNames: seq<string> := ["Thunderfury", "Shadowfang", "Doomcaller", "Soulreaver", "Harbinger"]
  const LegendaryArmorNames: seq<string> := ["Vanguard's Bulwark", "Dreadplate", "Stormshield", "Skyguard", "Ironhide"]

  /** The enum's underlying value. */
  function QualityRank(q: ItemQuality): nat {
    match q
    case Common => 0
    case Uncommon => 1
    case Rare => 2
    case Epic => 3
    case Legendary => 4
  }

  function GetQualityMultiplier(q: ItemQuality): (m: int)
    ensures 1 <= m <= 5
  {
    match q
    case Common => 1
    case Uncommon => 2
    case Rare => 3
    case Epic => 4
    case Legendary => 5
  }

  /** The multiplier grows strictly with quality: a better grade always gets a
      larger multiplier and a larger multiplier always means a better grade. */
  lemma MultiplierStrictlyIncreasing(a: ItemQuality, b: ItemQuality)
    ensures QualityRank(a) < QualityRank(b) <==> GetQualityMultiplier(a) < GetQualityMultiplier(b)
  {
  }

  /** How many secondary stats an item of this quality gets, `draw` standing
      for the `Random.Next` result. */
  function GetSecondaryStatCount(q: ItemQuality, draw: nat): (n: nat)
    ensures q == Common ==> n == 0
    ensures q == Uncommon ==> n == 1
    ensures q == Rare ==> 1 <= n <= 2
    ensures q == Epic ==> 2 <= n <= 3
    ensures q == Legendary ==> 3 <= n <= 4
  {
    match q
    case Common => 0
    case Uncommon => Next(1, 2, draw)
    case Rare => Next(1, 3, draw)
    case Epic => Next(2, 4, draw)
    case Legendary => Next(3, 5, draw)
  }

  /** Every count in those ranges does occur for some draw. */
  lemma SecondaryStatCountsReachable(q: ItemQuality, n: nat)
    requires q == Rare ==> 1 <= n <= 2
    requires q == Epic ==> 2 <= n <= 3
    requires q == Legendary ==> 3 <= n <= 4
    requires q == Uncommon ==> n == 1
    requires q == Common ==> n == 0
    ensures exists draw: nat :: GetSecondaryStatCount(q, draw) == n
  {
    var lo := match q case Common => 0 case Uncommon => 1 case Rare => 1 case Epic => 2 case Legendary => 3;
    assert GetSecondaryStatCount(q, n - lo) == n;
  }

  function GetRandomPrefix(q: ItemQuality, draw: nat): (p: string)
    ensures q == Uncommon ==> p in UncommonPrefixes
    ensures q == Rare ==> p in RarePrefixes
    ensures q == Epic ==> p in EpicPrefixes
    ensures |p| > 0 <==> q == Uncommon || q == Rare || q == Epic
  {
    match q
    case Uncommon => UncommonPrefixes[Next(0, 5, draw)]
    case Rare => RarePrefixes[Next(0, 5, draw)]
    case Epic => EpicPrefixes[Next(0, 5, draw)]
    case _ => ""
  }

  function GetRandomSuffix(q: ItemQuality, draw: nat): (s: string)
    ensures q == Uncommon ==> s in UncommonSuffixes
    ensures q == Rare ==> s in RareSuffixes
    ensures q == Epic ==> s in EpicSuffixes
    ensures |s| > 0 <==> q == Uncommon || q == Rare || q == Epic
  {
    match q
    case Uncommon => UncommonSuffixes[Next(0, 5, draw)]
    case Rare => RareSuffixes[Next(0, 5, draw)]
    case Epic => EpicSuffixes[Next(0, 5, draw)]
    case _ => ""
  }

  /** Base names that make a legendary item a weapon. */
  predicate IsWeaponBase(baseName: string) {
    Contains(baseName, "Sword") || Contains(baseName, "Axe") || Contains(baseName, "Bow")
  }

  /** A legendary item is renamed from the weapon list exactly when its base
      name mentions a sword, axe or bow, and from the armor list otherwise. */
  function GetRandomLegendaryName(baseName: string, draw: nat): (name: string)
    ensures name in LegendaryWeaponNames <==> IsWeaponBase(baseName)
    ensures name in LegendaryArmorNames <==> !IsWeaponBase(baseName)
  {
    if IsWeaponBase(baseName) then LegendaryWeaponNames[Next(0, 5, draw)]
    else LegendaryArmorNames[Next(0, 5, draw)]
  }

  /** The item name: the base name, decorated by quality with a prefix and a
      suffix from that quality's lists, or replaced outright for a legendary
      item. */
  function GenerateItemName(baseName: string, q: ItemQuality, prefixDraw: nat, suffixDraw: nat,
                            legendaryDraw: nat): (name: string)
    ensures q == Common ==> name == baseName
    ensures q == Uncommon ==> name == GetRandomPrefix(q, prefixDraw) + " " + baseName
    ensures q == Rare || q == Epic ==>
      name == GetRandomPrefix(q, prefixDraw) + " " + baseName + " " + GetRandomSuffix(q, suffixDraw)
    ensures q == Legendary ==> name == GetRandomLegendaryName(baseName, legendaryDraw)
  {
    var prefix := match q
      case Common => ""
      case Uncommon => GetRandomPrefix(q, prefixDraw)
      case Rare => GetRandomPrefix(q, prefixDraw)
      case Epic => GetRandomPrefix(q, prefixDraw)
      case Legendary => "";
    var suffix := match q
      case Rare => GetRandomSuffix(q, suffixDraw)
      case Epic => GetRandomSuffix(q, suffixDraw)
      case _ => "";
    if q == Legendary then GetRandomLegendaryName(baseName, legendaryDraw)
    else if |prefix| == 0 then (if |suffix| == 0 then baseName else baseName + " " + suffix)
    else (if |suffix| == 0 then prefix + " " + baseName else prefix + " " + baseName + " " + suffix)
  }

  /** The stat an item gets first: fixed by type, except that an accessory
      draws one of the eight possible stats. */
  function PrimaryStatKey(t: ItemType, accessoryDraw: nat): (key: string)
    ensures t == Weapon ==> key == "Damage"
    ensures t == Armor ==> key == "Armor"
    ensures t == Consumable ==> key == "HealAmount"
    ensures t == Accessory ==> key in PossibleStats
  {
    match t
    case Weapon => "Damage"
    case Armor => "Armor"
    case Consumable => "HealAmount"
    case Accessory => PossibleStats[Next(0, |PossibleStats|, accessoryDraw)]
  }

  function AddPrimaryStat(it: Item, value: i32, accessoryDraw: nat): (r: Item)
    ensures var key := PrimaryStatKey(it.itemType, accessoryDraw);
      && GetStat(r, key) == Wrap(GetStat(it, key) + value)
      && forall k :: k != key ==> GetStat(r, k) == GetStat(it, k)
    ensures r.itemType == it.itemType && r.quality == it.quality && r.entity == it.entity
    ensures ValidTable(it.stats) ==> ValidTable(r.stats)
  {
    AddStat(it, PrimaryStatKey(it.itemType, accessoryDraw), value)
  }

  /** The pool secondary stats are drawn from: all possible stats, minus the
      primary one for a weapon or armor that already has it positive. The
      pool holds no repeats. */
  function SecondaryPool(it: Item): (pool: seq<string>)
    ensures Distinct(pool)
    ensures forall k :: k in pool <==>
      && k in PossibleStats
      && !(it.itemType == Weapon && k == "Damage" && GetStat(it, "Damage") > 0)
      && !(it.itemType == Armor && k == "Armor" && GetStat(it, "Armor") > 0)
  {
    var primary := if it.itemType == Weapon then "Damage" else "Armor";
    PossibleStatsDistinct();
    if (it.itemType == Weapon || it.itemType == Armor) && GetStat(it, primary) > 0 then
      var i := IndexOf(PossibleStats, primary);
      RemoveFirstAtIndex(PossibleStats, primary);
      RemoveAtDistinct(PossibleStats, i);
      RemoveAtMembers(PossibleStats, i);
      RemoveFirst(PossibleStats, primary)
    else
      PossibleStats
  }

  /** The eight possible stats are eight different names. */
  lemma PossibleStatsDistinct()
    ensures Distinct(PossibleStats)
  {
  }

  /** One secondary-stat draw: the pool index and the rolled value. */
  datatype StatDraw = StatDraw(pick: nat, value: i32)

  /** The stats the secondary loop takes, in order: while the count lasts and
      the pool is not empty, the drawn index picks a stat and removes it from
      the pool. The pool never depends on the item, so the source's single
      loop is modelled as this choice followed by `AddStats`. The loop also
      stops when the supplied draws run out; with a draw per iteration it
      runs exactly `min(count, |pool|)` times. */
  function SecondaryPicks(pool: seq<string>, count: nat, draws: seq<StatDraw>): (names: seq<string>)
    ensures |names| <= count && |names| <= |pool| && |names| <= |draws|
    ensures |draws| >= count ==> |names| == if count < |pool| then count else |pool|
    ensures forall x :: x in names ==> x in pool
    decreases count
  {
    if count == 0 || |pool| == 0 || |draws| == 0 then []
    else
      var idx := Next(0, |pool|, draws[0].pick);
      var rest := SecondaryPicks(RemoveAt(pool, idx), count - 1, draws[1..]);
      assert forall x :: x in rest ==> x in pool by {
        RemoveAtMembers(pool, idx);
      }
      [pool[idx]] + rest
  }

  /** A stat is never taken twice when the pool holds no repeats. */
  lemma {:induction false} SecondaryPicksDistinct(pool: seq<string>, count: nat, draws: seq<StatDraw>)
    requires Distinct(pool)
    ensures Distinct(SecondaryPicks(pool, count, draws))
    decreases count
  {
    if count > 0 && |pool| > 0 && |draws| > 0 {
      var idx := Next(0, |pool|, draws[0].pick);
      RemoveAtDistinct(pool, idx);
      SecondaryPicksDistinct(RemoveAt(pool, idx), count - 1, draws[1..]);
      var rest := SecondaryPicks(RemoveAt(pool, idx), count - 1, draws[1..]);
      assert pool[idx] !in rest;
      assert SecondaryPicks(pool, count, draws) == [pool[idx]] + rest;
    }
  }

  /** `AddStat` applied to each name in turn, with the matching draw's value. */
  function AddStats(it: Item, names: seq<string>, draws: seq<StatDraw>): (r: Item)
    requires |draws| >= |names|
    ensures r.itemType == it.itemType && r.quality == it.quality && r.entity == it.entity
    ensures r.isEquipped == it.isEquipped
    ensures ValidTable(it.stats) ==> ValidTable(r.stats)
    ensures |r.stats.order| <= |it.stats.order| + |names|
    decreases |names|
  {
    if |names| == 0 then it
    else AddStats(AddStat(it, names[0], draws[0].value), names[1..], draws[1..])
  }

  /** A stat not named keeps its value. */
  lemma {:induction false} AddStatsKeeps(it: Item, names: seq<string>, draws: seq<StatDraw>, k: string)
    requires |draws| >= |names| && k !in names
    ensures GetStat(AddStats(it, names, draws), k) == GetStat(it, k)
    decreases |names|
  {
    if |names| > 0 {
      assert k != names[0] && k !in names[1..];
      AddStatsKeeps(AddStat(it, names[0], draws[0].value), names[1..], draws[1..], k);
    }
  }

  /** When the i-th name occurs nowhere else, that stat ends as `AddStat` of
      the i-th value alone would leave it. */
  lemma {:induction false} AddStatsAddsOnce(it: Item, names: seq<string>, draws: seq<StatDraw>, i: nat)
    requires |draws| >= |names| && i < |names|
    requires forall j :: 0 <= j < |names| && j != i ==> names[j] != names[i]
    ensures GetStat(AddStats(it, names, draws), names[i]) == GetStat(AddStat(it, names[i], draws[i].value), names[i])
    decreases |names|
  {
    var added := AddStat(it, names[0], draws[0].value);
    var rest, ds := names[1..], draws[1..];
    assert AddStats(it, names, draws) == AddStats(added, rest, ds);
    if i == 0 {
      assert names[0] !in rest;
      AddStatsKeeps(added, rest, ds, names[0]);
    } else {
      var key := names[i];
      assert rest[i - 1] == key && ds[i - 1] == draws[i];
      forall j | 0 <= j < |rest| && j != i - 1
        ensures rest[j] != key
      {
        assert rest[j] == names[j + 1];
      }
      AddStatsAddsOnce(added, rest, ds, i - 1);
      assert key != names[0];
      assert GetStat(added, key) == GetStat(it, key);
      AddStatFromValue(added, it, key, draws[i].value);
    }
  }

  /** ... so it grows by the i-th value. */
  lemma AddStatsAdds(it: Item, names: seq<string>, draws: seq<StatDraw>, i: nat)
    requires |draws| >= |names| && i < |names|
    requires forall j :: 0 <= j < |names| && j != i ==> names[j] != names[i]
    ensures GetStat(AddStats(it, names, draws), names[i]) == Wrap(GetStat(it, names[i]) + draws[i].value)
  {
    AddStatsAddsOnce(it, names, draws, i);
  }

  /** Applying the drawn stats to an item: each stat taken grows by its own
      drawn value and every other stat stays, provided no stat is taken twice. */
  lemma AddStatsValues(it: Item, names: seq<string>, draws: seq<StatDraw>)
    requires |draws| >= |names| && Distinct(names)
    ensures var r := AddStats(it, names, draws);
      && (forall i :: 0 <= i < |names| ==> GetStat(r, names[i]) == Wrap(GetStat(it, names[i]) + draws[i].value))
      && (forall k :: k !in names ==> GetStat(r, k) == GetStat(it, k))
  {
    var r := AddStats(it, names, draws);
    forall i | 0 <= i < |names|
      ensures GetStat(r, names[i]) == Wrap(GetStat(it, names[i]) + draws[i].value)
    {
      AddStatsAdds(it, names, draws, i);
    }
    forall k | k !in names
      ensures GetStat(r, k) == GetStat(it, k)
    {
      AddStatsKeeps(it, names, draws, k);
    }
  }

  /** `AddSecondaryStats`: at most `count` stats, one per draw; the item
      keeps its other fields and a well-formed table. Returns the item and
      the stats taken, in order. */
  function AddSecondaryStats(it: Item, count: nat, draws: seq<StatDraw>): (r: (Item, seq<string>))
    ensures |r.1| <= count && |r.1| <= |draws|
    ensures r.0.itemType == it.itemType && r.0.quality == it.quality && r.0.entity == it.entity
    ensures r.0.isEquipped == it.isEquipped
    ensures ValidTable(it.stats) ==> ValidTable(r.0.stats)
    ensures |r.0.stats.order| <= |it.stats.order| + count
  {
    AddSecondaryFrom(it, SecondaryPool(it), count, draws)
  }

  /** The secondary loop over a given pool. */
  function AddSecondaryFrom(it: Item, pool: seq<string>, count: nat, draws: seq<StatDraw>): (r: (Item, seq<string>))
    ensures |r.1| <= count && |r.1| <= |draws|
    ensures r.0.itemType == it.itemType && r.0.quality == it.quality && r.0.entity == it.entity
    ensures r.0.isEquipped == it.isEquipped
    ensures ValidTable(it.stats) ==> ValidTable(r.0.stats)
    ensures |r.0.stats.order| <= |it.stats.order| + count
  {
    var names := SecondaryPicks(pool, count, draws);
    (AddStats(it, names, draws), names)
  }

  /** Each stat taken grows by its own drawn value; every other stat stays. */
  lemma SecondaryValues(it: Item, count: nat, draws: seq<StatDraw>)
    ensures var r := AddSecondaryStats(it, count, draws);
      && (forall i :: 0 <= i < |r.1| ==> GetStat(r.0, r.1[i]) == Wrap(GetStat(it, r.1[i]) + draws[i].value))
      && (forall k :: k !in r.1 ==> GetStat(r.0, k) == GetStat(it, k))
  {
    AddSecondaryFromValues(it, SecondaryPool(it), count, draws);
  }

  lemma AddSecondaryFromValues(it: Item, pool: seq<string>, count: nat, draws: seq<StatDraw>)
    requires Distinct(pool)
    ensures var r := AddSecondaryFrom(it, pool, count, draws);
      && (forall i :: 0 <= i < |r.1| ==> GetStat(r.0, r.1[i]) == Wrap(GetStat(it, r.1[i]) + draws[i].value))
      && (forall k :: k !in r.1 ==> GetStat(r.0, k) == GetStat(it, k))
  {
    SecondaryPicksDistinct(pool, count, draws);
    AddStatsValues(it, SecondaryPicks(pool, count, draws), draws);
  }

  /** The stats taken: none twice, all among the possible stats, never the
      primary stat of a weapon or armor that already has it, and with a draw
      per iteration exactly `min(count, pool size)` of them. */
  lemma SecondaryChoice(it: Item, count: nat, draws: seq<StatDraw>)
    ensures var names := AddSecondaryStats(it, count, draws).1;
      && Distinct(names)
      && (forall x :: x in names ==> x in PossibleStats)
      && (it.itemType == Weapon && GetStat(it, "Damage") > 0 ==> "Damage" !in names)
      && (it.itemType == Armor && GetStat(it, "Armor") > 0 ==> "Armor" !in names)
      && (|draws| >= count ==> |names| == if count < |SecondaryPool(it)| then count else |SecondaryPool(it)|)
  {
    SecondaryPicksDistinct(SecondaryPool(it), count, draws);
  }

  /** Every draw `CreateRandomItem` makes, in one record. */
  datatype ItemDraws = ItemDraws(
    quality: ItemQuality,
    prefix: nat, suffix: nat, legendary: nat,
    primaryValue: i32, primaryKey: nat,
    secondaryCount: nat, secondary: seq<StatDraw>)

  /** A new item named and graded by the draws, with its primary stat and then
      its secondary stats. */
  function CreateRandomItem(baseName: string, t: ItemType, d: ItemDraws): (r: Item)
    ensures r.itemType == t && r.quality == d.quality && !r.isEquipped
    ensures r.entity.name == GenerateItemName(baseName, d.quality, d.prefix, d.suffix, d.legendary)
    ensures ValidTable(r.stats)
    ensures |r.stats.order| <= 1 + GetSecondaryStatCount(d.quality, d.secondaryCount)
  {
    var name := GenerateItemName(baseName, d.quality, d.prefix, d.suffix, d.legendary);
    var it := AddPrimaryStat(NewItem(name, t, d.quality), d.primaryValue, d.primaryKey);
    AddSecondaryStats(it, GetSecondaryStatCount(d.quality, d.secondaryCount), d.secondary).0
  }

  lemma HealAmountNotSecondary()
    ensures "HealAmount" !in PossibleStats
  {
  }

  /** The primary stat keeps its rolled value: no secondary stat can land on
      it (a weapon's or armor's positive primary is taken out of the pool, and
      "HealAmount" is never in it). */
  lemma CreateRandomItemPrimary(baseName: string, t: ItemType, d: ItemDraws)
    ensures var r := CreateRandomItem(baseName, t, d);
      && (t == Weapon && d.primaryValue > 0 ==> GetStat(r, "Damage") == d.primaryValue)
      && (t == Armor && d.primaryValue > 0 ==> GetStat(r, "Armor") == d.primaryValue)
      && (t == Consumable ==> GetStat(r, "HealAmount") == d.primaryValue)
  {
    var name := GenerateItemName(baseName, d.quality, d.prefix, d.suffix, d.legendary);
    var it := AddPrimaryStat(NewItem(name, t, d.quality), d.primaryValue, d.primaryKey);
    var key := PrimaryStatKey(t, d.primaryKey);
    assert GetStat(it, key) == d.primaryValue;
    var r := AddSecondaryStats(it, GetSecondaryStatCount(d.quality, d.secondaryCount), d.secondary);
    SecondaryChoice(it, GetSecondaryStatCount(d.quality, d.secondaryCount), d.secondary);
    SecondaryValues(it, GetSecondaryStatCount(d.quality, d.secondaryCount), d.secondary);
    if t == Consumable {
      HealAmountNotSecondary();
      assert key !in r.1;
    }
  }

  /** `NextDouble() <= DropChance`, with `roll` the draw in [0, 1). */
  predicate Drops(e: LootEntry, roll: real) {
    roll <= e.dropChance
  }

  /** A chance of one always drops; the comparison is `<=`, so even a chance of
      zero drops on a roll of exactly zero. */
  lemma DropDecision(e: LootEntry, roll: real)
    requires 0.0 <= roll < 1.0
    ensures e.dropChance == 1.0 ==> Drops(e, roll)
    ensures e.dropChance == 0.0 ==> (Drops(e, roll) <==> roll == 0.0)
  {
  }

  /** The draws for one table entry: the drop roll in [0, 1) and the draws
      that create the item should it drop. */
  datatype EntryDraw = EntryDraw(roll: real, item: ItemDraws)

  /** The item the generator creates for an entry that drops. */
  function MakeItem(e: LootEntry, d: ItemDraws): (it: Item)
    ensures it.itemType == e.itemType && !it.isEquipped
  {
    CreateRandomItem(e.itemName, e.itemType, d)
  }

  /** Reference definition: one item per entry whose roll succeeds, in table
      order, each created by `make`. */
  function DroppedItems(es: seq<LootEntry>, ds: seq<EntryDraw>, make: (LootEntry, ItemDraws) -> Item): seq<Item>
    requires |ds| == |es|
  {
    if |es| == 0 then []
    else
      (if Drops(es[0], ds[0].roll) then [make(es[0], ds[0].item)] else [])
      + DroppedItems(es[1..], ds[1..], make)
  }

  /** Number of entries whose roll succeeds. */
  function DropCount(es: seq<LootEntry>, ds: seq<EntryDraw>): nat
    requires |ds| == |es|
  {
    if |es| == 0 then 0 else (if Drops(es[0], ds[0].roll) then 1 else 0) + DropCount(es[1..], ds[1..])
  }

  /** One more entry adds its item at the end exactly when its roll succeeds. */
  lemma {:induction false} DroppedItemsAppend(es: seq<LootEntry>, ds: seq<EntryDraw>, e: LootEntry, d: EntryDraw,
                                              make: (LootEntry, ItemDraws) -> Item)
    requires |ds| == |es|
    ensures DroppedItems(es + [e], ds + [d], make) ==
      DroppedItems(es, ds, make) + (if Drops(e, d.roll) then [make(e, d.item)] else [])
    ensures DropCount(es + [e], ds + [d]) == DropCount(es, ds) + (if Drops(e, d.roll) then 1 else 0)
  {
    if |es| > 0 {
      assert (es + [e])[1..] == es[1..] + [e];
      assert (ds + [d])[1..] == ds[1..] + [d];
      DroppedItemsAppend(es[1..], ds[1..], e, d, make);
    }
  }

  /** As many items as successful rolls, so never more than there are entries. */
  lemma {:induction false} DroppedItemsCount(es: seq<LootEntry>, ds: seq<EntryDraw>, make: (LootEntry, ItemDraws) -> Item)
    requires |ds| == |es|
    ensures |DroppedItems(es, ds, make)| == DropCount(es, ds) <= |es|
  {
    if |es| > 0 {
      DroppedItemsCount(es[1..], ds[1..], make);
    }
  }

  /** The positions of the entries whose roll succeeds, in increasing order. */
  function DropIndices(es: seq<LootEntry>, ds: seq<EntryDraw>): (idx: seq<nat>)
    requires |ds| == |es|
    ensures forall k :: 0 <= k < |idx| ==> idx[k] < |es|
    decreases |es|
  {
    if |es| == 0 then []
    else
      var n := |es| - 1;
      DropIndices(es[..n], ds[..n]) + (if Drops(es[n], ds[n].roll) then [n] else [])
  }

  /** Exactly the entries whose roll succeeds are listed, each once, in
      increasing order. */
  lemma {:induction false} DropIndicesExact(es: seq<LootEntry>, ds: seq<EntryDraw>)
    requires |ds| == |es|
    ensures var idx := DropIndices(es, ds);
      && (forall k, m :: 0 <= k < m < |idx| ==> idx[k] < idx[m])
      && (forall i :: 0 <= i < |es| ==> (i in idx <==> Drops(es[i], ds[i].roll)))
  {
    if |es| > 0 {
      var n := |es| - 1;
      DropIndicesExact(es[..n], ds[..n]);
      var idx := DropIndices(es[..n], ds[..n]);
      assert n !in idx;
      forall i | 0 <= i < n
        ensures es[..n][i] == es[i] && ds[..n][i] == ds[i]
      {
      }
    }
  }

  /** The k-th item is the one made for the k-th entry whose roll succeeds:
      every item comes from a dropping entry, and in table order. */
  lemma {:induction false} DroppedItemsIndexed(es: seq<LootEntry>, ds: seq<EntryDraw>, make: (LootEntry, ItemDraws) -> Item)
    requires |ds| == |es|
    ensures var idx := DropIndices(es, ds);
      && |DroppedItems(es, ds, make)| == |idx|
      && forall k :: 0 <= k < |idx| ==>
           DroppedItems(es, ds, make)[k] == make(es[idx[k]], ds[idx[k]].item)
  {
    if |es| > 0 {
      var n := |es| - 1;
      DroppedItemsIndexed(es[..n], ds[..n], make);
      assert es == es[..n] + [es[n]];
      assert ds == ds[..n] + [ds[n]];
      DroppedItemsAppend(es[..n], ds[..n], es[n], ds[n], make);
      var idx, front := DropIndices(es[..n], ds[..n]), DroppedItems(es[..n], ds[..n], make);
      var last := if Drops(es[n], ds[n].roll) then [n] else [];
      assert DropIndices(es, ds) == idx + last;
      assert DroppedItems(es, ds, make) == front + (if Drops(es[n], ds[n].roll) then [make(es[n], ds[n].item)] else []);
      forall k | 0 <= k < |idx + last|
        ensures DroppedItems(es, ds, make)[k] == make(es[(idx + last)[k]], ds[(idx + last)[k]].item)
      {
        if k < |idx| {
          assert front[k] == make(es[..n][idx[k]], ds[..n][idx[k]].item);
        }
      }
    }
  }

  /** `GenerateLoot`: walks the table once, creating an item for every entry
      whose drop roll succeeds. */
  method GenerateLoot(table: LootTable, draws: seq<EntryDraw>) returns (loot: seq<Item>)
    requires |draws| == |GetEntries(table)|
    ensures loot == DroppedItems(GetEntries(table), draws, MakeItem)
    ensures |loot| == DropCount(GetEntries(table), draws) <= |GetEntries(table)|
  {
    var es := GetEntries(table);
    loot := [];
    var i := 0;
    while i < |es|
      invariant 0 <= i <= |es|
      invariant loot == DroppedItems(es[..i], draws[..i], MakeItem)
    {
      DroppedItemsAppend(es[..i], draws[..i], es[i], draws[i], MakeItem);
      assert es[..i + 1] == es[..i] + [es[i]];
      assert draws[..i + 1] == draws[..i] + [draws[i]];
      if Drops(es[i], draws[i].roll) {
        loot := loot + [MakeItem(es[i], draws[i].item)];
      }
      i := i + 1;
    }
    assert es[..i] == es && draws[..i] == draws;
    DroppedItemsCount(es, draws, MakeItem);
  }
}
