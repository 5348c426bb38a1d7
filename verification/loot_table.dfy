/** Core/Loot/LootTable.cs: the list of items a creature may drop, each with a
    name, a type and a drop chance in [0, 1]. */
module LootTables {
  import opened Items

  datatype LootEntry = LootEntry(itemName: string, itemType: ItemType, dropChance: real)

  datatype LootTable = LootTable(entries: seq<LootEntry>)

  /** `Math.Clamp(c, 0, 1)`. */
  function ClampChance(c: real): (r: real)
    ensures 0.0 <= r <= 1.0
    ensures 0.0 <= c <= 1.0 ==> r == c
    ensures c < 0.0 ==> r == 0.0
    ensures c > 1.0 ==> r == 1.0
  {
    if c < 0.0 then 0.0 else if c > 1.0 then 1.0 else c
  }

  /** Clamping twice is clamping once. */
  lemma ClampIdempotent(c: real)
    ensures ClampChance(ClampChance(c)) == ClampChance(c)
  {
  }

  /** The entry constructor stores the name and type and clamps the chance. */
  function NewLootEntry(itemName: string, itemType: ItemType, dropChance: real): (e: LootEntry)
    ensures e.itemName == itemName && e.itemType == itemType
    ensures 0.0 <= e.dropChance <= 1.0
    ensures 0.0 <= dropChance <= 1.0 ==> e.dropChance == dropChance
    ensures dropChance < 0.0 ==> e.dropChance == 0.0
    ensures dropChance > 1.0 ==> e.dropChance == 1.0
  {
    LootEntry(itemName, itemType, ClampChance(dropChance))
  }

  function EmptyTable(): (t: LootTable)
    ensures GetEntries(t) == []
  {
    LootTable([])
  }

  /** `AddEntry(entry)`: one more entry, at the end. */
  function AddEntry(t: LootTable, e: LootEntry): (r: LootTable)
    ensures |GetEntries(r)| == |GetEntries(t)| + 1
    ensures GetEntries(r)[..|GetEntries(t)|] == GetEntries(t)
    ensures GetEntries(r)[|GetEntries(t)|] == e
  {
    LootTable(t.entries + [e])
  }

  /** `AddEntry(name, type, chance)`: the same, building the entry first. */
  function AddNewEntry(t: LootTable, itemName: string, itemType: ItemType, dropChance: real): (r: LootTable)
    ensures |GetEntries(r)| == |GetEntries(t)| + 1
    ensures GetEntries(r)[..|GetEntries(t)|] == GetEntries(t)
    ensures GetEntries(r)[|GetEntries(t)|] == NewLootEntry(itemName, itemType, dropChance)
  {
    AddEntry(t, NewLootEntry(itemName, itemType, dropChance))
  }

  function GetEntries(t: LootTable): seq<LootEntry> {
    t.entries
  }

  /** Adding a sequence of entries one after another. */
  function AddAll(t: LootTable, es: seq<LootEntry>): LootTable
    decreases |es|
  {
    if |es| == 0 then t else AddAll(AddEntry(t, es[0]), es[1..])
  }

  /** The entries come back in the order they were added. */
  lemma {:induction false} InsertionOrder(t: LootTable, es: seq<LootEntry>)
    ensures GetEntries(AddAll(t, es)) == GetEntries(t) + es
    decreases |es|
  {
    if |es| > 0 {
      InsertionOrder(AddEntry(t, es[0]), es[1..]);
      assert GetEntries(AddEntry(t, es[0])) == GetEntries(t) + [es[0]];
      assert GetEntries(t) + [es[0]] + es[1..] == GetEntries(t) + es;
    }
  }
}
