# AsciiAscendant game rules in Dafny

This project models the game-rule layer of AsciiAscendant, a terminal
roguelike written in C#. It covers:

- the tile grid and its passability;
- creatures, the player and the basic enemy (movement, combat, experience,
  chasing, wandering);
- skill cooldowns;
- items and their stat table, loot tables and the loot generator;
- the bookkeeping in `GameState`: spawning the first goblins, adding and
  removing enemies, one round of enemy updates, and pruning finished
  animations.

Modelling choices:

- **Values, not objects.** Everything is an immutable datatype. A mutating
  C# method becomes a function that returns the new value. Where a method
  changes two objects (an attack, `UseSkill`), both new values are returned.
- **32-bit integers.** Every stored `int` is an `Ints.i32`. Each `+=`, `-=`
  and `++` on a stored field goes through `Ints.Wrap`, which is unchecked
  two's-complement wrap-around. Contracts state the exact arithmetic result
  under a no-overflow guard.
- **Randomness.** Every draw from `System.Random` is an explicit parameter.
  `Random.Next(lo, hi)` is `Ints.Next(lo, hi, draw)`. `Ints.NextCoversRange`
  shows every value in the range is reachable, so no behaviour is lost.
- **`MoveTo`.** `GameState` calls `MoveTo` to place the player and new
  enemies, but none of `Entity`, `Creature`, `Player`, `Enemy` and
  `BasicEnemy` defines it. It is modelled as a plain position
  setter (`Game.PlacePlayer`, `Game.PlaceEnemy`).
- **Enemy references.** `GameState.Enemies` is a list of references. The
  model keeps an object store `objects` and lists indices into it.
  `List.Remove` therefore compares identities, and the same enemy may be
  listed twice.
- **The spawn loop.** The unbounded `do … while` rejection loop reads
  candidates from a finite stream. Running out of candidates is an explicit
  error (`CandidatesExhausted`); the source would keep drawing instead.
- **The stat dictionary.** `Item.Stats` only ever grows, so it enumerates in
  insertion order. It is modelled as a map plus the list of its keys in
  arrival order.

## Model

| member | source | states |
|---|---|---|
| `Tiles.SetType` | Core/Tile.cs:15-22 | after the setter the tile behaves exactly like a fresh tile of the new type (same passability and symbol); passability changes only when the blocking class of the type changes |
| `Tiles.PassableTypes` | Core/Tile.cs:16 | a tile is passable iff its type is Floor or Door, i.e. neither Wall nor Water |
| `Tiles.SymbolDeterminesTile` | Core/Tile.cs:24-34 | Floor ' ', Wall '#', Door '+', Water '~' are four distinct symbols, so equal symbols mean equal tiles and equal passability |
| `Tiles.PassableBySymbol` | Core/Tile.cs:16-17 | passability can be read off the symbol: passable iff the symbol is neither '#' nor '~' |
| `Maps.NewMap` | Core/Map.cs:12-38 | negative sizes fail (negative array size); exactly one zero side fails on the first border write (index -1); otherwise the grid is exactly width × height, every border cell is Wall and every interior cell is Floor |
| `Maps.IsPassable` | Core/Map.cs:41-50 | false for any cell outside [0,W)×[0,H); inside, the tile's own passability |
| `Maps.SetTileType` | Core/Map.cs:8-10 | writing one tile's type keeps the dimensions and every other cell, and makes that cell passable iff the new type is Floor or Door |
| `Maps.FreshMapPassability` | Core/Map.cs:19-50 | on a freshly built map a cell is passable iff 0 < x < W-1 and 0 < y < H-1 |
| `Entities.NewEntity` | Core/Entities/Entity.cs:7-15 | the given name and symbol are stored unchanged and the entity starts at (0, 0) |
| `Entities.CanMoveTo` | Core/Entities/Entity.cs:17-20 | an entity may enter a cell iff the cell is in bounds and its tile is passable, so never a cell outside the map |
| `Entities.Update` | Core/Entities/Entity.cs:22-25 | the base update leaves name, symbol and position as they were |
| `Creatures.NewCreature` | Core/Entities/Creature.cs:12-18 | a new creature has health equal to its maximum health and the given damage |
| `Creatures.TakeDamage` | Core/Entities/Creature.cs:36-43 | health becomes max(0, health − amount) (exactly, when the subtraction does not overflow), is never negative, and nothing else changes |
| `Creatures.DamageAndLife` | Core/Entities/Creature.cs:36-45 | non-negative damage never revives a dead creature; a living one stays alive iff its health exceeds the damage |
| `Creatures.Attack` | Core/Entities/Creature.cs:31-34 | the target loses exactly the attacker's damage, clamped at zero, and keeps everything else; the attacker is not returned, so it cannot change |
| `Creatures.Move` | Core/Entities/Creature.cs:20-29 | the creature either stays or lands on (x+dx, y+dy); a changed position is in bounds and passable; nothing but the position changes |
| `Creatures.MoveOutcome` | Core/Entities/Creature.cs:20-29 | the target cell is (x+dx, y+dy) when no overflow occurs, and the creature ends there iff that cell is passable (or it is the current cell) |
| `Skills.NewSkill` | Core/Skill.cs:12-23 | a new skill stores name, damage and cooldown, has counter 0 and can be used |
| `Skills.Use` | Core/Skill.cs:25-31 | a usable skill gets counter := cooldown; an unusable skill is unchanged; name, damage and cooldown never change |
| `Skills.UpdateCooldown` | Core/Skill.cs:33-39 | a positive counter drops by one, otherwise nothing changes; a non-negative counter never goes negative |
| `Skills.CooldownInRangePreserved` | Core/Skill.cs:25-39 | 0 ≤ counter ≤ cooldown is kept by both `Use` and `UpdateCooldown` |
| `Skills.TicksCountDown` | Core/Skill.cs:33-39 | after n ticks the counter is max(0, counter − n) and the fixed fields are unchanged |
| `Skills.ReadyAfterCooldown` | Core/Skill.cs:20-39 | after a use, the skill is usable again after exactly `cooldown` ticks and not before |
| `Players.NewPlayer` | Core/Player.cs:13-31 | "Player" '@' with 100/100 health and 10 damage, level 1, no experience, skills [Slash(5,1), Fireball(15,3)], all usable |
| `Players.LevelUp` | Core/Player.cs:45-53 | level +1, maximum health +10, health refilled to the new maximum, damage +2; experience, skills and position unchanged |
| `Players.Threshold` | Core/Player.cs:38 | the threshold is Level × 100 whenever that product fits in 32 bits |
| `Players.GainExperience` | Core/Player.cs:33-43 | experience grows by the amount (32-bit); the level changes iff the new total reaches Level*100, by one `LevelUp`; skills are kept |
| `Players.GainExperienceExact` | Core/Player.cs:33-53 | without overflow, experience becomes old + amount, and the player levels up once, with all its effects, iff the total reaches Level*100 |
| `Players.ExperienceAccumulates` | Core/Player.cs:35 | two gains in a row add up; experience is never reset |
| `Players.UseSkill` | Core/Player.cs:55-66 | an index out of range or a skill on cooldown changes neither player nor target; otherwise the target takes the skill's damage, the used skill becomes exactly its `Use` (counter := cooldown), and every other skill and player field is unchanged |
| `Enemies.NewEnemy` | Core/Entities/Enemy.cs:12-17 | an enemy is a creature at full health that also stores its experience value and detection range |
| `Enemies.NewBasicEnemy` | Core/Entities/BasicEnemy.cs:10-11 | a basic enemy has symbol 'E', detection range 8, full health and the given stats, at (0, 0) |
| `Enemies.CanSeePlayer` | Core/Entities/Enemy.cs:21-28 | the detection disc lies between two squares: every cell within taxicab distance R is seen, no cell beyond king-move distance R is, and the enemy's own cell is seen iff R ≥ 0 |
| `Enemies.RadiusBetweenSquares` | Core/Entities/Enemy.cs:23-27 | for distances dx, dy ≥ 0: dx+dy ≤ R implies dx²+dy² ≤ R², and dx²+dy² ≤ R² with R ≥ 0 implies dx ≤ R and dy ≤ R |
| `Enemies.RadiusMatchesSquareRoot` | Core/Entities/Enemy.cs:21-28 | sqrt(n) ≤ R holds iff R ≥ 0 and n ≤ R², for every natural n |
| `Enemies.CanSeePlayerIsSquareRootTest` | Core/Entities/Enemy.cs:21-28 | the enemy sees the player iff the exact square root of dx²+dy² is at most the detection range, which is the source's `Math.Sqrt` test |
| `Enemies.WithinRadiusSymmetric` | Core/Entities/Enemy.cs:23-27 | detection is symmetric in the two positions and depends only on the absolute coordinate differences |
| `Enemies.IsAdjacentTo` | Core/Entities/BasicEnemy.cs:67-74 | adjacency holds iff the king-move distance is at most one, the enemy's own cell included |
| `Enemies.ChaseStep` | Core/Entities/BasicEnemy.cs:47-48 | each step component is in {−1, 0, 1} and points toward the player (its product with the difference is the absolute difference); it is 0 on an axis exactly when that coordinate already matches, as `Math.Sign(0)` is 0 |
| `Enemies.MoveTowardPlayer` | Core/Entities/BasicEnemy.cs:45-52 | the enemy moves by the sign step of `ChaseStep` when that cell is passable and otherwise stays; nothing but its position changes |
| `Enemies.ChaseNeverRecedes` | Core/Entities/BasicEnemy.cs:45-52 | after a successful chase step each coordinate distance falls by one where non-zero and stays zero where zero, so the king-move distance never grows |
| `Enemies.CardinalStep` | Core/Entities/BasicEnemy.cs:58-64 | directions 0..3 (N, E, S, W) are each a unit step along one axis |
| `Enemies.CardinalStepsDistinct` | Core/Entities/BasicEnemy.cs:58-64 | the four directions try four different neighbours |
| `Enemies.RandomMove` | Core/Entities/BasicEnemy.cs:54-65 | the enemy moves one step in the drawn cardinal direction when that cell is passable and otherwise stays; nothing but its position changes |
| `Enemies.TakeDamage` | Core/Entities/Enemy.cs:30-36 | the enemy override has the creature's effect on health: lowered by the amount, clamped at zero; nothing but health changes |
| `Items.ItemSymbolsDistinct` | Core/Loot/Item.cs:67-77 | Weapon '⚒', Armor '⛨', Consumable '⚱' and Accessory '◎' are four distinct symbols |
| `Items.NewItem` | Core/Loot/Item.cs:32-38 | a new item has the type's symbol, the given name, type and quality, an empty stat table (every stat reads 0) and is not equipped |
| `Items.Lookup` | Core/Loot/Item.cs:91-94 | a present key reads its value, an absent key reads 0 |
| `Items.GetStat` | Core/Loot/Item.cs:91-94 | a stat the item has reads its stored value, any other stat reads 0 |
| `Items.Accumulate` | Core/Loot/Item.cs:79-89 | the key's value becomes old value + amount (0 when absent), every other key keeps its value, a new key joins the end of the order, and the table stays well formed |
| `Items.AddStat` | Core/Loot/Item.cs:79-89 | `GetStat(key)` grows by the value, every other stat and every other item field is unchanged |
| `Items.AddStatFromValue` | Core/Loot/Item.cs:79-89 | what `AddStat` makes of a stat depends only on that stat's old value |
| `Items.StatLineSign` | Core/Loot/Item.cs:116-117 | a stat line starts with '+' iff the value is positive, and with '-' iff it is negative |
| `Items.DescriptionLineCount` | Core/Loot/Item.cs:110-121 | the description starts with the header "Name (Quality Type)\n" and has exactly 1 + (number of stats) line breaks |
| `Items.StatLinesBreaks` | Core/Loot/Item.cs:114-118 | the stat lines contribute one line break per stat |
| `Items.HeaderBreaks` | Core/Loot/Item.cs:112 | the header holds exactly one line break |
| `Items.GetDescription` | Core/Loot/Item.cs:110-121 | the description begins with the item's name and ends with a line break |
| `Items.StatLinesEnd` | Core/Loot/Item.cs:114-118 | the stat lines are empty or end with a line break |
| `LootTables.ClampChance` | Core/Loot/LootTable.cs:17 | the stored chance lies in [0, 1]; an in-range chance is kept; below 0 gives 0 and above 1 gives 1 |
| `LootTables.ClampIdempotent` | Core/Loot/LootTable.cs:17 | clamping an already clamped chance changes nothing |
| `LootTables.NewLootEntry` | Core/Loot/LootTable.cs:13-18 | name and type are stored unchanged; the chance is kept inside [0, 1], becomes 0 below it and 1 above it |
| `LootTables.AddEntry` | Core/Loot/LootTable.cs:26-29 | one entry more, appended at the end, with all earlier entries unchanged |
| `LootTables.AddNewEntry` | Core/Loot/LootTable.cs:31-34 | the same for an entry built from name, type and clamped chance |
| `LootTables.InsertionOrder` | Core/Loot/LootTable.cs:36-39 | entries come back in exactly the order they were added |
| `LootGenerator.GetQualityMultiplier` | Core/Loot/LootGenerator.cs:247-258 | the multiplier lies in 1..5 |
| `LootGenerator.MultiplierStrictlyIncreasing` | Core/Loot/LootGenerator.cs:247-258 | a better quality always has a larger multiplier, and conversely |
| `LootGenerator.GetSecondaryStatCount` | Core/Loot/LootGenerator.cs:233-244 | Common 0, Uncommon 1, Rare 1..2, Epic 2..3, Legendary 3..4 |
| `LootGenerator.SecondaryStatCountsReachable` | Core/Loot/LootGenerator.cs:238-241 | every count in those ranges comes from some draw |
| `LootGenerator.GetRandomPrefix` | Core/Loot/LootGenerator.cs:118-135 | the prefix comes from the list of its quality, and is empty exactly for Common and Legendary |
| `LootGenerator.GetRandomSuffix` | Core/Loot/LootGenerator.cs:138-155 | the suffix comes from the list of its quality, and is empty exactly for Common and Legendary |
| `LootGenerator.GetRandomLegendaryName` | Core/Loot/LootGenerator.cs:158-171 | the name is a weapon name iff the base contains "Sword", "Axe" or "Bow", and an armor name otherwise |
| `LootGenerator.GenerateItemName` | Core/Loot/LootGenerator.cs:86-115 | Common keeps the base name, Uncommon gives "prefix base", Rare and Epic give "prefix base suffix", Legendary gives a legendary name |
| `LootGenerator.PrimaryStatKey` | Core/Loot/LootGenerator.cs:179-194 | Weapon → "Damage", Armor → "Armor", Consumable → "HealAmount", Accessory → one of the eight possible stats |
| `LootGenerator.AddPrimaryStat` | Core/Loot/LootGenerator.cs:174-195 | the primary stat of the type grows by the rolled value and no other stat changes |
| `LootGenerator.SecondaryPool` | Core/Loot/LootGenerator.cs:203-209 | the pool holds no repeats, and a stat is in it iff it is one of the eight possible stats and not the positive primary stat of a weapon ("Damage") or an armor ("Armor") |
| `LootGenerator.SecondaryPicks` | Core/Loot/LootGenerator.cs:212-229 | at most `count` names, all from the pool; with a draw per iteration exactly min(count, pool size) |
| `LootGenerator.SecondaryPicksDistinct` | Core/Loot/LootGenerator.cs:218-228 | removing each pick from the pool means no stat is picked twice |
| `LootGenerator.AddStatsValues` | Core/Loot/LootGenerator.cs:222-225 | with distinct names, each named stat grows by its own drawn value and every other stat keeps its value |
| `LootGenerator.AddSecondaryStats` | Core/Loot/LootGenerator.cs:198-230 | at most `count` stats are added, the item's other fields are kept and its table stays well formed |
| `LootGenerator.SecondaryValues` | Core/Loot/LootGenerator.cs:198-230 | each stat taken grows by its own drawn value and every stat not taken is unchanged |
| `LootGenerator.SecondaryChoice` | Core/Loot/LootGenerator.cs:203-229 | the stats taken are distinct, among the possible stats, never the positive primary of a weapon or armor, and min(count, pool size) many |
| `LootGenerator.CreateRandomItem` | Core/Loot/LootGenerator.cs:43-60 | the item has the entry's type, the drawn quality, the generated name, is not equipped, and has at most 1 + secondary-count stats |
| `LootGenerator.CreateRandomItemPrimary` | Core/Loot/LootGenerator.cs:53-57 | the primary stat keeps exactly its rolled value: no secondary stat lands on it |
| `LootGenerator.DropDecision` | Core/Loot/LootGenerator.cs:31 | a chance of 1 always drops; because the test is `<=`, a chance of 0 drops only on a roll of exactly 0 |
| `LootGenerator.DroppedItemsCount` | Core/Loot/LootGenerator.cs:28-37 | there are as many items as successful rolls, never more than the entries |
| `LootGenerator.DropIndicesExact` | Core/Loot/LootGenerator.cs:28-37 | the dropping entries are listed exactly, each once, in increasing order |
| `LootGenerator.DroppedItemsIndexed` | Core/Loot/LootGenerator.cs:28-37 | the k-th item is made from the k-th entry whose roll succeeded, so items come in table order and only from dropping entries |
| `LootGenerator.GenerateLoot` | Core/Loot/LootGenerator.cs:24-40 | the loop's result is the reference list of dropped items, one per successful roll, at most one per entry |
| `Game.PlaceEnemy` | Core/GameState.cs:53 | `MoveTo` sets the enemy's position and keeps its stats |
| `Game.PlacePlayer` | Core/GameState.cs:23 | `MoveTo` sets the player's position and keeps its stats, experience, level and skills |
| `Game.AddEnemy` | Core/GameState.cs:58-61 | the enemy is appended after the unchanged list and nothing else in the state changes |
| `Game.RemoveEnemy` | Core/GameState.cs:63-66 | the list shrinks by exactly one iff the enemy is listed; an unlisted enemy leaves the state unchanged; nothing but the list changes |
| `Game.RemoveEnemyCounts` | Core/GameState.cs:63-66 | as a multiset, the list loses exactly one copy of the enemy (none if it is unlisted) |
| `Game.RemoveEnemyKeepsOrder` | Core/GameState.cs:63-66 | it is the first listing that goes, and the enemies before and after it keep their order |
| `Game.RemoveUndoesAdd` | Core/GameState.cs:58-66 | removing a newly added, previously unlisted enemy restores the state |
| `Game.TakeTurn` | Core/Entities/BasicEnemy.cs:22-43 | a dead enemy does nothing; a living one chases if it sees the player and wanders otherwise; the player is attacked only when the enemy sees the player and is adjacent after moving; no other enemy and no health of an enemy changes |
| `Game.Die` | Core/Entities/Enemy.cs:38-48 | the player becomes `GainExperience` of the enemy's experience value (a wrapping 32-bit addition) and the list becomes `RemoveEnemy`'s list; the enemy objects are untouched |
| `Game.Visit` | Core/GameState.cs:73-86 | each visit is a death exactly for a dead enemy and a turn otherwise; no enemy's health changes; a turn keeps the list and a death removes that enemy's first listing |
| `Game.Round` | Core/GameState.cs:71-86 | a round of visits keeps the state valid, keeps every enemy's health and experience value, and leaves map and animations untouched |
| `Game.RoundStep` | Core/GameState.cs:73-86 | a round over k+1 enemies is the round over the first k followed by one more visit |
| `Game.SurvivorsMembers` | Core/GameState.cs:71-86 | an enemy is among the survivors iff it is listed and alive |
| `Game.SurvivorsExcludeDead` | Core/GameState.cs:78-85 | a dead enemy never survives the round |
| `Game.SurvivorsIncludeLiving` | Core/GameState.cs:78-85 | every listed living enemy survives the round |
| `Game.ActionsShape` | Core/GameState.cs:73-86 | the k-th action of a round is about the k-th enemy of the snapshot and is a death iff that enemy is dead |
| `Game.UpdateStep` | Core/GameState.cs:78-85 | if the list is the survivors of the first k−1 visited entries followed by the k-th and the rest, the k-th visit leaves the survivors of the first k followed by the rest |
| `Game.VisitList` | Core/GameState.cs:78-85 | one visit extends that invariant by one snapshot entry: the entry stays iff its enemy was alive at the start of the round |
| `Game.RoundList` | Core/GameState.cs:71-86 | after visiting a prefix of the snapshot, the list is the survivors of that prefix followed by the unvisited entries, in order |
| `Game.RoundSurvivors` | Core/GameState.cs:68-87 | after the whole round the list is exactly the survivors, in their original order |
| `Game.VisitPays` | Core/Entities/Enemy.cs:38-41 | a visit adds the enemy's experience value to the player's (wrapping) iff the enemy was dead at the start of the round, and nothing otherwise |
| `Game.RoundPaid` | Core/GameState.cs:71-86 | over a round the player's experience follows one wrapping addition per dead enemy of the snapshot, in list order |
| `Game.PaidIsWrappedSum` | Core/Player.cs:35 | wrapping after every payment equals wrapping the start plus the exact sum of the dead enemies' experience values once |
| `Game.ActionsStep` | Core/GameState.cs:78-85 | the k-th visit, judged on the state it finds, takes the reference action: no earlier visit changed that enemy's health |
| `Game.UpdateEnemies` | Core/GameState.cs:68-87 | every enemy of the start-of-round snapshot is visited once, in order, and the result is the reference round; exactly the enemies dead at the start die; the list ends as the survivors in their original order; the player's experience grows by one wrapping addition per dead enemy; enemy health is unchanged |
| `Game.CandidatePoint` | Core/GameState.cs:46-47 | a candidate cell lies in [5, W−5)×[5, H−5), the upper bound reached only by a side of exactly 10 |
| `Game.AcceptSpawn` | Core/GameState.cs:48-49 | a cell is accepted iff it is passable and its king-move distance from the player is at least 10, so it is in bounds and never the player's cell |
| `Game.CountAccepted` | Core/GameState.cs:44-49 | the number of acceptable candidates never exceeds the number of candidates |
| `Game.FindSpawn` | Core/GameState.cs:44-49 | the first acceptable candidate is taken: it is passable and outside the 19×19 box around the player, every earlier candidate is rejected, and the rest of the stream follows it; failure means no candidate is acceptable |
| `Game.Goblin` | Core/GameState.cs:52-53 | the k-th goblin is named "Goblin k+1", a basic enemy with 20 health, 5 damage and 25 experience, at the given cell |
| `Game.GoblinOnCandidate` | Core/GameState.cs:44-53 | a goblin built on an accepted candidate satisfies every spawn guarantee |
| `Game.SpawnGoblins` | Core/GameState.cs:40-55 | five goblins, each good for its number, exist iff the stream holds at least five acceptable candidates |
| `Game.SpawnInitialEnemies` | Core/GameState.cs:35-56 | a side shorter than ten fails; otherwise it fails iff fewer than five candidates are acceptable; on success five good goblins are stored after the old objects and listed after the old enemies, and nothing else changes |
| `Game.NewGameState` | Core/GameState.cs:15-33 | a 90×50 walled room, the player at (45, 25), no animations and five good goblins listed 0..4; only a short candidate stream can make it fail |
| `Game.StartsCompleted` | Core/Animations/ProjectileAnimation.cs:42-59 | a projectile fired at its own cell is complete as soon as it is built |
| `Game.StartsCompletedNear` | Core/Animations/ProjectileAnimation.cs:42-59 | for cells less than 2^15 apart on each axis, a projectile starts complete iff it is fired at its own cell |
| `Game.CreateProjectile` | Core/GameState.cs:119-135 | one projectile of the given kind goes at the end of the list, aimed at the enemy's current cell and carrying the damage, complete at once iff `StartsCompleted`; nothing else changes |
| `Game.Advance` | Core/Animations/ProjectileAnimation.cs:62-88 | an update completes the animation iff it was complete or the projectile arrives in this update, and changes nothing else |
| `Game.Hit` | Core/Animations/ProjectileAnimation.cs:98-111 | a strike damages its target enemy iff that enemy is alive, as `Enemy.TakeDamage` does; every other enemy is untouched |
| `Game.HitsStep` | Core/GameState.cs:92-101 | the strikes of the animations from slot i on are the strike of slot i, if it lands, on the store the later slots left |
| `Game.HitsSpareUntargeted` | Core/Animations/ProjectileAnimation.cs:104-111 | an enemy that no landing projectile targets is untouched |
| `Game.HitsSpareDead` | Core/Animations/ProjectileAnimation.cs:104-111 | a dead enemy is untouched: strikes on it are ignored |
| `Game.HitsOnlyHealth` | Core/Animations/ProjectileAnimation.cs:104-111 | strikes change only health; entity, maximum health, damage, experience value and detection range are kept |
| `Game.HitsNeverHeal` | Core/Animations/ProjectileAnimation.cs:104-111 | strikes of non-negative damage leave an enemy's health between zero and its old value |
| `Game.UpdatedAll` | Core/GameState.cs:94-95 | every animation is replaced by its update, each slot with its own arrival outcome |
| `Game.UpdatedAllSplit` | Core/GameState.cs:92-95 | updating the list is updating the slots before k, slot k and the slots after k |
| `Game.TwinsAdvanceApart` | Core/Animations/ProjectileAnimation.cs:62-88 | of two identical projectiles in flight, the first can land while the second keeps flying: the target takes one strike and one of them stays listed |
| `Game.RunningMembers` | Core/GameState.cs:92-102 | an animation is kept iff it is present and not completed |
| `Game.RunningAppend` | Core/GameState.cs:92-102 | pruning works piecewise, so kept animations keep their relative order |
| `Game.RunningIdempotent` | Core/GameState.cs:92-102 | pruning a pruned list changes nothing |
| `Game.StrikersRemoved` | Core/GameState.cs:92-102 | the slot whose projectile strikes in an update leaves the list, and only that slot: the result is the running animations of the slots before it followed by those of the slots after it |
| `Game.PruneStep` | Core/GameState.cs:92-102 | one backward step, removing at index i or storing the update there, extends the pruned suffix by one position |
| `Game.PruneCompleted` | Core/GameState.cs:92-102 | the backward loop leaves exactly the running animations after their update, in order, and no completed one; the store ends as after every landing strike, the last animation's first |
| `Game.UpdateAnimations` | Core/GameState.cs:89-102 | the animations become their pruned, updated list and the enemy store takes every landing strike; player, map and list are unchanged and a valid state stays valid |
| `Ints.NextCoversRange` | Core/GameState.cs:46-47 | every value of `Random.Next(lo, hi)` is reached by some draw, so draw parameters lose no behaviour |

## Left out

- **Outside the model.** The user interface (`UI/*`), the engine loop
  (`Engine/Game/GameEngine.cs`, `Program.cs`) and console logging
  (`Console.WriteLine`) have no effect on the game rules.
- **Projectile flight.** A projectile moves on wall-clock time and
  floating-point positions, each projectile with its own clock. Whether an
  update brings the projectile in slot k within one cell of its target cell is
  `reaches[k]`, one outcome per slot, a parameter of `Game.UpdateAnimations`.
  The projectile's drawn position, symbol, colour, accumulated time and last
  update time are not kept.
- **Null targets.** `ProjectileAnimation` accepts a null target, but both
  `CreateFireballAnimation` and `CreateArrowAnimation` pass an enemy. The model
  stores the enemy's index, so a projectile always has a target.
- **Floating-point rolls.** `DetermineQuality` and `CalculateStatValue` compute
  with doubles and `Math.Ceiling`. Their results (quality, stat values) are
  inputs carried in `LootGenerator.ItemDraws`. For the same reason the enemy
  level of `GenerateLoot`, which feeds only those two, is not a parameter.
- **Drop chances.** `DropChance` is a `float`; the model uses exact reals, so
  single-precision rounding is not modelled.
- **Colours and health percentage.** `GetHealthPercentage` and the colour
  helpers are float arithmetic and terminal attributes.
- **Goblin and SkeletonArcher.** `Core/Entities/Goblin.cs` and
  `Core/Entities/SkeletonArcher.cs` use `Enemy` members that
  `Core/Entities/Enemy.cs` does not define. The spawner builds `BasicEnemy` values.
- **Per-tick no-ops.** `Player.Update`, the enemies' `Update`, the `IsMoving`
  check and the ASCII art lists change no game-rule state.
- **Random.** Each `Random` draw is a parameter. The model therefore does not
  say how likely any outcome is.
- Enemies.CanSeePlayer: computes with mathematical integers. In the source,
  `dx * dx + dy * dy` overflows once the squared distance passes 2^31 − 1, a
  coordinate difference of 2^31 or more wraps, and a wrapped difference of
  exactly `int.MinValue` makes `Math.Abs` throw. None of this is modelled.
  `Math.Sqrt` is taken as the exact real square root, so double rounding
  is not modelled either.
- Enemies.IsAdjacentTo: computes the differences with mathematical integers.
  In the source a coordinate difference of 2^31 or more wraps (two far cells
  can look adjacent), and a wrapped difference of exactly `int.MinValue`
  makes `Math.Abs` throw. Neither is modelled.
- Enemies.ChaseStep: takes the sign of the exact difference. The source's
  `Player.X - Position.X` is a wrapping 32-bit subtraction, so for coordinates
  more than 2^31 apart its sign is flipped and the enemy steps away. The
  model does not promise that behaviour.
- Game.AcceptSpawn: uses mathematical integers for the 10-box test, so
  `Math.Abs(int.MinValue)` throwing is not modelled.
- Players.UseSkill: returns the player and the target as two separate values,
  so the case where the target is the player itself (aliasing) is not modelled.
- Game.SpawnInitialEnemies: consumes a finite candidate stream and reports
  `CandidatesExhausted` when it runs out. The source would loop forever when
  no acceptable cell exists.
- Game.CandidatePoint: on a side of exactly 10, `Random.Next(5, 5)` returns 5,
  so the coordinate can equal W − 5. The contract states the half-open range
  only for sides longer than 10.
- LootGenerator.SecondaryPicks: also stops when the supplied draws run out.
  With one draw per iteration it runs exactly as often as the source loop.
- Game.Survivors: counts a reference outside the object store as dead. A valid
  state never holds such a reference.
- Items.GetDescription: integers are rendered by `Text.IntToString` under the
  invariant culture; other cultures are not modelled.
