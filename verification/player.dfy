/** Core/Player.cs: the player character, a creature that collects experience,
    levels up and owns a list of skills. */
module Players {
  import opened Ints
  import opened Entities
  import opened Creatures
  import opened Skills

  datatype Player = Player(creature: Creature, experience: i32, level: i32, skills: seq<Skill>)

  /** The constructor: "Player" drawn as '@' with 100 health and 10 damage, at
      level 1 with no experience, knowing Slash and Fireball. */
  function NewPlayer(): (p: Player)
    ensures p.creature == NewCreature("Player", '@', 100, 10)
    ensures p.creature.health == p.creature.maxHealth == 100 && p.creature.damage == 10
    ensures p.level == 1 && p.experience == 0
    ensures p.skills == [NewSkill("Slash", 5, 1), NewSkill("Fireball", 15, 3)]
    ensures forall i :: 0 <= i < |p.skills| ==> CanUse(p.skills[i])
  {
    Player(NewCreature("Player", '@', 100, 10), 0, 1, [NewSkill("Slash", 5, 1), NewSkill("Fireball", 15, 3)])
  }

  /** One level more, ten more maximum health, fully healed and two more
      damage (each addition in 32-bit arithmetic). */
  function LevelUp(p: Player): (r: Player)
    ensures r.creature.health == r.creature.maxHealth
    ensures IsInt32(p.level + 1) ==> r.level == p.level + 1
    ensures IsInt32(p.creature.maxHealth + 10) ==> r.creature.maxHealth == p.creature.maxHealth + 10
    ensures IsInt32(p.creature.damage + 2) ==> r.creature.damage == p.creature.damage + 2
    ensures r.level != p.level
    ensures r.experience == p.experience && r.skills == p.skills && r.creature.entity == p.creature.entity
  {
    var maxHealth := Wrap(p.creature.maxHealth + 10);
    p.(level := Wrap(p.level + 1),
       creature := p.creature.(maxHealth := maxHealth, health := maxHealth,
                               damage := Wrap(p.creature.damage + 2)))
  }

  /** The experience threshold of the current level, `Level * 100`. */
  function Threshold(p: Player): (r: i32)
    ensures IsInt32(p.level * 100) ==> r == p.level * 100
  {
    Wrap(p.level * 100)
  }

  /** Experience only ever grows by the amount gained; the player levels up,
      at most once, exactly when the new total reaches the threshold. */
  function GainExperience(p: Player, amount: i32): (r: Player)
    ensures r.experience == Wrap(p.experience + amount)
    ensures r.level != p.level <==> r.experience >= Threshold(p)
    ensures r.level == p.level ==> r.creature == p.creature
    ensures r.level != p.level ==> r == LevelUp(p.(experience := r.experience))
    ensures r.skills == p.skills
  {
    var q := p.(experience := Wrap(p.experience + amount));
    if q.experience >= Threshold(p) then LevelUp(q) else q
  }

  /** Without overflow: experience adds up exactly, and a level is gained
      exactly when it reaches `Level * 100`. */
  lemma GainExperienceExact(p: Player, amount: i32)
    requires IsInt32(p.experience + amount) && 0 <= p.level < 21474836
    requires IsInt32(p.creature.maxHealth + 10) && IsInt32(p.creature.damage + 2)
    ensures GainExperience(p, amount).experience == p.experience + amount
    ensures var r := GainExperience(p, amount);
      if p.experience + amount >= p.level * 100 then
        r.level == p.level + 1 && r.creature.maxHealth == p.creature.maxHealth + 10 &&
        r.creature.health == r.creature.maxHealth && r.creature.damage == p.creature.damage + 2
      else r.level == p.level && r.creature == p.creature
  {
  }

  /** Two gains in a row accumulate: experience is never reset. */
  lemma ExperienceAccumulates(p: Player, a: i32, b: i32)
    requires IsInt32(p.experience + a) && IsInt32(p.experience + a + b)
    ensures GainExperience(GainExperience(p, a), b).experience == p.experience + a + b
  {
  }

  /** Use the skill at `index` on `target`. An index outside the list, or a
      skill still cooling down, changes nothing; otherwise the target takes the
      skill's damage and that skill, alone, goes on cooldown. */
  function UseSkill(p: Player, index: i32, target: Creature): (r: (Player, Creature))
    ensures !(0 <= index < |p.skills|) ==> r == (p, target)
    ensures 0 <= index < |p.skills| && !CanUse(p.skills[index]) ==> r == (p, target)
    ensures 0 <= index < |p.skills| && CanUse(p.skills[index]) ==>
      && r.1 == TakeDamage(target, p.skills[index].damage)
      && |r.0.skills| == |p.skills|
      && r.0.skills[index] == Use(p.skills[index])
      && r.0.skills[index].currentCooldown == p.skills[index].cooldown
      && (forall i :: 0 <= i < |p.skills| && i != index ==> r.0.skills[i] == p.skills[i])
      && r.0.creature == p.creature && r.0.level == p.level && r.0.experience == p.experience
  {
    if 0 <= index < |p.skills| && CanUse(p.skills[index]) then
      (p.(skills := p.skills[index := Use(p.skills[index])]), TakeDamage(target, p.skills[index].damage))
    else
      (p, target)
  }
}
