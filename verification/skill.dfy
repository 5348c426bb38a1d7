/** Core/Skill.cs: a named attack with a fixed damage and a cooldown counter
    that is reset on use and counted down once per game tick. */
module Skills {
  import opened Ints

  datatype Skill = Skill(name: string, damage: i32, cooldown: i32, currentCooldown: i32)

  /** The constructor: a new skill is ready to use. */
  function NewSkill(name: string, damage: i32, cooldown: i32): (s: Skill)
    ensures s.name == name && s.damage == damage && s.cooldown == cooldown
    ensures s.currentCooldown == 0 && CanUse(s)
  {
    Skill(name, damage, cooldown, 0)
  }

  predicate CanUse(s: Skill) {
    s.currentCooldown <= 0
  }

  /** Using a ready skill starts its full cooldown; using a skill that is still
      cooling down has no effect. Name, damage and cooldown are never touched. */
  function Use(s: Skill): (r: Skill)
    ensures r.name == s.name && r.damage == s.damage && r.cooldown == s.cooldown
    ensures CanUse(s) ==> r.currentCooldown == s.cooldown
    ensures !CanUse(s) ==> r == s
  {
    if CanUse(s) then s.(currentCooldown := s.cooldown) else s
  }

  /** One tick: a positive counter goes down by one, any other is left alone,
      so a counter that starts non-negative never becomes negative. */
  function UpdateCooldown(s: Skill): (r: Skill)
    ensures r.name == s.name && r.damage == s.damage && r.cooldown == s.cooldown
    ensures s.currentCooldown > 0 ==> r.currentCooldown == s.currentCooldown - 1
    ensures s.currentCooldown <= 0 ==> r == s
    ensures s.currentCooldown >= 0 ==> r.currentCooldown >= 0
  {
    if s.currentCooldown > 0 then s.(currentCooldown := s.currentCooldown - 1) else s
  }

  /** The counter stays between zero and the skill's cooldown. */
  predicate CooldownInRange(s: Skill) {
    0 <= s.currentCooldown <= s.cooldown
  }

  lemma CooldownInRangePreserved(s: Skill)
    requires CooldownInRange(s)
    ensures CooldownInRange(Use(s)) && CooldownInRange(UpdateCooldown(s))
  {
  }

  /** `n` consecutive ticks. */
  function Ticks(s: Skill, n: nat): Skill
    decreases n
  {
    if n == 0 then s else Ticks(UpdateCooldown(s), n - 1)
  }

  lemma {:induction false} TicksCountDown(s: Skill, n: nat)
    requires s.currentCooldown >= 0
    ensures Ticks(s, n).currentCooldown == if s.currentCooldown <= n then 0 else s.currentCooldown - n
    ensures Ticks(s, n).name == s.name && Ticks(s, n).damage == s.damage && Ticks(s, n).cooldown == s.cooldown
    decreases n
  {
    if n > 0 {
      TicksCountDown(UpdateCooldown(s), n - 1);
    }
  }

  /** After a use, the skill becomes ready again after exactly `cooldown`
      ticks and not one tick earlier. */
  lemma {:induction false} ReadyAfterCooldown(s: Skill, n: nat)
    requires CanUse(s) && s.cooldown >= 0
    ensures CanUse(Ticks(Use(s), n)) <==> n >= s.cooldown
  {
    TicksCountDown(Use(s), n);
  }
}
