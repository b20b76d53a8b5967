/**
 * The player-versus-monster encounter of server.js: the skill resolver's PvE half, the kill
 * reward, the monster's counter-move resolved within the player's own command, and the PvE
 * branches of the attack and skill commands.
 *
 * Everything here touches only the acting character's record, so every operation takes that
 * record and returns the new one.
 */
module PvE {
  import opened Wrappers
  import opened Model
  import Rules
  import Inventory
  import Progression

  /** `monster.dropItems.forEach(...)`: each entry drops one item when its draw is below its chance (default 0). */
  function GrantDrops(items: seq<Slot>, drops: seq<Drop>, d: Dice): seq<Slot>
    decreases |drops|
  {
    if |drops| == 0 then items
    else
      var i := |drops| - 1;
      var before := GrantDrops(items, drops[..i], d);
      if d.dropRoll(i) < Rules.OrReal(drops[i].chance, 0.0) then Inventory.AddItemToUser(before, drops[i].itemId, 1)
      else before
  }

  /** Loot only ever adds: a well-formed inventory stays well formed and no count falls. */
  lemma {:induction false} GrantDropsOnlyAdds(items: seq<Slot>, drops: seq<Drop>, d: Dice)
    requires Inventory.WellFormed(items)
    ensures Inventory.WellFormed(GrantDrops(items, drops, d))
    ensures forall x :: Inventory.Qty(GrantDrops(items, drops, d), x) >= Inventory.Qty(items, x)
    decreases |drops|
  {
    if |drops| > 0 {
      var i := |drops| - 1;
      GrantDropsOnlyAdds(items, drops[..i], d);
    }
  }

  /** A loot entry whose chance is absent, zero or negative never drops. */
  lemma {:induction false} NoChanceNoDrop(items: seq<Slot>, drops: seq<Drop>, d: Dice)
    requires forall k :: 0 <= k < |drops| ==> Rules.OrReal(drops[k].chance, 0.0) <= 0.0
    requires forall i: nat :: Rules.IsDraw(d.dropRoll(i))
    ensures GrantDrops(items, drops, d) == items
    decreases |drops|
  {
    if |drops| > 0 {
      NoChanceNoDrop(items, drops[..|drops| - 1], d);
    }
  }

  /**
   * What killing monster `m` does to the record `u`: the combat ends, the monster's exp is added
   * (and spent on any level-ups), `goldMin + floor(draw * (goldMax - goldMin + 1))` gold is
   * added, the loot is granted, and nothing else changes.
   */
  ghost predicate Rewarded(u: Character, m: Monster, d: Dice, catalog: seq<Skill>, r: Character)
  {
    var paid := u.(exp := u.exp + m.exp,
                   gold := u.gold + m.goldMin + Rules.FloorTimes(d.goldRoll, m.goldMax - m.goldMin + 1),
                   items := GrantDrops(u.items, m.dropItems, d),
                   combat := None);
    Progression.LeveledUp(paid, catalog, r)
  }

  /** The loot loop: one draw per entry of the monster's loot table, in order. */
  method DropLoot(items: seq<Slot>, drops: seq<Drop>, d: Dice) returns (r: seq<Slot>)
    ensures r == GrantDrops(items, drops, d)
  {
    r := items;
    for i := 0 to |drops|
      invariant r == GrantDrops(items, drops[..i], d)
    {
      assert drops[..i + 1][..i] == drops[..i];
      if d.dropRoll(i) < Rules.OrReal(drops[i].chance, 0.0) {
        r := Inventory.AddItemToUser(r, drops[i].itemId, 1);
      }
    }
    assert drops[..|drops|] == drops;
  }

  /** The kill reward shared by both PvE branches. */
  method KillReward(u: Character, m: Monster, d: Dice, catalog: seq<Skill>) returns (r: Character)
    requires ValidDice(d)
    ensures Rewarded(u, m, d, catalog, r)
    ensures m.goldMin <= m.goldMax ==> m.goldMin <= r.gold - u.gold <= m.goldMax
  {
    var gold := m.goldMin + Rules.FloorTimes(d.goldRoll, m.goldMax - m.goldMin + 1);
    var loot := DropLoot(u.items, m.dropItems, d);
    r := u.(exp := u.exp + m.exp, gold := u.gold + gold, items := loot, combat := None);
    var leveled;
    r, leveled := Progression.HandleLevelUp(r, catalog);
    if m.goldMin <= m.goldMax {
      Rules.FloorTimesRange(d.goldRoll, m.goldMax - m.goldMin + 1);
    }
  }

  /** The monster's blow: its attack plus any attack modifier of the debuff on it, against defence 0. */
  function MonsterBlow(c: PvECombat, d: Dice): (dmg: int)
    requires Rules.IsDraw(d.counterRoll)
    ensures dmg >= 1
  {
    var atk := c.monster.attack + (if c.monsterDebuff.Some? then c.monsterDebuff.value.attackModifier else 0);
    Rules.RollDamage(atk, 0, d.counterRoll)
  }

  /** The evasion bonus's chance, if the player has one. */
  function EvasionBonusOf(c: PvECombat): Option<real>
  {
    if c.playerEvasion.Some? then Some(c.playerEvasion.value.chance) else None
  }

  function TickEvasion(o: Option<EvasionBonus>): Option<EvasionBonus>
  {
    if o.Some? then o.value.Tick() else None
  }

  function TickModifier(o: Option<Modifier>): Option<Modifier>
  {
    if o.Some? then o.value.Tick() else None
  }

  datatype Riposte = MonsterSlowed | PlayerDodged | PlayerStruck | PlayerDefeated

  /**
   * The monster's counter-move against `u` in combat `c`: a slowed monster (draw below the
   * skip chance, default 0.3) loses its move and only then does the slow tick; otherwise the
   * evasion bonus ticks whatever happens, and a draw below the clamped evasion chance dodges;
   * otherwise the blow lands, and at 0 hp or less the player is sent to the start map at 70% hp
   * with the combat cleared. Every outcome but the last hands the turn back to the player.
   */
  ghost predicate Riposted(u: Character, c: PvECombat, d: Dice, data: GameData, r: Character, out: Riposte)
    requires ValidDice(d)
  {
    var slowed := c.monsterSlow.Some? && d.slowRoll < Rules.OrReal(Some(c.monsterSlow.value.skipChance), 0.3);
    var dodged := d.evasionRoll < Rules.PvEEvasionChance(u.jobId, EvasionBonusOf(c));
    var after := c.(playerEvasion := TickEvasion(c.playerEvasion), turn := PlayerTurn);
    var blow := MonsterBlow(c, d);
    if slowed then
      out == MonsterSlowed && r == u.(combat := Some(PvE(c.(turn := PlayerTurn, monsterSlow := c.monsterSlow.value.Tick()))))
    else if dodged then
      out == PlayerDodged && r == u.(combat := Some(PvE(after)))
    else if u.hp - blow > 0 then
      out == PlayerStruck && r == u.(hp := u.hp - blow, combat := Some(PvE(after)))
    else
      out == PlayerDefeated && r == Respawned(u, data).(combat := None)
  }

  /** The monster's counter-move within the player's command (its combat record replaces `u.combat`). */
  method MonsterMove(u: Character, c: PvECombat, d: Dice, data: GameData) returns (r: Character, out: Riposte)
    requires ValidDice(d)
    ensures Riposted(u, c, d, data, r, out)
    ensures out != PlayerDefeated ==>
              r.combat.Some? && r.combat.value.PvE? && r.combat.value.pve.turn == PlayerTurn &&
              r.combat.value.pve.monster == c.monster
    ensures out == PlayerDefeated ==>
              r.combat.None? && r.hp == Rules.RespawnHp(u.maxHp) && r.location == data.startMap
    ensures out == PlayerStruck ==> 0 < r.hp < u.hp
    ensures out == MonsterSlowed || out == PlayerDodged ==> r.hp == u.hp
  {
    var combat := c.(turn := MonsterTurn);
    if combat.monsterSlow.Some? && d.slowRoll < Rules.OrReal(Some(combat.monsterSlow.value.skipChance), 0.3) {
      combat := combat.(monsterSlow := combat.monsterSlow.value.Tick());
      combat := combat.(turn := PlayerTurn);
      return u.(combat := Some(PvE(combat))), MonsterSlowed;
    }
    var chance := Rules.PvEEvasionChance(u.jobId, EvasionBonusOf(combat));
    var evaded := d.evasionRoll < chance;
    if combat.playerEvasion.Some? {
      combat := combat.(playerEvasion := combat.playerEvasion.value.Tick());
    }
    if evaded {
      combat := combat.(turn := PlayerTurn);
      return u.(combat := Some(PvE(combat))), PlayerDodged;
    }
    var enemyDmg := MonsterBlow(combat, d);
    r := u.(hp := u.hp - enemyDmg);
    if r.hp <= 0 {
      r := Respawned(r, data).(combat := None);
      out := PlayerDefeated;
    } else {
      combat := combat.(turn := PlayerTurn);
      r := r.(combat := Some(PvE(combat)));
      out := PlayerStruck;
    }
  }

  /** A plain attack's attack stat: 15 plus the buff's attack modifier. */
  function AttackStat(c: PvECombat): int
  {
    15 + (if c.playerBuff.Some? then c.playerBuff.value.attackModifier else 0)
  }

  /** The monster's defence against a plain attack: the debuff's defence modifier, else 0. */
  function DefenceStat(c: PvECombat): int
  {
    if c.monsterDebuff.Some? then c.monsterDebuff.value.defenseModifier else 0
  }

  /** A plain attack lands: both modifiers tick and the monster takes the rolled damage. */
  function Struck(c: PvECombat, d: Dice): (s: PvECombat)
    requires Rules.IsDraw(d.hitRoll)
    ensures s.monster.hp <= c.monster.hp - 1
  {
    var dmg := Rules.RollDamage(AttackStat(c), DefenceStat(c), d.hitRoll);
    c.(playerBuff := TickModifier(c.playerBuff), monsterDebuff := TickModifier(c.monsterDebuff),
       monster := c.monster.(hp := c.monster.hp - dmg))
  }

  /** One tick of the damage over time on the monster (default 5 per tick), if there is one. */
  function DotTicked(c: PvECombat): PvECombat
  {
    if c.monsterDot.Some? then
      c.(monster := c.monster.(hp := c.monster.hp - Rules.Or(Some(c.monsterDot.value.hpPerTick), 5)),
         monsterDot := c.monsterDot.value.Tick())
    else c
  }

  datatype Outcome = NotYourTurn | Killed | Countered(riposte: Riposte)

  /**
   * The PvE branch of `attackCommand`: only on the player's turn; the hit, a kill check, the
   * damage-over-time tick, a second kill check, then the monster's counter-move.
   */
  method AttackMonster(u: Character, c: PvECombat, d: Dice, data: GameData) returns (r: Character, out: Outcome)
    requires ValidDice(d)
    requires u.combat == Some(PvE(c))
    ensures out == NotYourTurn <==> c.turn != PlayerTurn
    ensures out == NotYourTurn ==> r == u
    ensures out == Killed <==>
              c.turn == PlayerTurn && (Struck(c, d).monster.hp <= 0 || DotTicked(Struck(c, d)).monster.hp <= 0)
    ensures out == Killed ==> Rewarded(u, c.monster, d, data.skills, r)
    ensures out.Countered? ==> Riposted(u, DotTicked(Struck(c, d)).(turn := MonsterTurn), d, data, r, out.riposte)
    ensures out.Countered? && out.riposte != PlayerDefeated ==>
              r.combat.Some? && r.combat.value.PvE? && r.combat.value.pve.turn == PlayerTurn
    ensures r.combat.None? || r.combat.value.PvE?
  {
    if c.turn != PlayerTurn {
      return u, NotYourTurn;
    }
    var combat := c;
    var playerAtk := 15;
    var monsterDef := 0;
    if combat.playerBuff.Some? {
      playerAtk := playerAtk + combat.playerBuff.value.attackModifier;
      combat := combat.(playerBuff := combat.playerBuff.value.Tick());
    }
    if combat.monsterDebuff.Some? {
      monsterDef := monsterDef + combat.monsterDebuff.value.defenseModifier;
      combat := combat.(monsterDebuff := combat.monsterDebuff.value.Tick());
    }
    var dmg := Rules.RollDamage(playerAtk, monsterDef, d.hitRoll);
    combat := combat.(monster := combat.monster.(hp := combat.monster.hp - dmg));
    assert combat == Struck(c, d);
    // The reward reads the monster's exp, gold range and loot, which no hit changes.
    if combat.monster.hp <= 0 {
      r := KillReward(u, c.monster, d, data.skills);
      return r, Killed;
    }
    if combat.monsterDot.Some? {
      var dotDmg := Rules.Or(Some(combat.monsterDot.value.hpPerTick), 5);
      combat := combat.(monster := combat.monster.(hp := combat.monster.hp - dotDmg));
      combat := combat.(monsterDot := combat.monsterDot.value.Tick());
      if combat.monster.hp <= 0 {
        r := KillReward(u, c.monster, d, data.skills);
        return r, Killed;
      }
    }
    assert combat == DotTicked(Struck(c, d));
    combat := combat.(turn := MonsterTurn);
    var riposte;
    r, riposte := MonsterMove(u, combat, d, data);
    out := Countered(riposte);
  }

  /**
   * The PvE branch of `skillCommand` after the effect is applied: a kill check, then the
   * monster's counter-move. No modifier or damage-over-time ticks on this path.
   */
  method FinishSkillTurn(u: Character, c: PvECombat, d: Dice, data: GameData) returns (r: Character, out: Outcome)
    requires ValidDice(d)
    ensures out != NotYourTurn
    ensures out == Killed <==> c.monster.hp <= 0
    ensures out == Killed ==> Rewarded(u, c.monster, d, data.skills, r)
    ensures out.Countered? ==> Riposted(u, c.(turn := MonsterTurn), d, data, r, out.riposte)
    ensures out.Countered? && out.riposte != PlayerDefeated ==>
              r.combat.Some? && r.combat.value.PvE? && r.combat.value.pve.turn == PlayerTurn
    ensures r.combat.None? || r.combat.value.PvE?
  {
    if c.monster.hp <= 0 {
      r := KillReward(u, c.monster, d, data.skills);
      return r, Killed;
    }
    var riposte;
    r, riposte := MonsterMove(u, c.(turn := MonsterTurn), d, data);
    out := Countered(riposte);
  }

  /**
   * The monster-fight branch of `skillCommand` from `u` (mana paid) to `r`: the resolver, then
   * a kill rewards as an attack does, else the monster moves; the player's turn is never refused.
   */
  ghost predicate SkillTurned(u: Character, skill: Skill, d: Dice, data: GameData, r: Character, out: Outcome)
    requires ValidDice(d) && u.combat.Some? && u.combat.value.PvE?
  {
    var a := ApplySkillEffectInPvE(u, u.combat.value.pve, skill, None, d);
    var c := a.actor.combat.value.pve;
    && out != NotYourTurn
    && (out == Killed <==> c.monster.hp <= 0)
    && (out == Killed ==> Rewarded(a.actor, c.monster, d, data.skills, r))
    && (out.Countered? ==> Riposted(a.actor, c.(turn := MonsterTurn), d, data, r, out.riposte))
    && (r.combat.None? || r.combat.value.PvE?)
  }

  /** The monster-fight branch of `skillCommand`, the mana paid; see `SkillTurned`. */
  method SkillTurn(u: Character, skill: Skill, d: Dice, data: GameData) returns (r: Character, out: Outcome)
    requires ValidDice(d) && u.combat.Some? && u.combat.value.PvE?
    ensures SkillTurned(u, skill, d, data, r, out)
  {
    // A heal never reaches this branch, so the resolver needs no named target.
    var a := ApplySkillEffectInPvE(u, u.combat.value.pve, skill, None, d);
    r, out := FinishSkillTurn(a.actor, a.actor.combat.value.pve, d, data);
  }

  /** The combat `c` with its monster's hit points lowered by `dmg`. */
  function Hit(c: PvECombat, dmg: int): PvECombat
  {
    c.(monster := c.monster.(hp := c.monster.hp - dmg))
  }

  /** The resolver's result: the actor's new record, and the other character healed, if any. */
  datatype Applied = Applied(actor: Character, healed: Option<Character>)

  /**
   * `applySkillEffectInPvE`: one effect per kind. A heal restores `value` (default 20) to the
   * named other character when one is found, else to the actor; buffs, debuffs and the other
   * timed entries REPLACE the previous entry; steal adds `floor(draw * maxGold)` gold (default
   * 10) that is taken from nobody.
   */
  function ApplySkillEffectInPvE(u: Character, c: PvECombat, skill: Skill, target: Option<Character>, d: Dice): (a: Applied)
    requires Rules.IsDraw(d.hitRoll) && Rules.IsDraw(d.stealRoll)
    requires u.combat == Some(PvE(c))
    ensures a.actor.combat.Some? && a.actor.combat.value.PvE? && a.actor.combat.value.pve.turn == c.turn
    ensures a.healed.Some? <==> skill.effect.kind == Heal && target.Some?
  {
    var eff := skill.effect;
    match eff.kind
    case Heal =>
      var amount := Rules.Or(eff.value, 20);
      if target.Some? then Applied(u, Some(Healed(target.value, amount))) else Applied(Healed(u, amount), None)
    case Attack =>
      Applied(u.(combat := Some(PvE(Hit(c, Rules.Or(eff.value, Rules.RollDamage(15, 0, d.hitRoll)))))), None)
    case SacrificeAttack =>
      var paid := u.(hp := Rules.Max(1, u.hp - Rules.Or(eff.hpCost, 10)));
      Applied(paid.(combat := Some(PvE(Hit(c, Rules.Or(eff.value, 40))))), None)
    case Buff =>
      var buff := Modifier(Rules.Or(eff.attackModifier, 0), Rules.Or(eff.defenseModifier, 0), Rules.Or(eff.durationTurns, 3));
      Applied(u.(combat := Some(PvE(c.(playerBuff := Some(buff))))), None)
    case Debuff =>
      var debuff := Modifier(Rules.Or(eff.attackModifier, 0), Rules.Or(eff.defenseModifier, 0), Rules.Or(eff.durationTurns, 3));
      Applied(u.(combat := Some(PvE(c.(monsterDebuff := Some(debuff))))), None)
    case OverTime =>
      var dot := DamageOverTime(Rules.Or(eff.hpPerTick, 5), Rules.Or(eff.durationTurns, 3));
      Applied(u.(combat := Some(PvE(c.(monsterDot := Some(dot))))), None)
    case EvasionBuff =>
      var ev := EvasionBonus(Rules.OrReal(eff.evasionChance, 0.3), Rules.Or(eff.durationTurns, 2));
      Applied(u.(combat := Some(PvE(c.(playerEvasion := Some(ev))))), None)
    case SlowDebuff =>
      var slow := Slow(Rules.OrReal(eff.skipTurnChance, 0.3), Rules.Or(eff.durationTurns, 2));
      Applied(u.(combat := Some(PvE(c.(monsterSlow := Some(slow))))), None)
    case Steal =>
      Applied(u.(gold := u.gold + Rules.FloorTimes(d.stealRoll, Rules.Or(eff.maxGold, 10))), None)
    case Unrecognized =>
      Applied(u, None)
  }

  /**
   * What each kind of skill does to the fight: a heal restores `value` (default 20) to the
   * named other character when one is found, else to the caster; an attack takes its `value` or
   * the rolled damage (attack 15, no defence) from the monster; a sacrifice costs `hpCost`
   * (default 10) but never below 1 hit point and deals `value` (default 40); buffs, debuffs and
   * the other timed entries REPLACE the previous entry; steal adds `floor(draw * maxGold)` gold
   * (default 10) taken from nobody; an unknown kind changes nothing.
   */
  lemma SkillEffectInPvE(u: Character, c: PvECombat, skill: Skill, target: Option<Character>, d: Dice)
    requires Rules.IsDraw(d.hitRoll) && Rules.IsDraw(d.stealRoll)
    requires u.combat == Some(PvE(c))
    ensures var a := ApplySkillEffectInPvE(u, c, skill, target, d);
            a.healed.Some? ==> a.actor == u && a.healed.value == Healed(target.value, Rules.Or(skill.effect.value, 20))
    ensures var a := ApplySkillEffectInPvE(u, c, skill, target, d);
            skill.effect.kind == Heal && target.None? ==> a.actor == Healed(u, Rules.Or(skill.effect.value, 20))
    ensures var a := ApplySkillEffectInPvE(u, c, skill, target, d);
            skill.effect.kind == Attack ==>
              a.actor == u.(combat := Some(PvE(Hit(c, Rules.Or(skill.effect.value, Rules.RollDamage(15, 0, d.hitRoll))))))
    ensures var a := ApplySkillEffectInPvE(u, c, skill, target, d);
            skill.effect.kind == SacrificeAttack ==>
              && a.actor == u.(hp := Rules.Max(1, u.hp - Rules.Or(skill.effect.hpCost, 10)),
                               combat := Some(PvE(Hit(c, Rules.Or(skill.effect.value, 40)))))
              && a.actor.hp >= 1
    ensures var a := ApplySkillEffectInPvE(u, c, skill, target, d);
            skill.effect.kind == Buff ==>
              a.actor == u.(combat := Some(PvE(c.(playerBuff := Some(Modifier(
                Rules.Or(skill.effect.attackModifier, 0), Rules.Or(skill.effect.defenseModifier, 0),
                Rules.Or(skill.effect.durationTurns, 3)))))))
    ensures var a := ApplySkillEffectInPvE(u, c, skill, target, d);
            skill.effect.kind == Debuff ==>
              a.actor == u.(combat := Some(PvE(c.(monsterDebuff := Some(Modifier(
                Rules.Or(skill.effect.attackModifier, 0), Rules.Or(skill.effect.defenseModifier, 0),
                Rules.Or(skill.effect.durationTurns, 3)))))))
    ensures var a := ApplySkillEffectInPvE(u, c, skill, target, d);
            skill.effect.kind == OverTime ==>
              a.actor == u.(combat := Some(PvE(c.(monsterDot := Some(DamageOverTime(
                Rules.Or(skill.effect.hpPerTick, 5), Rules.Or(skill.effect.durationTurns, 3)))))))
    ensures var a := ApplySkillEffectInPvE(u, c, skill, target, d);
            skill.effect.kind == EvasionBuff ==>
              a.actor == u.(combat := Some(PvE(c.(playerEvasion := Some(EvasionBonus(
                Rules.OrReal(skill.effect.evasionChance, 0.3), Rules.Or(skill.effect.durationTurns, 2)))))))
    ensures var a := ApplySkillEffectInPvE(u, c, skill, target, d);
            skill.effect.kind == SlowDebuff ==>
              a.actor == u.(combat := Some(PvE(c.(monsterSlow := Some(Slow(
                Rules.OrReal(skill.effect.skipTurnChance, 0.3), Rules.Or(skill.effect.durationTurns, 2)))))))
    ensures var a := ApplySkillEffectInPvE(u, c, skill, target, d);
            skill.effect.kind == Steal ==>
              a.actor == u.(gold := u.gold + Rules.FloorTimes(d.stealRoll, Rules.Or(skill.effect.maxGold, 10)))
    ensures var a := ApplySkillEffectInPvE(u, c, skill, target, d);
            skill.effect.kind == Steal && Rules.Or(skill.effect.maxGold, 10) > 0 ==>
              0 <= a.actor.gold - u.gold < Rules.Or(skill.effect.maxGold, 10)
    ensures var a := ApplySkillEffectInPvE(u, c, skill, target, d);
            skill.effect.kind == Unrecognized ==> a.actor == u
  {
    if skill.effect.kind == Steal {
      StealRange(d.stealRoll, Rules.Or(skill.effect.maxGold, 10));
    }
  }

  /** The monster-fight steal roll `floor(draw * m)` lies in 0..m-1 (no cap: the gold comes from nowhere). */
  lemma StealRange(r: real, m: int)
    requires Rules.IsDraw(r)
    ensures m > 0 ==> 0 <= Rules.FloorTimes(r, m) < m
  {
    if m > 0 {
      Rules.FloorTimesRange(r, m);
    }
  }
}
