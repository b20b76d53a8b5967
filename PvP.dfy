/**
 * The value-level rules of a duel in server.js: the turn-start tick of one duellist's
 * record, the turn hand-over, the end of a duel over the table of users, and the
 * damage and steal amounts of the duel skill resolver.
 */
module PvP {
  import opened Wrappers
  import opened Model
  import Rules

  /** The duel record of a character, if it is in a duel. */
  function DuelOf(u: Character): Option<PvPCombat>
  {
    if u.combat.Some? && u.combat.value.PvP? then Some(u.combat.value.pvp) else None
  }

  /** A character with its duel record replaced. */
  function WithDuel(u: Character, c: PvPCombat): (r: Character)
    ensures DuelOf(r) == Some(c)
  {
    u.(combat := Some(PvP(c)))
  }

  /** One turn-start decrement of a duration counter: only a positive counter moves. */
  function CountDown(turns: int): (t: int)
    ensures turns > 0 ==> t == turns - 1 && t >= 0
    ensures turns <= 0 ==> t == turns
  {
    if turns > 0 then turns - 1 else turns
  }

  /** Whether a counter reaches zero at this tick, which resets its magnitude. */
  predicate Expires(turns: int)
  {
    turns > 0 && turns - 1 <= 0
  }

  /** The turn-start tick of the attack, defence and evasion counters. */
  function TickCounters(c: PvPCombat): (r: PvPCombat)
    ensures r == c.(atkBuff := r.atkBuff, atkBuffTurns := r.atkBuffTurns, defBuff := r.defBuff,
                    defBuffTurns := r.defBuffTurns, evasionBuff := r.evasionBuff, evasionTurns := r.evasionTurns)
    ensures c.atkBuffTurns >= 0 ==> r.atkBuffTurns >= 0
    ensures c.defBuffTurns >= 0 ==> r.defBuffTurns >= 0
    ensures c.evasionTurns >= 0 ==> r.evasionTurns >= 0
    ensures r.atkBuff == (if c.atkBuffTurns == 1 then 0 else c.atkBuff)
    ensures r.defBuff == (if c.defBuffTurns == 1 then 0 else c.defBuff)
    ensures r.evasionBuff == (if c.evasionTurns == 1 then 0.0 else c.evasionBuff)
  {
    c.(atkBuffTurns := CountDown(c.atkBuffTurns),
       atkBuff := if Expires(c.atkBuffTurns) then 0 else c.atkBuff,
       defBuffTurns := CountDown(c.defBuffTurns),
       defBuff := if Expires(c.defBuffTurns) then 0 else c.defBuff,
       evasionTurns := CountDown(c.evasionTurns),
       evasionBuff := if Expires(c.evasionTurns) then 0.0 else c.evasionBuff)
  }

  /** `n` consecutive turn starts' worth of counter ticks. */
  function TickCountersN(c: PvPCombat, n: nat): PvPCombat
    decreases n
  {
    if n == 0 then c else TickCountersN(TickCounters(c), n - 1)
  }

  /**
   * A modifier set with duration `k` lasts exactly `k` turn starts: after `n` of them its
   * counter reads `max(0, k - n)` and its magnitude is zero exactly from the `k`-th on.
   */
  lemma {:induction false} CountersAfter(c: PvPCombat, n: nat)
    requires c.atkBuffTurns >= 0 && c.defBuffTurns >= 0 && c.evasionTurns >= 0
    ensures TickCountersN(c, n).atkBuffTurns == Rules.Max(0, c.atkBuffTurns - n)
    ensures TickCountersN(c, n).defBuffTurns == Rules.Max(0, c.defBuffTurns - n)
    ensures TickCountersN(c, n).evasionTurns == Rules.Max(0, c.evasionTurns - n)
    ensures TickCountersN(c, n).atkBuff == (if 0 < c.atkBuffTurns <= n then 0 else c.atkBuff)
    ensures TickCountersN(c, n).defBuff == (if 0 < c.defBuffTurns <= n then 0 else c.defBuff)
    ensures TickCountersN(c, n).evasionBuff == (if 0 < c.evasionTurns <= n then 0.0 else c.evasionBuff)
    decreases n
  {
    if n > 0 {
      CountersAfter(TickCounters(c), n - 1);
    }
  }

  /** The outcome of a turn start: the updated record, and whether the damage over time killed. */
  datatype Started = Started(user: Character, died: bool)

  /** Whether the duel record carries damage over time that still has turns to run. */
  predicate DotActive(c: PvPCombat)
  {
    c.dot.Some? && c.dot.value.turns > 0
  }

  /** The hit points damage over time takes at one tick: its per-tick amount when positive. */
  function DotDamage(dot: DamageOverTime): (dmg: int)
    ensures dmg >= 0
    ensures dot.hpPerTick > 0 ==> dmg == dot.hpPerTick
  {
    var dmg := Rules.Or(Some(dot.hpPerTick), 0);
    if dmg > 0 then dmg else 0
  }

  /**
   * `processPvPTurnStart` on the duellist's own record: active damage over time ticks first
   * (and a death stops the turn start there); otherwise the three counters tick.
   */
  function StartTurn(u: Character, c: PvPCombat): (s: Started)
    ensures s.user == u.(hp := s.user.hp, combat := s.user.combat)
    ensures s.died <==> DotActive(c) && u.hp - DotDamage(c.dot.value) <= 0
    ensures !DotActive(c) ==> s.user == WithDuel(u, TickCounters(c))
    ensures DotActive(c) ==> s.user.hp == u.hp - DotDamage(c.dot.value)
    ensures DotActive(c) && s.died ==> s.user == WithDuel(u.(hp := s.user.hp), c.(dot := c.dot.value.Tick()))
    ensures DotActive(c) && !s.died ==> s.user == WithDuel(u.(hp := s.user.hp), TickCounters(c.(dot := c.dot.value.Tick())))
    ensures DuelOf(s.user).Some?
    ensures DuelOf(s.user).value.opponent == c.opponent && DuelOf(s.user).value.turn == c.turn
    ensures DuelOf(s.user).value.slow == c.slow
    ensures c.atkBuffTurns >= 0 && c.defBuffTurns >= 0 && c.evasionTurns >= 0 ==>
              DuelOf(s.user).value.atkBuffTurns >= 0 && DuelOf(s.user).value.defBuffTurns >= 0 &&
              DuelOf(s.user).value.evasionTurns >= 0
  {
    if DotActive(c) then
      var hp := u.hp - DotDamage(c.dot.value);
      var ticked := c.(dot := c.dot.value.Tick());
      if hp <= 0 then Started(WithDuel(u.(hp := hp), ticked), true)
      else Started(WithDuel(u.(hp := hp), TickCounters(ticked)), false)
    else Started(WithDuel(u, TickCounters(c)), false)
  }

  /** Whether the duellist's own slow makes it lose this turn. */
  predicate SlowSkips(c: PvPCombat, d: Dice)
  {
    c.slow.Some? && c.slow.value.turns > 0 && d.slowRoll < Rules.OrReal(Some(c.slow.value.skipChance), 0.3)
  }

  /** The slow check always spends one of the slow's turns, whether or not it skips the turn. */
  function SlowTicked(c: PvPCombat): (r: PvPCombat)
    ensures r == c.(slow := r.slow)
    ensures c.slow.Some? && c.slow.value.turns > 1 ==> r.slow == Some(c.slow.value.(turns := c.slow.value.turns - 1))
    ensures c.slow.Some? && c.slow.value.turns == 1 ==> r.slow.None?
    ensures c.slow.None? || c.slow.value.turns <= 0 ==> r.slow == c.slow
  {
    if c.slow.Some? && c.slow.value.turns > 0 then c.(slow := c.slow.value.Tick()) else c
  }

  /** The opponent's side of a hand-over: its turn becomes its own, if it is in a duel. */
  function Yielded(opp: Character): (r: Character)
    ensures DuelOf(opp).Some? ==> r == WithDuel(opp, DuelOf(opp).value.(turn := SelfTurn))
    ensures DuelOf(opp).None? ==> r == opp
  {
    if DuelOf(opp).Some? then WithDuel(opp, DuelOf(opp).value.(turn := SelfTurn)) else opp
  }

  /**
   * Passing the turn after an action that did not end the duel: the actor's record becomes
   * `c` with the turn on the opponent, the opponent's own turn starts, nobody else changes.
   */
  function Handover(users: map<string, Character>, name: string, c: PvPCombat): (r: map<string, Character>)
    requires name in users && c.opponent in users && c.opponent != name
    ensures r.Keys == users.Keys
    ensures DuelOf(r[name]) == Some(c.(turn := OpponentTurn))
    ensures r[name] == users[name].(combat := r[name].combat)
    ensures DuelOf(users[c.opponent]).Some? ==> DuelOf(r[c.opponent]) == Some(DuelOf(users[c.opponent]).value.(turn := SelfTurn))
    ensures DuelOf(users[c.opponent]).None? ==> r[c.opponent] == users[c.opponent]
    ensures r[c.opponent] == users[c.opponent].(combat := r[c.opponent].combat)
    ensures forall n :: n in users && n != name && n != c.opponent ==> r[n] == users[n]
  {
    users[c.opponent := Yielded(users[c.opponent])][name := WithDuel(users[name], c.(turn := OpponentTurn))]
  }

  /** Leaving a duel: the combat is cleared if it is a duel, a monster fight is kept. */
  function EndDuel(u: Character): (r: Character)
    ensures DuelOf(r).None?
    ensures r == u.(combat := r.combat)
    ensures DuelOf(u).None? ==> r == u
  {
    if DuelOf(u).Some? then u.(combat := None) else u
  }

  /**
   * `finishDuelWithWinner` over the table of users: the loser is sent to the start map at 70%
   * of max hp, neither side is left in a duel, nobody else changes.
   */
  function Finished(users: map<string, Character>, winner: string, loser: string, data: GameData): (r: map<string, Character>)
    requires winner in users && loser in users
    ensures r.Keys == users.Keys
    ensures r[loser].hp == Rules.RespawnHp(users[loser].maxHp)
    ensures r[loser].location == data.startMap && r[loser].posX == data.spawnX && r[loser].posY == data.spawnY
    ensures DuelOf(r[winner]).None? && DuelOf(r[loser]).None?
    ensures winner != loser ==> r[winner] == EndDuel(users[winner])
    ensures r[loser] == EndDuel(Respawned(users[loser], data))
    ensures forall n :: n in users && n != winner && n != loser ==> r[n] == users[n]
  {
    var us := users[loser := EndDuel(Respawned(users[loser], data))];
    us[winner := EndDuel(us[winner])]
  }

  /** The damage of a duel attack skill: its fixed value if non-zero, else the roll, at least 1. */
  function SkillDamage(value: Option<int>, atk: int, def: int, r: real): (dmg: int)
    requires Rules.IsDraw(r)
    ensures dmg >= 1
    ensures Rules.Or(value, 0) == 0 ==> dmg == Rules.RollDamage(atk, def, r)
    ensures Rules.Or(value, 0) >= 1 ==> dmg == value.value
    ensures Rules.Or(value, 0) < 0 ==> dmg == 1
  {
    Rules.Max(1, Rules.Or(value, Rules.RollDamage(atk, def, r)))
  }

  /** The gold a duel steal takes: a roll in 0..maxGold (default 10), capped by what the victim has. */
  function StealAmount(victimGold: int, maxGold: Option<int>, r: real): (amount: int)
    requires Rules.IsDraw(r)
    ensures amount <= victimGold
    ensures Rules.Or(maxGold, 10) >= 0 ==> amount <= Rules.Or(maxGold, 10)
    ensures Rules.Or(maxGold, 10) >= 0 && victimGold >= 0 ==> amount >= 0
  {
    var m := Rules.Or(maxGold, 10);
    StealRollRange(r, m);
    Rules.Min(victimGold, Rules.FloorTimes(r, m + 1))
  }

  /** The steal roll `floor(draw * (m + 1))` lies in 0..m. */
  lemma StealRollRange(r: real, m: int)
    requires Rules.IsDraw(r)
    ensures m >= 0 ==> 0 <= Rules.FloorTimes(r, m + 1) <= m
  {
    if m >= 0 {
      Rules.FloorTimesRange(r, m + 1);
    }
  }

  /** The duel buff: the modifiers are ADDED to the current ones and both counters restart at the duration. */
  function Buffed(c: PvPCombat, e: Effect): (r: PvPCombat)
    ensures r == c.(atkBuff := r.atkBuff, defBuff := r.defBuff, atkBuffTurns := r.atkBuffTurns, defBuffTurns := r.defBuffTurns)
    ensures r.atkBuff - c.atkBuff == Rules.Or(e.attackModifier, 0)
    ensures r.defBuff - c.defBuff == Rules.Or(e.defenseModifier, 0)
    ensures r.atkBuffTurns == r.defBuffTurns == Rules.Or(e.durationTurns, 3)
  {
    var dur := Rules.Or(e.durationTurns, 3);
    c.(atkBuff := c.atkBuff + Rules.Or(e.attackModifier, 0), defBuff := c.defBuff + Rules.Or(e.defenseModifier, 0),
       atkBuffTurns := dur, defBuffTurns := dur)
  }

  /**
   * A buff with a positive duration `k` keeps its summed modifiers through the first `k - 1`
   * turn starts and is gone (modifier 0) from the `k`-th on.
   */
  lemma BuffLasts(c: PvPCombat, e: Effect, n: nat)
    requires Rules.Or(e.durationTurns, 3) > 0 && c.evasionTurns >= 0
    ensures var t := TickCountersN(Buffed(c, e), n);
            && (n < Rules.Or(e.durationTurns, 3) ==>
                  t.atkBuff == c.atkBuff + Rules.Or(e.attackModifier, 0) && t.defBuff == c.defBuff + Rules.Or(e.defenseModifier, 0))
            && (n >= Rules.Or(e.durationTurns, 3) ==> t.atkBuff == 0 && t.defBuff == 0)
  {
    CountersAfter(Buffed(c, e), n);
  }

  /** A fresh duel record: no modifiers, no damage over time, no slow. */
  function FreshDuel(opponent: string, turn: PvPTurn): (c: PvPCombat)
    ensures c.opponent == opponent && c.turn == turn
    ensures c.atkBuff == 0 && c.defBuff == 0 && c.evasionBuff == 0.0
    ensures c.atkBuffTurns == 0 && c.defBuffTurns == 0 && c.evasionTurns == 0
    ensures c.dot.None? && c.slow.None?
  {
    PvPCombat(opponent, turn, 0, 0, 0, 0, 0.0, 0, None, None)
  }

  /** Accepting a duel revives a duellist at 0 hp or less to 70% of max hp. */
  function Revived(u: Character): (r: Character)
    ensures r == u.(hp := r.hp)
    ensures u.hp > 0 ==> r == u
    ensures u.hp <= 0 ==> r.hp == Rules.RespawnHp(u.maxHp)
    ensures u.hp <= 0 && u.maxHp >= 2 ==> r.hp >= 1
  {
    if u.hp <= 0 then u.(hp := Rules.RespawnHp(u.maxHp)) else u
  }

  /** The opponent's defence bonus, if it is in a duel. */
  function DefenceOf(oc: Option<PvPCombat>): int
  {
    if oc.Some? then oc.value.defBuff else 0
  }

  /** The opponent's evasion bonus, if it is in a duel. */
  function EvasionOf(oc: Option<PvPCombat>): real
  {
    if oc.Some? then oc.value.evasionBuff else 0.0
  }

  /** Whether a table of users allows `name` to act in its duel against an opponent who still exists. */
  predicate Facing(users: map<string, Character>, name: string)
  {
    && name in users && DuelOf(users[name]).Some?
    && DuelOf(users[name]).value.opponent in users && DuelOf(users[name]).value.opponent != name
  }

  datatype Blow = Slowed | Evaded | Landed | Won

  /**
   * The duel attack after the turn start, against an opponent who exists: the slow check spends
   * a slow turn and may lose the turn; then the opponent may evade (job chance plus its evasion
   * bonus, at most 0.9); then the rolled blow (attack 15 plus the attack bonus, against the
   * opponent's defence bonus) lands and may win the duel. Every outcome but a win passes the turn.
   */
  function Strike(users: map<string, Character>, name: string, d: Dice): (r: (map<string, Character>, Blow))
    requires ValidDice(d) && Facing(users, name)
    ensures r.0.Keys == users.Keys
  {
    var u := users[name];
    var c := DuelOf(u).value;
    var o := c.opponent;
    var opp := users[o];
    var oc := DuelOf(opp);
    var c2 := SlowTicked(c);
    if SlowSkips(c, d) then (Handover(users, name, c2), Slowed)
    else if d.evasionRoll < Rules.PvPEvasionChance(opp.jobId, EvasionOf(oc)) then (Handover(users, name, c2), Evaded)
    else Land(users, name, c2, Rules.RollDamage(15 + c2.atkBuff, DefenceOf(oc), d.hitRoll))
  }

  /**
   * A blow of `dmg` lands on the opponent of `name`, whose duel record becomes `c`; unless the
   * opponent falls, the turn passes.
   */
  function Land(users: map<string, Character>, name: string, c: PvPCombat, dmg: int): (r: (map<string, Character>, Blow))
    requires name in users && c.opponent in users && c.opponent != name
  {
    var opp := users[c.opponent];
    var hit := users[c.opponent := opp.(hp := opp.hp - dmg)][name := WithDuel(users[name], c)];
    if opp.hp - dmg <= 0 then (hit, Won) else (Handover(hit, name, c), Landed)
  }

  /** How a duel skill resolved: the duel goes on, the opponent no longer exists, or the opponent fell. */
  datatype Resolution = Continues | OpponentLeft | Victory

  /** The opponent `o` takes `dmg`; the duel is won when its hit points reach 0. */
  function Blast(users: map<string, Character>, o: string, dmg: int): (r: (map<string, Character>, Resolution))
    requires o in users
  {
    var opp := users[o].(hp := users[o].hp - dmg);
    (users[o := opp], if opp.hp <= 0 then Victory else Continues)
  }

  /** `amount` gold, when positive, moves from `o` to `name`; nothing else changes. */
  function Pickpocket(users: map<string, Character>, name: string, o: string, amount: int): (r: map<string, Character>)
    requires name in users && o in users && name != o
    ensures r.Keys == users.Keys
    ensures r[name] == users[name].(gold := r[name].gold) && r[o] == users[o].(gold := r[o].gold)
    ensures r[name].gold + r[o].gold == users[name].gold + users[o].gold
    ensures r[name].gold == users[name].gold + (if amount <= 0 then 0 else amount)
    ensures forall n :: n in users && n != name && n != o ==> r[n] == users[n]
  {
    if amount <= 0 then users
    else users[o := users[o].(gold := users[o].gold - amount)][name := users[name].(gold := users[name].gold + amount)]
  }

  /** Every duel record after the step was a duel record before it, naming the same opponent. */
  predicate SameOpponents(before: map<string, Character>, after: map<string, Character>)
  {
    forall n :: n in after && DuelOf(after[n]).Some? ==>
      n in before && DuelOf(before[n]).Some? && DuelOf(after[n]).value.opponent == DuelOf(before[n]).value.opponent
  }

  /** No duel record changed whose turn it is. */
  predicate SameTurns(before: map<string, Character>, after: map<string, Character>)
  {
    forall n :: n in after && n in before && DuelOf(after[n]).Some? && DuelOf(before[n]).Some? ==>
      DuelOf(after[n]).value.turn == DuelOf(before[n]).value.turn
  }

  /**
   * `applySkillEffectInPvP`, before a victory is settled. Damage is the effect's `value` or the
   * rolled damage (attack 15, or 20 for a sacrifice, plus the attack bonus), at least 1; a
   * sacrifice costs `hpCost` (default 10) but never below 1 hit point; a buff or debuff adds to
   * the bonuses and resets their counters; evasion, damage over time and slow REPLACE the entry;
   * a steal moves at most `maxGold` (default 10) gold and never more than the victim has. An
   * effect aimed at the opponent's duel record does nothing when the opponent is not in a duel.
   */
  function Cast(users: map<string, Character>, name: string, skill: Skill, d: Dice): (r: (map<string, Character>, Resolution))
    requires Rules.IsDraw(d.hitRoll) && Rules.IsDraw(d.stealRoll)
    requires name in users && DuelOf(users[name]).Some? && DuelOf(users[name]).value.opponent != name
    ensures r.0.Keys == users.Keys
    ensures var o := DuelOf(users[name]).value.opponent;
            forall n :: n in users && n != name && n != o ==> r.0[n] == users[n]
    ensures r.1 == OpponentLeft <==> DuelOf(users[name]).value.opponent !in users
    ensures r.1 == OpponentLeft ==> r.0 == users[name := users[name].(combat := None)]
    ensures r.1 != OpponentLeft ==>
              DuelOf(r.0[name]).Some? && DuelOf(r.0[name]).value.opponent == DuelOf(users[name]).value.opponent
    ensures r.1 == Victory ==> skill.effect.kind in {Attack, SacrificeAttack}
  {
    var u := users[name];
    var c := DuelOf(u).value;
    var o := c.opponent;
    if o !in users then (users[name := u.(combat := None)], OpponentLeft)
    else
      var opp := users[o];
      var oc := DuelOf(opp);
      var e := skill.effect;
      match e.kind
      case Attack => Blast(users, o, SkillDamage(e.value, 15 + c.atkBuff, DefenceOf(oc), d.hitRoll))
      case SacrificeAttack =>
        var paid := users[name := u.(hp := Rules.Max(1, u.hp - Rules.Or(e.hpCost, 10)))];
        Blast(paid, o, SkillDamage(e.value, 20 + c.atkBuff, DefenceOf(oc), d.hitRoll))
      case OverTime =>
        var dot := DamageOverTime(Rules.Or(e.hpPerTick, 5), Rules.Or(e.durationTurns, 3));
        (if oc.None? then users else users[o := WithDuel(opp, oc.value.(dot := Some(dot)))], Continues)
      case Buff => (users[name := WithDuel(u, Buffed(c, e))], Continues)
      case Debuff => (if oc.None? then users else users[o := WithDuel(opp, Buffed(oc.value, e))], Continues)
      case EvasionBuff =>
        var c2 := c.(evasionBuff := Rules.OrReal(e.evasionChance, 0.3), evasionTurns := Rules.Or(e.durationTurns, 2));
        (users[name := WithDuel(u, c2)], Continues)
      case SlowDebuff =>
        var slow := Slow(Rules.OrReal(e.skipTurnChance, 0.3), Rules.Or(e.durationTurns, 2));
        (if oc.None? then users else users[o := WithDuel(opp, oc.value.(slow := Some(slow)))], Continues)
      case Steal =>
        (Pickpocket(users, name, o, StealAmount(opp.gold, e.maxGold, d.stealRoll)), Continues)
      case Heal => (users, Continues)
      case Unrecognized => (users, Continues)
  }

  /**
   * A damaging duel skill: the opponent loses at least 1 hit point (the rolled damage when the
   * effect has no `value`), the duel is won exactly when the opponent's hit points reach 0, and a
   * sacrifice leaves the caster at least 1 hit point.
   */
  lemma CastDamage(users: map<string, Character>, name: string, skill: Skill, d: Dice)
    requires Rules.IsDraw(d.hitRoll) && Rules.IsDraw(d.stealRoll)
    requires name in users && DuelOf(users[name]).Some? && DuelOf(users[name]).value.opponent != name
    requires skill.effect.kind in {Attack, SacrificeAttack}
    requires DuelOf(users[name]).value.opponent in users
    ensures var r := Cast(users, name, skill, d);
            var c := DuelOf(users[name]).value;
            var o := c.opponent;
            var bonus := if skill.effect.kind == Attack then 15 else 20;
            && users[o].hp - r.0[o].hp >= 1
            && (Rules.Or(skill.effect.value, 0) == 0 ==>
                  users[o].hp - r.0[o].hp == Rules.RollDamage(bonus + c.atkBuff, DefenceOf(DuelOf(users[o])), d.hitRoll))
            && (r.1 == Victory <==> r.0[o].hp <= 0)
            && (skill.effect.kind == Attack ==> r.0[name] == users[name])
            && (skill.effect.kind == SacrificeAttack ==>
                  r.0[name] == users[name].(hp := Rules.Max(1, users[name].hp - Rules.Or(skill.effect.hpCost, 10))) &&
                  r.0[name].hp >= 1)
  {
    var c := DuelOf(users[name]).value;
    var oc := DuelOf(users[c.opponent]);
    var bonus := if skill.effect.kind == Attack then 15 else 20;
    var dmg := SkillDamage(skill.effect.value, bonus + c.atkBuff, DefenceOf(oc), d.hitRoll);
    assert dmg >= 1;
  }

  /** A duel steal moves gold from the opponent to the caster: the sum is conserved and the gain is bounded. */
  lemma CastSteal(users: map<string, Character>, name: string, skill: Skill, d: Dice)
    requires Rules.IsDraw(d.hitRoll) && Rules.IsDraw(d.stealRoll)
    requires name in users && DuelOf(users[name]).Some? && DuelOf(users[name]).value.opponent != name
    requires skill.effect.kind == Steal
    requires DuelOf(users[name]).value.opponent in users
    ensures var r := Cast(users, name, skill, d);
            var o := DuelOf(users[name]).value.opponent;
            var gain := r.0[name].gold - users[name].gold;
            && r.0[name].gold + r.0[o].gold == users[name].gold + users[o].gold
            && r.0[name] == users[name].(gold := r.0[name].gold)
            && r.0[o] == users[o].(gold := r.0[o].gold)
            && (Rules.Or(skill.effect.maxGold, 10) >= 0 && users[o].gold >= 0 ==>
                  0 <= gain <= Rules.Or(skill.effect.maxGold, 10) && gain <= users[o].gold && r.0[o].gold >= 0)
  {
    var o := DuelOf(users[name]).value.opponent;
    var amount := StealAmount(users[o].gold, skill.effect.maxGold, d.stealRoll);
    assert Cast(users, name, skill, d).0 == Pickpocket(users, name, o, amount);
  }

  /**
   * The duel skills without damage: a buff changes the caster's bonuses, a debuff the
   * opponent's; an evasion buff, damage over time or slow is replaced by the new entry; an
   * effect aimed at an opponent who is not in a duel, a heal and an unknown kind change nothing.
   */
  lemma CastTimed(users: map<string, Character>, name: string, skill: Skill, d: Dice)
    requires Rules.IsDraw(d.hitRoll) && Rules.IsDraw(d.stealRoll)
    requires name in users && DuelOf(users[name]).Some? && DuelOf(users[name]).value.opponent != name
    requires skill.effect.kind !in {Attack, SacrificeAttack, Steal}
    requires DuelOf(users[name]).value.opponent in users
    ensures var r := Cast(users, name, skill, d);
            var e := skill.effect;
            var u := users[name];
            var c := DuelOf(u).value;
            var opp := users[c.opponent];
            var oc := DuelOf(opp);
            && r.1 == Continues
            && (e.kind == Buff ==> r.0 == users[name := WithDuel(u, Buffed(c, e))])
            && (e.kind == Debuff && oc.Some? ==> r.0 == users[c.opponent := WithDuel(opp, Buffed(oc.value, e))])
            && (e.kind == EvasionBuff ==>
                  r.0[c.opponent] == opp &&
                  DuelOf(r.0[name]) == Some(c.(evasionBuff := Rules.OrReal(e.evasionChance, 0.3),
                                               evasionTurns := Rules.Or(e.durationTurns, 2))))
            && (e.kind == OverTime && oc.Some? ==>
                  r.0[name] == u &&
                  DuelOf(r.0[c.opponent]) == Some(oc.value.(dot := Some(DamageOverTime(Rules.Or(e.hpPerTick, 5), Rules.Or(e.durationTurns, 3))))))
            && (e.kind == SlowDebuff && oc.Some? ==>
                  r.0[name] == u &&
                  DuelOf(r.0[c.opponent]) == Some(oc.value.(slow := Some(Slow(Rules.OrReal(e.skipTurnChance, 0.3), Rules.Or(e.durationTurns, 2))))))
            && (e.kind in {OverTime, Debuff, SlowDebuff} && oc.None? ==> r.0 == users)
            && (e.kind in {Heal, Unrecognized} ==> r.0 == users)
  {
  }

  /** Replacing one record by one whose duel, if any, names the same opponent keeps the opponents. */
  lemma SetKeepsOpponents(users: map<string, Character>, n: string, u: Character)
    requires n in users
    requires DuelOf(u).Some? ==> DuelOf(users[n]).Some? && DuelOf(u).value.opponent == DuelOf(users[n]).value.opponent
    ensures SameOpponents(users, users[n := u])
  {
  }

  /**
   * What a duel attack promises: the turn passes after every outcome but a win, only a landed
   * blow or a win touches the opponent's hit points, by the rolled damage, and nobody else changes.
   */
  lemma StrikeProperties(users: map<string, Character>, name: string, d: Dice)
    requires ValidDice(d) && Facing(users, name)
    ensures var r := Strike(users, name, d);
            var c := DuelOf(users[name]).value;
            forall n :: n in users && n != name && n != c.opponent ==> r.0[n] == users[n]
    ensures var r := Strike(users, name, d);
            r.1 == Slowed <==> SlowSkips(DuelOf(users[name]).value, d)
    ensures var r := Strike(users, name, d);
            var c := DuelOf(users[name]).value;
            var opp := users[c.opponent];
            r.1 == Evaded <==>
              !SlowSkips(c, d) && d.evasionRoll < Rules.PvPEvasionChance(opp.jobId, EvasionOf(DuelOf(opp)))
    ensures var r := Strike(users, name, d);
            var c := DuelOf(users[name]).value;
            r.1 != Won ==> DuelOf(r.0[name]) == Some(SlowTicked(c).(turn := OpponentTurn))
    ensures var r := Strike(users, name, d);
            var c := DuelOf(users[name]).value;
            r.1 != Won && DuelOf(users[c.opponent]).Some? ==>
              DuelOf(r.0[c.opponent]) == Some(DuelOf(users[c.opponent]).value.(turn := SelfTurn))
    ensures var r := Strike(users, name, d);
            var c := DuelOf(users[name]).value;
            r.1 == Slowed || r.1 == Evaded ==> r.0[c.opponent] == users[c.opponent].(combat := r.0[c.opponent].combat)
    ensures var r := Strike(users, name, d);
            var c := DuelOf(users[name]).value;
            var dmg := Rules.RollDamage(15 + c.atkBuff, DefenceOf(DuelOf(users[c.opponent])), d.hitRoll);
            r.1 == Landed || r.1 == Won ==> r.0[c.opponent].hp == users[c.opponent].hp - dmg
    ensures var r := Strike(users, name, d);
            var c := DuelOf(users[name]).value;
            r.1 == Won <==> r.1 != Slowed && r.1 != Evaded && r.0[c.opponent].hp <= 0
  {
    var c := DuelOf(users[name]).value;
    var opp := users[c.opponent];
    var c2 := SlowTicked(c);
    if SlowSkips(c, d) {
      assert Strike(users, name, d) == (Handover(users, name, c2), Slowed);
    } else if d.evasionRoll < Rules.PvPEvasionChance(opp.jobId, EvasionOf(DuelOf(opp))) {
      assert Strike(users, name, d) == (Handover(users, name, c2), Evaded);
    } else {
      var dmg := Rules.RollDamage(15 + c2.atkBuff, DefenceOf(DuelOf(opp)), d.hitRoll);
      assert Strike(users, name, d) == Land(users, name, c2, dmg);
    }
  }

  /** A duel attack never starts a duel nor changes an opponent. */
  lemma StrikeKeepsOpponents(users: map<string, Character>, name: string, d: Dice)
    requires ValidDice(d) && Facing(users, name)
    ensures SameOpponents(users, Strike(users, name, d).0)
  {
    var c := DuelOf(users[name]).value;
    var opp := users[c.opponent];
    var c2 := SlowTicked(c);
    var r := Strike(users, name, d).0;
    if SlowSkips(c, d) || d.evasionRoll < Rules.PvPEvasionChance(opp.jobId, EvasionOf(DuelOf(opp))) {
      assert r == Handover(users, name, c2);
      HandoverKeepsOpponents(users, name, c2);
    } else {
      var dmg := Rules.RollDamage(15 + c2.atkBuff, DefenceOf(DuelOf(opp)), d.hitRoll);
      assert r == Land(users, name, c2, dmg).0;
      LandKeepsOpponents(users, name, c2, dmg);
    }
  }

  lemma LandKeepsOpponents(users: map<string, Character>, name: string, c: PvPCombat, dmg: int)
    requires name in users && c.opponent in users && c.opponent != name
    requires DuelOf(users[name]).Some? && DuelOf(users[name]).value.opponent == c.opponent
    ensures SameOpponents(users, Land(users, name, c, dmg).0)
  {
    var r := Land(users, name, c, dmg).0;
    var opp := users[c.opponent];
    var hurt := opp.(hp := opp.hp - dmg);
    assert DuelOf(hurt) == DuelOf(opp);
    forall n | n in r && DuelOf(r[n]).Some?
      ensures n in users && DuelOf(users[n]).Some? && DuelOf(r[n]).value.opponent == DuelOf(users[n]).value.opponent
    {
      if n == name {
        assert DuelOf(r[n]).value.opponent == c.opponent;
      } else if n == c.opponent {
        assert r[n] == hurt || r[n] == Yielded(hurt);
      } else {
        assert r[n] == users[n];
      }
    }
  }

  lemma OpponentsTransitive(a: map<string, Character>, b: map<string, Character>, c: map<string, Character>)
    requires SameOpponents(a, b) && SameOpponents(b, c)
    ensures SameOpponents(a, c)
  {
  }

  /** Passing the turn keeps every opponent. */
  lemma HandoverKeepsOpponents(users: map<string, Character>, name: string, c: PvPCombat)
    requires name in users && c.opponent in users && c.opponent != name
    requires DuelOf(users[name]).Some? && DuelOf(users[name]).value.opponent == c.opponent
    ensures SameOpponents(users, Handover(users, name, c))
  {
  }

  /** A duel skill never starts a duel, changes an opponent, or passes the turn. */
  lemma CastKeepsPairing(users: map<string, Character>, name: string, skill: Skill, d: Dice)
    requires Rules.IsDraw(d.hitRoll) && Rules.IsDraw(d.stealRoll)
    requires name in users && DuelOf(users[name]).Some? && DuelOf(users[name]).value.opponent != name
    ensures SameOpponents(users, Cast(users, name, skill, d).0)
    ensures SameTurns(users, Cast(users, name, skill, d).0)
  {
    var u := users[name];
    var c := DuelOf(u).value;
    var o := c.opponent;
    if o in users {
      var opp := users[o];
      var e := skill.effect;
      match e.kind
      case Attack =>
      case SacrificeAttack =>
        SetKeepsOpponents(users, name, u.(hp := Rules.Max(1, u.hp - Rules.Or(e.hpCost, 10))));
      case Steal =>
      case _ =>
    }
  }
}
