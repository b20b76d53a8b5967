/**
 * The shared game state of server.js and the commands of the combat core that read or write
 * more than the acting character: encounters on walking, the attack and skill commands, the
 * duel handshake, and the item commands.
 */
module Game {
  import opened Wrappers
  import opened Model
  import Rules
  import Inventory
  import Progression
  import PvE
  import PvP

  /** ASCII lower-casing of one character: capitals become small letters, nothing else changes. */
  function LowerChar(ch: char): (r: char)
    ensures 'A' <= ch <= 'Z' ==> 'a' <= r <= 'z' && r as int - ch as int == 32
    ensures !('A' <= ch <= 'Z') ==> r == ch
  {
    if 'A' <= ch <= 'Z' then (ch as int + 32) as char else ch
  }

  /** ASCII lower-casing, which is all `toLowerCase` does to the direction words. */
  function Lower(s: string): (r: string)
    ensures |r| == |s|
  {
    seq(|s|, i requires 0 <= i < |s| => LowerChar(s[i]))
  }

  /** The step of a lower-cased direction word: up/w, down/s, left/a, right/d. */
  function Direction(w: string): (step: Option<(int, int)>)
    ensures step.Some? ==> (step.value.0 == 0) != (step.value.1 == 0)
    ensures step.Some? ==> -1 <= step.value.0 <= 1 && -1 <= step.value.1 <= 1
    ensures step.None? <==> w !in {"up", "w", "down", "s", "left", "a", "right", "d"}
    ensures w == "up" || w == "w" ==> step == Some((0, -1))
    ensures w == "down" || w == "s" ==> step == Some((0, 1))
    ensures w == "left" || w == "a" ==> step == Some((-1, 0))
    ensures w == "right" || w == "d" ==> step == Some((1, 0))
  {
    if w == "up" || w == "w" then Some((0, -1))
    else if w == "down" || w == "s" then Some((0, 1))
    else if w == "left" || w == "a" then Some((-1, 0))
    else if w == "right" || w == "d" then Some((1, 0))
    else None
  }

  /** `findIndex` over the monsters of a map: the first one standing on (x, y), or -1. */
  function MonsterIndexAt(ms: seq<MonsterInstance>, x: int, y: int): (k: int)
    ensures -1 <= k < |ms|
    ensures k >= 0 ==> ms[k].x == x && ms[k].y == y
    ensures k >= 0 ==> forall j :: 0 <= j < k ==> !(ms[j].x == x && ms[j].y == y)
    ensures k == -1 ==> forall j :: 0 <= j < |ms| ==> !(ms[j].x == x && ms[j].y == y)
  {
    if |ms| == 0 then -1
    else if ms[0].x == x && ms[0].y == y then 0
    else
      var k := MonsterIndexAt(ms[1..], x, y);
      if k == -1 then -1 else k + 1
  }

  /** `getMonstersInMap`: the monsters standing on a map, none if it has no entry. */
  function MonstersOn(ms: map<string, seq<MonsterInstance>>, mapId: string): seq<MonsterInstance>
  {
    if mapId in ms then ms[mapId] else []
  }

  /** A fresh monster fight: the player moves first and no effect is running. */
  function Encounter(inst: MonsterInstance): (c: PvECombat)
    ensures c.monster == inst.monster && c.turn == PlayerTurn
    ensures c.playerBuff.None? && c.monsterDebuff.None? && c.monsterDot.None?
    ensures c.playerEvasion.None? && c.monsterSlow.None?
  {
    PvECombat(inst.monster, PlayerTurn, None, None, None, None, None)
  }

  /** `ensureUserPosition`: a character without a location is placed on the start map. */
  function EnsurePosition(u: Character, data: GameData): (r: Character)
    ensures r == u.(location := r.location)
    ensures r.location == (if u.location == "" then data.startMap else u.location)
  {
    if u.location == "" then u.(location := data.startMap) else u
  }

  /**
   * `processPvPTurnStart` for `name` over the table of users: a character not in a duel is left
   * alone; otherwise its record takes the turn-start tick, and a death from damage over time
   * ends the duel in the opponent's favour when the opponent still exists.
   */
  ghost predicate TurnStarted(before: map<string, Character>, name: string, data: GameData,
                              after: map<string, Character>, ended: bool)
    requires name in before
  {
    if PvP.DuelOf(before[name]).None? then !ended && after == before
    else
      var c := PvP.DuelOf(before[name]).value;
      var s := PvP.StartTurn(before[name], c);
      && ended == s.died
      && (if !s.died || c.opponent !in before then after == before[name := s.user]
          else after == PvP.Finished(before[name := s.user], c.opponent, name, data))
  }

  /** Nobody duels themselves. */
  predicate NoSelfDuel(users: map<string, Character>)
  {
    forall n :: n in users && PvP.DuelOf(users[n]).Some? ==> PvP.DuelOf(users[n]).value.opponent != n
  }

  /** Nobody duels themselves and nobody has challenged themselves. */
  predicate Consistent(users: map<string, Character>, requests: map<string, string>)
  {
    && (forall t :: t in requests ==> requests[t] != t)
    && NoSelfDuel(users)
  }

  /** Storing a record whose duel, if any, names someone else keeps the table consistent. */
  lemma SetUser(users: map<string, Character>, requests: map<string, string>, n: string, u: Character)
    requires Consistent(users, requests)
    requires PvP.DuelOf(u).Some? ==> PvP.DuelOf(u).value.opponent != n
    ensures Consistent(users[n := u], requests)
  {
  }

  /** The cell one step away in the given direction, when the direction is valid. */
  function Destination(u: Character, data: GameData, dir: string): (int, int)
  {
    var step := Direction(Lower(dir));
    if step.Some? then (EnsurePosition(u, data).posX + step.value.0, EnsurePosition(u, data).posY + step.value.1)
    else (EnsurePosition(u, data).posX, EnsurePosition(u, data).posY)
  }

  /** Where a valid step leaves the character. */
  function Arrived(u: Character, data: GameData, dir: string): Character
  {
    EnsurePosition(u, data).(posX := Destination(u, data, dir).0, posY := Destination(u, data, dir).1)
  }

  /** Whether the character is fighting a monster, which rules out walking. */
  predicate InMonsterCombat(u: Character)
  {
    u.combat.Some? && u.combat.value.PvE?
  }

  /** Whether the first slot for the item holds at least `n` of it. */
  predicate Holds(items: seq<Slot>, id: string, n: int)
  {
    Inventory.FindSlot(items, id).Some? && items[Inventory.FindSlot(items, id).value].qty >= n
  }

  /** Replacing a record by one with the same combat keeps the table consistent. */
  lemma SetSameCombat(users: map<string, Character>, requests: map<string, string>, n: string, u: Character)
    requires Consistent(users, requests) && n in users && u.combat == users[n].combat
    ensures Consistent(users[n := u], requests)
  {
  }

  /** A step that starts no duel and changes no opponent keeps the table consistent. */
  lemma KeepsConsistent(before: map<string, Character>, after: map<string, Character>, requests: map<string, string>)
    requires Consistent(before, requests) && PvP.SameOpponents(before, after)
    ensures Consistent(after, requests)
  {
  }

  /** The heal's recipient: the named user when one exists, else the caster. */
  function HealTarget(users: map<string, Character>, name: string, target: Option<string>): (t: string)
    ensures name in users ==> t in users
    ensures target.Some? && target.value != "" && target.value in users ==> t == target.value
    ensures t != name ==> target == Some(t)
  {
    if target.Some? && target.value != "" && target.value in users then target.value else name
  }

  /** Whether the combat's turn belongs to its player: `player` against a monster, `self` in a duel. */
  predicate OwnTurn(c: Combat)
  {
    match c
    case PvE(pve) => pve.turn == PlayerTurn
    case PvP(pvp) => pvp.turn == SelfTurn
  }

  /**
   * The step of `walkCommand` once walking is allowed and a direction is given, from the tables
   * `before` and `monsters` to `after` and `monstersAfter`: the character is first given a
   * location if it had none; an unknown direction or a cell that is not walkable stops there;
   * otherwise the character moves, and the first monster on the new cell, if any, leaves the
   * map and a fight with it starts.
   */
  ghost predicate Stepped(before: map<string, Character>, monsters: map<string, seq<MonsterInstance>>,
                          name: string, dir: string, data: GameData,
                          after: map<string, Character>, monstersAfter: map<string, seq<MonsterInstance>>,
                          out: WalkOutcome)
    requires name in before
  {
    var u := EnsurePosition(before[name], data);
    var dest := Destination(before[name], data, dir);
    var v := Arrived(before[name], data, dir);
    var here := MonstersOn(monsters, v.location);
    var k := MonsterIndexAt(here, v.posX, v.posY);
    if Direction(Lower(dir)).None? then
      out == BadDirection && after == before[name := u] && monstersAfter == monsters
    else if !Rules.IsWalkableCell(GridOf(data, u.location), dest.0, dest.1) then
      out == Blocked && after == before[name := u] && monstersAfter == monsters
    else if k < 0 then
      out == Moved && after == before[name := v] && monstersAfter == monsters
    else
      && out == Engaged
      && after == before[name := v.(combat := Some(PvE(Encounter(here[k]))))]
      && monstersAfter == monsters[v.location := here[..k] + here[k + 1..]]
  }

  /**
   * The duel branch of `attackCommand`, from `before` to `after`: nothing unless it is this
   * side's turn; the turn start, which may end the duel; no opponent drops the duel record;
   * otherwise `PvP.Strike` on the table after the turn start, with a win settled.
   */
  ghost predicate DuelAttacked(before: map<string, Character>, name: string, d: Dice, data: GameData,
                               after: map<string, Character>, turn: DuelTurn, blow: PvP.Blow)
    requires ValidDice(d) && name in before && PvP.DuelOf(before[name]).Some?
    requires PvP.DuelOf(before[name]).value.opponent != name
  {
    var c := PvP.DuelOf(before[name]).value;
    var s := PvP.StartTurn(before[name], c);
    var during := before[name := s.user];
    if c.turn != SelfTurn then turn == TurnNotYours && after == before
    else if s.died then turn == FellAtTurnStart && TurnStarted(before, name, data, after, true)
    else if c.opponent !in before then turn == OpponentGone && after == before[name := s.user.(combat := None)]
    else
      && turn == Played
      && PvP.Facing(during, name)
      && blow == PvP.Strike(during, name, d).1
      && (blow != PvP.Won ==> after == PvP.Strike(during, name, d).0)
      && (blow == PvP.Won ==> after == PvP.Finished(PvP.Strike(during, name, d).0, name, c.opponent, data))
  }

  /**
   * A played duel attack passes the turn to the opponent unless it wins; a win ends the duel for
   * both sides and sends the loser back to the start map with 70% of its hit points.
   */
  lemma DuelAttackOutcome(before: map<string, Character>, name: string, d: Dice, data: GameData,
                          after: map<string, Character>, turn: DuelTurn, blow: PvP.Blow)
    requires ValidDice(d) && name in before && PvP.DuelOf(before[name]).Some?
    requires PvP.DuelOf(before[name]).value.opponent != name
    requires DuelAttacked(before, name, d, data, after, turn, blow)
    ensures var o := PvP.DuelOf(before[name]).value.opponent;
            turn == Played && blow != PvP.Won ==>
              && PvP.DuelOf(after[name]).Some? && PvP.DuelOf(after[name]).value.turn == OpponentTurn
              && (PvP.DuelOf(before[o]).Some? ==> PvP.DuelOf(after[o]).Some? && PvP.DuelOf(after[o]).value.turn == SelfTurn)
    ensures var o := PvP.DuelOf(before[name]).value.opponent;
            turn == Played && blow == PvP.Won ==>
              && PvP.DuelOf(after[name]).None? && PvP.DuelOf(after[o]).None?
              && after[o].hp == Rules.RespawnHp(before[o].maxHp) && after[o].location == data.startMap
    ensures turn == TurnNotYours ==> after == before
  {
    var c := PvP.DuelOf(before[name]).value;
    var s := PvP.StartTurn(before[name], c);
    if turn == Played {
      PvP.StrikeProperties(before[name := s.user], name, d);
    }
  }

  /**
   * The duel branch of `skillCommand`, on this side's turn with the mana paid: the turn start,
   * which may end the duel; no opponent drops the duel record; slow may lose the turn; otherwise
   * `applySkillEffectInPvP`, a victory settled, and unless it ended the duel the turn passes.
   */
  ghost predicate DuelSkilled(before: map<string, Character>, name: string, skill: Skill, d: Dice, data: GameData,
                              after: map<string, Character>, turn: DuelTurn, slowed: bool, res: PvP.Resolution)
    requires ValidDice(d) && name in before && PvP.DuelOf(before[name]).Some?
    requires PvP.DuelOf(before[name]).value.opponent != name
  {
    var c := PvP.DuelOf(before[name]).value;
    var s := PvP.StartTurn(before[name], c);
    var during := before[name := s.user];
    var c1 := PvP.DuelOf(s.user).value;
    if s.died then turn == FellAtTurnStart && TurnStarted(before, name, data, after, true)
    else if c.opponent !in before then turn == OpponentGone && after == before[name := s.user.(combat := None)]
    else
      && turn == Played
      && slowed == PvP.SlowSkips(c1, d)
      && (slowed ==> res == PvP.Continues && after == PvP.Handover(during, name, PvP.SlowTicked(c1)))
      && (!slowed ==>
            var r := PvP.Cast(during[name := PvP.WithDuel(s.user, PvP.SlowTicked(c1))], name, skill, d);
            && res == r.1 && res != PvP.OpponentLeft
            && (res == PvP.Victory ==> after == PvP.Finished(r.0, name, c.opponent, data))
            && (res == PvP.Continues ==> after == PvP.Handover(r.0, name, PvP.DuelOf(r.0[name]).value)))
  }

  /**
   * A skill other than a heal, from `before` to `after`: it needs a fight and the caster's turn,
   * then costs its mana (`mpCost`, default 0) and is resolved against the monster or in the duel.
   */
  ghost predicate Fought(before: map<string, Character>, name: string, skill: Skill, d: Dice, data: GameData,
                         after: map<string, Character>, out: SkillOutcome)
    requires ValidDice(d) && name in before && NoSelfDuel(before)
  {
    var u := before[name];
    var cost := Rules.Or(skill.mpCost, 0);
    var paid := before[name := u.(mp := u.mp - cost)];
    if u.combat.None? then out == SkillNotInCombat && after == before
    else if !OwnTurn(u.combat.value) then out == SkillNotYourTurn && after == before
    else if u.mp < cost then out == NoMp && after == before
    else if u.combat.value.PvE? then
      && out.MonsterSkill?
      && name in after && after == before[name := after[name]]
      && PvE.SkillTurned(paid[name], skill, d, data, after[name], out.pve)
    else
      && out.DuelSkill?
      && DuelSkilled(paid, name, skill, d, data, after, out.turn, out.slowed, out.resolution)
  }

  /**
   * A played duel skill passes the turn unless it wins: the caster waits and the opponent, if in
   * the duel, moves next. A win ends the duel for both sides and sends the loser back to the
   * start map; a lost (slowed) turn leaves the opponent's hit points alone.
   */
  lemma DuelSkillOutcome(before: map<string, Character>, name: string, skill: Skill, d: Dice, data: GameData,
                         after: map<string, Character>, turn: DuelTurn, slowed: bool, res: PvP.Resolution)
    requires ValidDice(d) && name in before && PvP.DuelOf(before[name]).Some?
    requires PvP.DuelOf(before[name]).value.opponent != name
    requires DuelSkilled(before, name, skill, d, data, after, turn, slowed, res)
    ensures var o := PvP.DuelOf(before[name]).value.opponent;
            turn == Played && res == PvP.Continues ==>
              && PvP.DuelOf(after[name]).Some? && PvP.DuelOf(after[name]).value.turn == OpponentTurn
              && (PvP.DuelOf(after[o]).Some? ==> PvP.DuelOf(after[o]).value.turn == SelfTurn)
    ensures var o := PvP.DuelOf(before[name]).value.opponent;
            turn == Played && res == PvP.Victory ==>
              && PvP.DuelOf(after[name]).None? && PvP.DuelOf(after[o]).None?
              && after[o].location == data.startMap
    ensures var o := PvP.DuelOf(before[name]).value.opponent;
            turn == Played && slowed ==> after[o] == before[o].(combat := after[o].combat)
    ensures turn == Played ==> res != PvP.OpponentLeft
  {
  }

  datatype DuelOutcome = NotLoggedIn | NoTarget | SelfTarget | NoSuchUser | AlreadyFighting | TargetFighting | Requested
  datatype AnswerOutcome = AnswerNotLoggedIn | NoChallenger | NoRequest | ChallengerGone | Busy | Answered
  datatype WalkOutcome = WalkNotLoggedIn | InMonsterFight | NoDirection | BadDirection | Blocked | Moved | Engaged
  datatype GiveOutcome = GiveNotLoggedIn | BadQuantity | NoRecipient | NotEnough | Given
  /** How a duel turn went: not this side's turn, lost to damage over time, no opponent, or played. */
  datatype DuelTurn = TurnNotYours | FellAtTurnStart | OpponentGone | Played
  datatype AttackOutcome = AttackNotLoggedIn | NotInCombat | MonsterAttack(pve: PvE.Outcome) | DuelAttack(turn: DuelTurn, blow: PvP.Blow)
  datatype SkillOutcome =
    | SkillNotLoggedIn | NotLearned | UnknownSkill | NoMp | HealCast | SkillNotInCombat | SkillNotYourTurn
    | MonsterSkill(pve: PvE.Outcome) | DuelSkill(turn: DuelTurn, slowed: bool, resolution: PvP.Resolution)

  class World {
    /** Every account, keyed by name. */
    var users: map<string, Character>
    /** Pending duel requests: the challenged user's name to the challenger's. */
    var duelRequests: map<string, string>
    /** The monsters standing on each map. */
    var mapMonsters: map<string, seq<MonsterInstance>>
    const data: GameData

    ghost predicate Valid()
      reads this
    {
      Consistent(users, duelRequests)
    }

    /**
     * Server start: the accounts as loaded, each given the base skill, no pending request. An
     * account saved mid-duel is loaded with its duel record.
     */
    constructor (d: GameData, accounts: map<string, Character>, monsters: map<string, seq<MonsterInstance>>)
      requires NoSelfDuel(accounts)
      ensures Valid()
      ensures data == d && mapMonsters == monsters && duelRequests == map[]
      ensures users.Keys == accounts.Keys
      ensures forall n :: n in accounts ==>
                users[n] == accounts[n].(skills := Progression.EnsureBaseSkills(accounts[n].skills))
      ensures forall n :: n in users ==> Rules.DefaultSkillId in users[n].skills
    {
      data := d;
      users := map n | n in accounts :: accounts[n].(skills := Progression.EnsureBaseSkills(accounts[n].skills));
      mapMonsters := monsters;
      duelRequests := map[];
    }

    /** `finishDuelWithWinner`: nothing happens unless both sides still exist. */
    method FinishDuelWithWinner(winner: string, loser: string)
      requires Valid()
      modifies this
      ensures duelRequests == old(duelRequests) && mapMonsters == old(mapMonsters)
      ensures winner in old(users) && loser in old(users) ==> users == PvP.Finished(old(users), winner, loser, data)
      ensures !(winner in old(users) && loser in old(users)) ==> users == old(users)
      ensures Valid()
    {
      if !(winner in users && loser in users) {
        return;
      }
      var l := Respawned(users[loser], data);
      users := users[loser := PvP.EndDuel(l)];
      var w := users[winner];
      users := users[winner := PvP.EndDuel(w)];
    }

    /** `processPvPTurnStart`: returns whether the duel ended. */
    method ProcessPvPTurnStart(name: string) returns (ended: bool)
      requires Valid() && name in users
      modifies this
      ensures duelRequests == old(duelRequests) && mapMonsters == old(mapMonsters)
      ensures TurnStarted(old(users), name, data, users, ended)
      ensures Valid()
    {
      var u := users[name];
      if PvP.DuelOf(u).None? {
        return false;
      }
      var c := PvP.DuelOf(u).value;
      var s := PvP.StartTurn(u, c);
      users := users[name := s.user];
      if s.died {
        if c.opponent in users {
          FinishDuelWithWinner(c.opponent, name);
        }
        return true;
      }
      return false;
    }

    /** `duelCommand`: a request is keyed by the challenged user and replaces any earlier one. */
    method Duel(name: string, target: Option<string>) returns (out: DuelOutcome)
      requires Valid()
      modifies this
      ensures users == old(users) && mapMonsters == old(mapMonsters)
      ensures out == NotLoggedIn <==> name !in users
      ensures out == NoTarget <==> name in users && target.None?
      ensures out == SelfTarget <==> name in users && target == Some(name)
      ensures out == NoSuchUser <==> name in users && target.Some? && target.value != name && target.value !in users
      ensures out == Requested <==>
                name in users && target.Some? && target.value != name && target.value in users &&
                users[name].combat.None? && users[target.value].combat.None?
      ensures out == Requested ==> duelRequests == old(duelRequests)[target.value := name]
      ensures out != Requested ==> duelRequests == old(duelRequests)
      ensures Valid()
    {
      if name !in users {
        return NotLoggedIn;
      }
      if target.None? {
        return NoTarget;
      }
      var targetName := target.value;
      if targetName == name {
        return SelfTarget;
      }
      if targetName !in users {
        return NoSuchUser;
      }
      if users[name].combat.Some? {
        return AlreadyFighting;
      }
      if users[targetName].combat.Some? {
        return TargetFighting;
      }
      duelRequests := duelRequests[targetName := name];
      return Requested;
    }

    /** Whether `name` holds a request from exactly `challenger`. */
    predicate HasRequest(name: string, challenger: string)
      reads this
    {
      name in duelRequests && duelRequests[name] == challenger
    }

    /**
     * `acceptDuelCommand`: only the pending challenger can be accepted. The request is then
     * consumed; if both sides are free, each gets a fresh duel record naming the other, the
     * acceptor moving first.
     */
    method AcceptDuel(name: string, challenger: Option<string>) returns (out: AnswerOutcome)
      requires Valid()
      modifies this
      ensures mapMonsters == old(mapMonsters)
      ensures out == AnswerNotLoggedIn <==> name !in old(users)
      ensures out == NoChallenger <==> name in old(users) && challenger.None?
      ensures out == NoRequest <==> name in old(users) && challenger.Some? && !old(HasRequest(name, challenger.value))
      ensures out in {AnswerNotLoggedIn, NoChallenger, NoRequest} ==>
                users == old(users) && duelRequests == old(duelRequests)
      ensures out == ChallengerGone <==>
                name in old(users) && challenger.Some? && old(HasRequest(name, challenger.value)) && challenger.value !in old(users)
      ensures out == ChallengerGone || out == Busy ==>
                users == old(users) && duelRequests == old(duelRequests) - {name}
      ensures out == Busy <==>
                name in old(users) && challenger.Some? && old(HasRequest(name, challenger.value)) &&
                challenger.value in old(users) &&
                (old(users)[name].combat.Some? || old(users)[challenger.value].combat.Some?)
      ensures out == Answered <==>
                name in old(users) && challenger.Some? && old(HasRequest(name, challenger.value)) &&
                challenger.value in old(users) &&
                old(users)[name].combat.None? && old(users)[challenger.value].combat.None?
      ensures out == Answered ==>
                && duelRequests == old(duelRequests) - {name}
                && users == old(users)[name := PvP.WithDuel(PvP.Revived(old(users)[name]), PvP.FreshDuel(challenger.value, SelfTurn))]
                                      [challenger.value := PvP.WithDuel(PvP.Revived(old(users)[challenger.value]),
                                                                        PvP.FreshDuel(name, OpponentTurn))]
      ensures out == Answered ==>
                && PvP.DuelOf(users[name]).value.opponent == challenger.value
                && PvP.DuelOf(users[challenger.value]).value.opponent == name
                && PvP.DuelOf(users[name]).value.turn == SelfTurn
                && PvP.DuelOf(users[challenger.value]).value.turn == OpponentTurn
      ensures Valid()
    {
      if name !in users {
        return AnswerNotLoggedIn;
      }
      if challenger.None? {
        return NoChallenger;
      }
      var challengerName := challenger.value;
      if !HasRequest(name, challengerName) {
        return NoRequest;
      }
      if challengerName !in users {
        duelRequests := duelRequests - {name};
        return ChallengerGone;
      }
      if users[name].combat.Some? || users[challengerName].combat.Some? {
        duelRequests := duelRequests - {name};
        return Busy;
      }
      var u := PvP.WithDuel(PvP.Revived(users[name]), PvP.FreshDuel(challengerName, SelfTurn));
      var ch := PvP.WithDuel(PvP.Revived(users[challengerName]), PvP.FreshDuel(name, OpponentTurn));
      SetUser(users, duelRequests - {name}, name, u);
      SetUser(users[name := u], duelRequests - {name}, challengerName, ch);
      duelRequests := duelRequests - {name};
      users := users[name := u][challengerName := ch];
      return Answered;
    }

    /** `declineDuelCommand`: only the pending challenger can be declined; the request is consumed. */
    method DeclineDuel(name: string, challenger: Option<string>) returns (out: AnswerOutcome)
      requires Valid()
      modifies this
      ensures users == old(users) && mapMonsters == old(mapMonsters)
      ensures out == AnswerNotLoggedIn <==> name !in users
      ensures out == NoChallenger <==> name in users && challenger.None?
      ensures out == NoRequest <==> name in users && challenger.Some? && !old(HasRequest(name, challenger.value))
      ensures out == Answered <==> name in users && challenger.Some? && old(HasRequest(name, challenger.value))
      ensures out == Answered ==> duelRequests == old(duelRequests) - {name}
      ensures out != Answered ==> duelRequests == old(duelRequests)
      ensures Valid()
    {
      if name !in users {
        return AnswerNotLoggedIn;
      }
      if challenger.None? {
        return NoChallenger;
      }
      if !HasRequest(name, challenger.value) {
        return NoRequest;
      }
      duelRequests := duelRequests - {name};
      return Answered;
    }

    /**
     * `walkCommand`: a step in one of four directions onto a walkable cell. Stepping onto a
     * monster takes it off the map and starts a fight with it. Only a monster fight blocks
     * walking; see `Stepped`.
     */
    method Walk(name: string, dir: Option<string>) returns (out: WalkOutcome)
      requires Valid()
      modifies this
      ensures duelRequests == old(duelRequests)
      ensures out == WalkNotLoggedIn <==> name !in old(users)
      ensures out == InMonsterFight <==> name in old(users) && InMonsterCombat(old(users)[name])
      ensures out == NoDirection <==> name in old(users) && !InMonsterCombat(old(users)[name]) && dir.None?
      ensures out in {WalkNotLoggedIn, InMonsterFight, NoDirection} ==>
                users == old(users) && mapMonsters == old(mapMonsters)
      ensures out !in {WalkNotLoggedIn, InMonsterFight, NoDirection} ==>
                Stepped(old(users), old(mapMonsters), name, dir.value, data, users, mapMonsters, out)
      ensures Valid()
    {
      if name !in users {
        out := WalkNotLoggedIn;
      } else if InMonsterCombat(users[name]) {
        out := InMonsterFight;
      } else if dir.None? {
        out := NoDirection;
      } else {
        out := Stride(name, dir.value);
      }
    }

    /** The step itself, for a character not fighting a monster; see `Stepped`. */
    method Stride(name: string, dir: string) returns (out: WalkOutcome)
      requires Valid() && name in users && !InMonsterCombat(users[name])
      modifies this
      ensures duelRequests == old(duelRequests)
      ensures Stepped(old(users), old(mapMonsters), name, dir, data, users, mapMonsters, out)
      ensures Valid()
    {
      var u := EnsurePosition(users[name], data);
      var step := Direction(Lower(dir));
      if step.None? {
        SetUser(users, duelRequests, name, u);
        users := users[name := u];
        out := BadDirection;
      } else if !Rules.IsWalkableCell(GridOf(data, u.location), u.posX + step.value.0, u.posY + step.value.1) {
        SetUser(users, duelRequests, name, u);
        users := users[name := u];
        out := Blocked;
      } else {
        u := u.(posX := u.posX + step.value.0, posY := u.posY + step.value.1);
        var k := EnterCell(name, u);
        out := if k >= 0 then Engaged else Moved;
      }
    }

    /**
     * Arriving on a cell: the first monster standing there, at index `k` of the map's list (-1
     * for none), leaves the map and a fight with it starts.
     */
    method EnterCell(name: string, u: Character) returns (k: int)
      requires Valid()
      requires PvP.DuelOf(u).Some? ==> PvP.DuelOf(u).value.opponent != name
      modifies this
      ensures duelRequests == old(duelRequests)
      ensures k == MonsterIndexAt(MonstersOn(old(mapMonsters), u.location), u.posX, u.posY)
      ensures k < 0 ==> users == old(users)[name := u] && mapMonsters == old(mapMonsters)
      ensures k >= 0 ==>
                var here := MonstersOn(old(mapMonsters), u.location);
                && users == old(users)[name := u.(combat := Some(PvE(Encounter(here[k]))))]
                && mapMonsters == old(mapMonsters)[u.location := here[..k] + here[k + 1..]]
      ensures Valid()
    {
      var here := MonstersOn(mapMonsters, u.location);
      k := MonsterIndexAt(here, u.posX, u.posY);
      var v := u;
      if k >= 0 {
        v := u.(combat := Some(PvE(Encounter(here[k]))));
        mapMonsters := mapMonsters[u.location := here[..k] + here[k + 1..]];
      }
      SetUser(users, duelRequests, name, v);
      users := users[name := v];
    }

    /** `useItemCommand` on the user's own record. */
    method UseItem(name: string, itemArg: Option<string>) returns (res: Option<Inventory.UseResult>)
      requires Valid()
      modifies this
      ensures duelRequests == old(duelRequests) && mapMonsters == old(mapMonsters)
      ensures res.None? <==> name !in old(users)
      ensures res.None? ==> users == old(users)
      ensures res.Some? ==>
                && name in users && users == old(users)[name := users[name]]
                && Inventory.Used(old(users)[name], itemArg, data.items, users[name], res.value)
      ensures Valid()
    {
      if name !in users {
        return None;
      }
      var r, out := Inventory.UseItem(users[name], itemArg, data.items);
      users := users[name := r];
      return Some(out);
    }

    /**
     * `giveItemCommand`: a positive quantity the giver holds in its first slot for the item is
     * taken from that slot and added to the recipient's inventory (the counts are in
     * `Inventory.GiveCounts` and `Inventory.GiveToSelfCounts`).
     */
    method GiveItem(name: string, target: string, itemId: string, qty: Option<int>) returns (out: GiveOutcome)
      requires Valid()
      modifies this
      ensures duelRequests == old(duelRequests) && mapMonsters == old(mapMonsters)
      ensures out == GiveNotLoggedIn <==> name !in old(users)
      ensures out == BadQuantity <==> name in old(users) && (qty.None? || qty.value <= 0)
      ensures out == NoRecipient <==> name in old(users) && qty.Some? && qty.value > 0 && target !in old(users)
      ensures out == Given <==> name in old(users) && qty.Some? && qty.value > 0 && target in old(users) &&
                                Holds(old(users)[name].items, itemId, qty.value)
      ensures out != Given ==> users == old(users)
      ensures out == Given && name != target ==>
                var giver := old(users)[name];
                var recipient := old(users)[target];
                users == old(users)[name := giver.(items := Inventory.TakeFromSlot(giver.items, Inventory.FindSlot(giver.items, itemId).value, qty.value))]
                                   [target := recipient.(items := Inventory.AddItemToUser(recipient.items, itemId, qty.value))]
      ensures out == Given && name == target ==>
                var giver := old(users)[name];
                var left := Inventory.TakeFromSlot(giver.items, Inventory.FindSlot(giver.items, itemId).value, qty.value);
                users == old(users)[name := giver.(items := Inventory.AddItemToUser(left, itemId, qty.value))]
      ensures Valid()
    {
      if name !in users {
        return GiveNotLoggedIn;
      }
      if qty.None? || qty.value <= 0 {
        return BadQuantity;
      }
      var n := qty.value;
      if target !in users {
        return NoRecipient;
      }
      if !Holds(users[name].items, itemId, n) {
        return NotEnough;
      }
      Transfer(name, target, itemId, n);
      return Given;
    }

    /** The hand-over itself: `n` of the item leave the giver's slot and join the recipient's inventory. */
    method Transfer(name: string, target: string, itemId: string, n: int)
      requires Valid() && name in users && target in users && Holds(users[name].items, itemId, n)
      modifies this
      ensures duelRequests == old(duelRequests) && mapMonsters == old(mapMonsters)
      ensures name != target ==>
                var giver := old(users)[name];
                var recipient := old(users)[target];
                users == old(users)[name := giver.(items := Inventory.TakeFromSlot(giver.items, Inventory.FindSlot(giver.items, itemId).value, n))]
                                   [target := recipient.(items := Inventory.AddItemToUser(recipient.items, itemId, n))]
      ensures name == target ==>
                var giver := old(users)[name];
                var left := Inventory.TakeFromSlot(giver.items, Inventory.FindSlot(giver.items, itemId).value, n);
                users == old(users)[name := giver.(items := Inventory.AddItemToUser(left, itemId, n))]
      ensures Valid()
    {
      var u := users[name];
      var left := Inventory.TakeFromSlot(u.items, Inventory.FindSlot(u.items, itemId).value, n);
      if name == target {
        var back := u.(items := Inventory.AddItemToUser(left, itemId, n));
        SetSameCombat(users, duelRequests, name, back);
        users := users[name := back];
      } else {
        var t := users[target];
        var giver := u.(items := left);
        var recipient := t.(items := Inventory.AddItemToUser(t.items, itemId, n));
        SetSameCombat(users, duelRequests, name, giver);
        SetSameCombat(users[name := giver], duelRequests, target, recipient);
        users := users[name := giver][target := recipient];
      }
    }
  
    /**
     * The duel attack once the turn start is past and the opponent exists: `PvP.Strike`, with a
     * win settled by `finishDuelWithWinner`.
     */
    method DuelBlow(name: string, d: Dice) returns (blow: PvP.Blow)
      requires Valid() && ValidDice(d) && PvP.Facing(users, name)
      modifies this
      ensures duelRequests == old(duelRequests) && mapMonsters == old(mapMonsters)
      ensures blow == PvP.Strike(old(users), name, d).1
      ensures blow != PvP.Won ==> users == PvP.Strike(old(users), name, d).0
      ensures blow == PvP.Won ==>
                users == PvP.Finished(PvP.Strike(old(users), name, d).0, name, PvP.DuelOf(old(users)[name]).value.opponent, data)
      ensures Valid()
    {
      var o := PvP.DuelOf(users[name]).value.opponent;
      var r := PvP.Strike(users, name, d);
      PvP.StrikeKeepsOpponents(users, name, d);
      KeepsConsistent(users, r.0, duelRequests);
      users := r.0;
      blow := r.1;
      if blow == PvP.Won {
        FinishDuelWithWinner(name, o);
      }
    }

    /**
     * The duel branch of `attackCommand`: only on this side's turn; the turn start, which may end
     * the duel; then, if the opponent still exists, the blow, else the duel record is dropped.
     */
    method DuelAttackTurn(name: string, d: Dice) returns (turn: DuelTurn, blow: PvP.Blow)
      requires Valid() && ValidDice(d) && name in users && PvP.DuelOf(users[name]).Some?
      modifies this
      ensures duelRequests == old(duelRequests) && mapMonsters == old(mapMonsters)
      ensures DuelAttacked(old(users), name, d, data, users, turn, blow)
      ensures Valid()
    {
      blow := PvP.Slowed;
      var c := PvP.DuelOf(users[name]).value;
      if c.turn != SelfTurn {
        return TurnNotYours, blow;
      }
      var ended := ProcessPvPTurnStart(name);
      if ended {
        return FellAtTurnStart, blow;
      }
      if c.opponent !in users {
        SetUser(users, duelRequests, name, users[name].(combat := None));
        users := users[name := users[name].(combat := None)];
        return OpponentGone, blow;
      }
      blow := DuelBlow(name, d);
      return Played, blow;
    }
  
    /** `attackCommand`: the monster fight or the duel the character is in. */
    method Attack(name: string, d: Dice) returns (out: AttackOutcome)
      requires Valid() && ValidDice(d)
      modifies this
      ensures duelRequests == old(duelRequests) && mapMonsters == old(mapMonsters)
      ensures out == AttackNotLoggedIn <==> name !in old(users)
      ensures out == NotInCombat <==> name in old(users) && old(users)[name].combat.None?
      ensures out in {AttackNotLoggedIn, NotInCombat} ==> users == old(users)
      ensures out.MonsterAttack? <==> name in old(users) && InMonsterCombat(old(users)[name])
      ensures out.MonsterAttack? ==>
                var u := old(users)[name];
                var c := u.combat.value.pve;
                && name in users && users == old(users)[name := users[name]]
                && (out.pve == PvE.NotYourTurn <==> c.turn != PlayerTurn)
                && (out.pve == PvE.NotYourTurn ==> users == old(users))
                && (out.pve == PvE.Killed <==>
                      c.turn == PlayerTurn &&
                      (PvE.Struck(c, d).monster.hp <= 0 || PvE.DotTicked(PvE.Struck(c, d)).monster.hp <= 0))
                && (out.pve == PvE.Killed ==> PvE.Rewarded(u, c.monster, d, data.skills, users[name]))
                && (out.pve.Countered? ==>
                      PvE.Riposted(u, PvE.DotTicked(PvE.Struck(c, d)).(turn := MonsterTurn), d, data, users[name], out.pve.riposte))
      ensures out.DuelAttack? <==> name in old(users) && PvP.DuelOf(old(users)[name]).Some?
      ensures out.DuelAttack? ==>
                PvP.DuelOf(old(users)[name]).value.opponent != name &&
                DuelAttacked(old(users), name, d, data, users, out.turn, out.blow)
      ensures Valid()
    {
      if name !in users {
        return AttackNotLoggedIn;
      }
      var u := users[name];
      if u.combat.None? {
        return NotInCombat;
      }
      if u.combat.value.PvE? {
        var r, outcome := PvE.AttackMonster(u, u.combat.value.pve, d, data);
        SetUser(users, duelRequests, name, r);
        users := users[name := r];
        return MonsterAttack(outcome);
      }
      var turn, blow := DuelAttackTurn(name, d);
      return DuelAttack(turn, blow);
    }
  
    /**
     * `applySkillEffectInPvP`: `PvP.Cast`, with a victory settled by `finishDuelWithWinner`.
     * The duel has ended unless the result is `Continues`.
     */
    method ApplySkillEffectInPvP(name: string, skill: Skill, d: Dice) returns (res: PvP.Resolution)
      requires Valid() && Rules.IsDraw(d.hitRoll) && Rules.IsDraw(d.stealRoll)
      requires name in users && PvP.DuelOf(users[name]).Some?
      modifies this
      ensures duelRequests == old(duelRequests) && mapMonsters == old(mapMonsters)
      ensures res == PvP.Cast(old(users), name, skill, d).1
      ensures res != PvP.Victory ==> users == PvP.Cast(old(users), name, skill, d).0
      ensures res == PvP.Victory ==>
                users == PvP.Finished(PvP.Cast(old(users), name, skill, d).0, name, PvP.DuelOf(old(users)[name]).value.opponent, data)
      ensures Valid()
    {
      var o := PvP.DuelOf(users[name]).value.opponent;
      var r := PvP.Cast(users, name, skill, d);
      PvP.CastKeepsPairing(users, name, skill, d);
      KeepsConsistent(users, r.0, duelRequests);
      users := r.0;
      res := r.1;
      if res == PvP.Victory {
        FinishDuelWithWinner(name, o);
      }
    }

    /** The duel branch of `skillCommand`, paying `cost` mana first; see `DuelSkilled`. */
    method DuelSkillTurn(name: string, skill: Skill, d: Dice, cost: int) returns (turn: DuelTurn, slowed: bool, res: PvP.Resolution)
      requires Valid() && ValidDice(d) && name in users && PvP.DuelOf(users[name]).Some?
      modifies this
      ensures duelRequests == old(duelRequests) && mapMonsters == old(mapMonsters)
      ensures DuelSkilled(old(users)[name := old(users)[name].(mp := old(users)[name].mp - cost)], name, skill, d, data,
                          users, turn, slowed, res)
      ensures Valid()
    {
      var paid := users[name].(mp := users[name].mp - cost);
      SetSameCombat(users, duelRequests, name, paid);
      users := users[name := paid];
      slowed, res := false, PvP.Continues;
      var c := PvP.DuelOf(users[name]).value;
      var ended := ProcessPvPTurnStart(name);
      if ended {
        return FellAtTurnStart, slowed, res;
      }
      if c.opponent !in users {
        SetUser(users, duelRequests, name, users[name].(combat := None));
        users := users[name := users[name].(combat := None)];
        return OpponentGone, slowed, res;
      }
      var u := users[name];
      var c1 := PvP.DuelOf(u).value;
      var ticked := PvP.SlowTicked(c1);
      if PvP.SlowSkips(c1, d) {
        PvP.HandoverKeepsOpponents(users, name, ticked);
        KeepsConsistent(users, PvP.Handover(users, name, ticked), duelRequests);
        users := PvP.Handover(users, name, ticked);
        return Played, true, res;
      }
      SetUser(users, duelRequests, name, PvP.WithDuel(u, ticked));
      users := users[name := PvP.WithDuel(u, ticked)];
      res := ApplySkillEffectInPvP(name, skill, d);
      if res == PvP.Continues {
        var mine := PvP.DuelOf(users[name]).value;
        PvP.HandoverKeepsOpponents(users, name, mine);
        KeepsConsistent(users, PvP.Handover(users, name, mine), duelRequests);
        users := PvP.Handover(users, name, mine);
      }
      return Played, false, res;
    }
  
    /**
     * `skillCommand`: the skill must be learned and known. A heal works anywhere: it costs its
     * mana and restores `value` (default 25) to the named user if one exists, else to the caster.
     * Every other skill is resolved in the fight; see `Fought`.
     */
    method CastSkill(name: string, skillId: string, target: Option<string>, d: Dice) returns (out: SkillOutcome)
      requires Valid() && ValidDice(d)
      modifies this
      ensures duelRequests == old(duelRequests) && mapMonsters == old(mapMonsters)
      ensures out == SkillNotLoggedIn <==> name !in old(users)
      ensures out == NotLearned <==> name in old(users) && skillId !in old(users)[name].skills
      ensures out == UnknownSkill <==>
                name in old(users) && skillId in old(users)[name].skills && SkillById(data.skills, skillId).None?
      ensures out in {SkillNotLoggedIn, NotLearned, UnknownSkill, NoMp, SkillNotInCombat, SkillNotYourTurn} ==>
                users == old(users)
      ensures name in old(users) && skillId in old(users)[name].skills && SkillById(data.skills, skillId).Some? ==>
                var u := old(users)[name];
                var skill := SkillById(data.skills, skillId).value;
                var cost := Rules.Or(skill.mpCost, 0);
                && (skill.effect.kind == Heal ==> (out == HealCast <==> u.mp >= cost) && (out == NoMp <==> u.mp < cost))
                && (skill.effect.kind != Heal ==> Fought(old(users), name, skill, d, data, users, out))
      ensures out == HealCast ==>
                var u := old(users)[name];
                var skill := SkillById(data.skills, skillId).value;
                var paid := old(users)[name := u.(mp := u.mp - Rules.Or(skill.mpCost, 0))];
                var t := HealTarget(old(users), name, target);
                users == paid[t := Healed(paid[t], Rules.Or(skill.effect.value, 25))]
      ensures Valid()
    {
      if name !in users {
        return SkillNotLoggedIn;
      }
      var u := users[name];
      if skillId !in u.skills {
        return NotLearned;
      }
      var found := SkillById(data.skills, skillId);
      if found.None? {
        return UnknownSkill;
      }
      var skill := found.value;
      var cost := Rules.Or(skill.mpCost, 0);
      if skill.effect.kind == Heal {
        if u.mp < cost {
          return NoMp;
        }
        HealSkill(name, target, cost, Rules.Or(skill.effect.value, 25));
        return HealCast;
      }
      out := FightSkill(name, skill, d);
    }

    /** A skill other than a heal, in `skillCommand`; see `Fought`. */
    method FightSkill(name: string, skill: Skill, d: Dice) returns (out: SkillOutcome)
      requires Valid() && ValidDice(d) && name in users
      modifies this
      ensures duelRequests == old(duelRequests) && mapMonsters == old(mapMonsters)
      ensures Fought(old(users), name, skill, d, data, users, out)
      ensures Valid()
    {
      var u := users[name];
      var cost := Rules.Or(skill.mpCost, 0);
      if u.combat.None? {
        out := SkillNotInCombat;
      } else if !OwnTurn(u.combat.value) {
        out := SkillNotYourTurn;
      } else if u.mp < cost {
        out := NoMp;
      } else {
        var paidU := u.(mp := u.mp - cost);
        if u.combat.value.PvE? {
          var r, outcome := PvE.SkillTurn(paidU, skill, d, data);
          SetUser(users, duelRequests, name, r);
          users := users[name := r];
          out := MonsterSkill(outcome);
        } else {
          var turn, slowed, res := DuelSkillTurn(name, skill, d, cost);
          out := DuelSkill(turn, slowed, res);
        }
      }
    }

    /** The heal branch of `skillCommand`: the caster pays `cost`, the recipient gains up to `amount`. */
    method HealSkill(name: string, target: Option<string>, cost: int, amount: int)
      requires Valid() && name in users
      modifies this
      ensures duelRequests == old(duelRequests) && mapMonsters == old(mapMonsters)
      ensures var paid := old(users)[name := old(users)[name].(mp := old(users)[name].mp - cost)];
              var t := HealTarget(old(users), name, target);
              users == paid[t := Healed(paid[t], amount)]
      ensures Valid()
    {
      var t := HealTarget(users, name, target);
      var paid := users[name].(mp := users[name].mp - cost);
      SetSameCombat(users, duelRequests, name, paid);
      users := users[name := paid];
      var healed := Healed(users[t], amount);
      SetSameCombat(users, duelRequests, t, healed);
      users := users[t := healed];
    }
  }
}
