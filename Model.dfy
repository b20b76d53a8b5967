/**
 * The records of server.js: skill definitions and their effect descriptors, monsters, the two
 * kinds of combat state with their timed modifiers, inventory slots, characters, the static game
 * data the core reads, and the random draws one command consumes.
 */
module Model {
  import opened Wrappers
  import Rules

  /** `effect.kind`; both "overTime" and "attackOverTime" name the damage-over-time effect. */
  datatype EffectKind =
    | Heal | Attack | SacrificeAttack | Buff | Debuff | OverTime
    | EvasionBuff | SlowDebuff | Steal | Unrecognized

  function ParseKind(kind: Option<string>): (k: EffectKind)
    ensures kind == Some("overTime") || kind == Some("attackOverTime") ==> k == OverTime
    ensures kind.None? ==> k == Unrecognized
  {
    if kind == Some("heal") then Heal
    else if kind == Some("attack") then Attack
    else if kind == Some("sacrificeAttack") then SacrificeAttack
    else if kind == Some("buff") then Buff
    else if kind == Some("debuff") then Debuff
    else if kind == Some("overTime") || kind == Some("attackOverTime") then OverTime
    else if kind == Some("evasionBuff") then EvasionBuff
    else if kind == Some("slowDebuff") then SlowDebuff
    else if kind == Some("steal") then Steal
    else Unrecognized
  }

  /** A skill's effect descriptor; a skill without one is the descriptor `{}`. */
  datatype Effect = Effect(
    kind: EffectKind,
    value: Option<int>,
    hpCost: Option<int>,
    attackModifier: Option<int>,
    defenseModifier: Option<int>,
    durationTurns: Option<int>,
    hpPerTick: Option<int>,
    evasionChance: Option<real>,
    skipTurnChance: Option<real>,
    maxGold: Option<int>)

  /** A skill definition from the skill list, with its `unlock` requirements. */
  datatype Skill = Skill(
    id: string,
    mpCost: Option<int>,
    effect: Effect,
    requiredJob: Option<string>,
    minLevel: Option<int>)

  /** One loot-table entry: the item and its drop chance. */
  datatype Drop = Drop(itemId: string, chance: Option<real>)

  /** The monster record a PvE combat owns once engaged. */
  datatype Monster = Monster(
    id: string,
    hp: int,
    maxHp: int,
    attack: int,
    exp: int,
    goldMin: int,
    goldMax: int,
    dropItems: seq<Drop>)

  /** A monster standing on a map cell. */
  datatype MonsterInstance = MonsterInstance(instanceId: int, x: int, y: int, monster: Monster)

  /**
   * Timed attack/defence modifier (PvE `playerBuff` and `monsterDebuff`). Each timed entry's
   * `Tick` is the source's `turns--; if (turns <= 0) entry = null`.
   */
  datatype Modifier = Modifier(attackModifier: int, defenseModifier: int, turns: int)
  {
    function Tick(): Option<Modifier>
    {
      if turns - 1 <= 0 then None else Some(this.(turns := turns - 1))
    }
  }

  /** Timed damage over time. */
  datatype DamageOverTime = DamageOverTime(hpPerTick: int, turns: int)
  {
    function Tick(): Option<DamageOverTime>
    {
      if turns - 1 <= 0 then None else Some(this.(turns := turns - 1))
    }
  }

  /** Timed evasion bonus (PvE `playerEvasion`). */
  datatype EvasionBonus = EvasionBonus(chance: real, turns: int)
  {
    function Tick(): Option<EvasionBonus>
    {
      if turns - 1 <= 0 then None else Some(this.(turns := turns - 1))
    }
  }

  /** Timed chance to lose a turn. */
  datatype Slow = Slow(skipChance: real, turns: int)
  {
    function Tick(): Option<Slow>
    {
      if turns - 1 <= 0 then None else Some(this.(turns := turns - 1))
    }
  }

  datatype PvETurn = PlayerTurn | MonsterTurn

  /** `combat` with `type: 'pve'`. */
  datatype PvECombat = PvECombat(
    monster: Monster,
    turn: PvETurn,
    playerBuff: Option<Modifier>,
    monsterDebuff: Option<Modifier>,
    monsterDot: Option<DamageOverTime>,
    playerEvasion: Option<EvasionBonus>,
    monsterSlow: Option<Slow>)

  datatype PvPTurn = SelfTurn | OpponentTurn

  /** `combat` with `type: 'pvp'`: one side of a duel, naming the other side. */
  datatype PvPCombat = PvPCombat(
    opponent: string,
    turn: PvPTurn,
    atkBuff: int,
    atkBuffTurns: int,
    defBuff: int,
    defBuffTurns: int,
    evasionBuff: real,
    evasionTurns: int,
    dot: Option<DamageOverTime>,
    slow: Option<Slow>)

  datatype Combat = PvE(pve: PvECombat) | PvP(pvp: PvPCombat)

  /** An inventory entry. */
  datatype Slot = Slot(id: string, qty: int)

  /** A character record of the `users` table (its name is the key it is stored under). */
  datatype Character = Character(
    jobId: string,
    level: int,
    exp: int,
    hp: int,
    maxHp: int,
    mp: int,
    maxMp: int,
    gold: int,
    location: string,
    posX: int,
    posY: int,
    skills: seq<string>,
    items: seq<Slot>,
    combat: Option<Combat>)

  datatype ItemKind = Skillbook(skillId: Option<string>) | Consumable(healAmount: Option<int>) | OtherItem

  /** An item definition from the item list. */
  datatype ItemDef = ItemDef(id: string, kind: ItemKind)

  /**
   * The static data the core reads: the start map and its spawn point, the map grids, and the
   * skill and item lists.
   */
  datatype GameData = GameData(
    startMap: string,
    spawnX: int,
    spawnY: int,
    grids: map<string, seq<string>>,
    skills: seq<Skill>,
    items: seq<ItemDef>)

  /**
   * A defeated character's relocation: the start map's spawn point, with `floor(maxHp * 0.7)`
   * hit points.
   */
  function Respawned(u: Character, data: GameData): Character
  {
    u.(hp := Rules.RespawnHp(u.maxHp), location := data.startMap, posX := data.spawnX, posY := data.spawnY)
  }

  /** The heal rule: restore `amount` hit points, never beyond max hp. */
  function Healed(u: Character, amount: int): (r: Character)
    ensures r == u.(hp := r.hp)
    ensures r.hp <= u.maxHp
    ensures u.hp + amount <= u.maxHp ==> r.hp == u.hp + amount
    ensures u.hp + amount >= u.maxHp ==> r.hp == u.maxHp
  {
    u.(hp := Rules.Min(u.maxHp, u.hp + amount))
  }

  /** The grid of a map, if the map has one. */
  function GridOf(data: GameData, mapId: string): Option<seq<string>>
  {
    if mapId in data.grids then Some(data.grids[mapId]) else None
  }

  /**
   * The `Math.random()` draws a command may consume: the variance of the actor's hit, the
   * variance of the monster's counter-blow, the kill gold, one draw per loot entry, the evasion
   * check, the slow check and the steal amount.
   */
  datatype Dice = Dice(
    hitRoll: real,
    counterRoll: real,
    goldRoll: real,
    dropRoll: nat -> real,
    evasionRoll: real,
    slowRoll: real,
    stealRoll: real)

  ghost predicate ValidDice(d: Dice)
  {
    && Rules.IsDraw(d.hitRoll)
    && Rules.IsDraw(d.counterRoll)
    && Rules.IsDraw(d.goldRoll)
    && (forall i: nat :: Rules.IsDraw(d.dropRoll(i)))
    && Rules.IsDraw(d.evasionRoll)
    && Rules.IsDraw(d.slowRoll)
    && Rules.IsDraw(d.stealRoll)
  }

  /** `getSkillById`: the first skill of the list with that id. */
  function SkillById(skills: seq<Skill>, id: string): (r: Option<Skill>)
    ensures r.Some? ==> r.value in skills && r.value.id == id
    ensures r.None? ==> forall k :: 0 <= k < |skills| ==> skills[k].id != id
  {
    if |skills| == 0 then None
    else if skills[0].id == id then Some(skills[0])
    else SkillById(skills[1..], id)
  }

  /** `getItemById`: the first item of the list with that id. */
  function ItemById(items: seq<ItemDef>, id: string): (r: Option<ItemDef>)
    ensures r.Some? ==> r.value in items && r.value.id == id
    ensures r.None? ==> forall k :: 0 <= k < |items| ==> items[k].id != id
  {
    if |items| == 0 then None
    else if items[0].id == id then Some(items[0])
    else ItemById(items[1..], id)
  }
}
