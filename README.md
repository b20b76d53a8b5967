# Rland combat and progression core in Dafny

This project models the game logic of the Rland text MUD server (`server.js`). The server keeps
an in-memory table of character records (`users`), a table of pending duel requests
(`duelRequests`) and the monsters standing on each map (`mapMonsters`). The commands of the
combat core read and update these tables in place:

- walking onto a monster starts a fight with it;
- `attack` and `skill` move a monster fight or a duel forward;
- `duel`, `accept` and `decline` run the duel handshake;
- `use` and `give` work on the inventory;
- experience gained from a kill is spent on level-ups.

The model has these modules:

- `Rules`: the pure rules. The damage roll, the per-job evasion chances and their 0.9 clamp,
  the experience curve, the 70% respawn hit points and the walkability test.
- `Model`: the records. Characters, skills and their effect descriptors, monsters, the two
  kinds of combat state with their timed modifiers, inventory slots, the static game data,
  and `Dice`, the random draws one command consumes.
- `Progression`: `ensureBaseSkills`, `autoLearnSkillsByLevel` and the `handleLevelUp` loop.
- `Inventory`: `addItemToUser`, the slot update of `giveItemCommand`, and `useItemCommand`.
  Each is stated against the quantity view `Qty`.
- `PvE`: the monster fight on one character's record. The PvE skill resolver, the kill
  reward, the monster's counter-move inside the player's command, and the PvE branches of
  the attack and skill commands.
- `PvP`: the duel rules as functions over the table of users. The turn-start tick, the hand-over
  of the turn, the end of a duel, the duel attack (`Strike`) and the PvP skill resolver
  (`Cast`). Lemmas state what each does and that none of them starts a duel or changes an
  opponent.
- `Game`: the class `World`, whose fields are the three tables. Its methods are the commands.
  Each method states the whole new state. `Valid()` is that nobody duels themselves and that
  nobody has challenged themselves, and every command keeps it.

Every `Math.random()` call is a `real` draw in [0, 1) taken from a `Dice` value. The
source's `Math.floor(Math.random() * k)` is `Rules.FloorTimes(r, k)`. A JavaScript default
`x || d` is `Rules.Or` (`Rules.OrReal` for fractions): a missing or zero field falls back to `d`.

Points where the code behaves in ways easy to misread:

- The largest damage roll is `max(1, atk - floor(def/3)) + 3`. When `atk - floor(def/3) < 0`
  the base is clamped to 1, the largest roll is 4, and 4 is more than `atk - floor(def/3) + 4`.
  `Rules.RollDamage` states the range with and without the clamp.
- Monster-fight buffs and debuffs replace the earlier entry. Duel buffs and debuffs add to it.
- A monster's slow loses a turn only when its draw skips the turn, and it only ticks then. A
  duellist's slow ticks on every check.
- The monster-fight steal is `0..maxGold-1` gold from nowhere. The duel steal is `0..maxGold`,
  capped by the victim's gold.
- Duel skills skip the opponent's evasion roll.
- The skill path of a monster fight does not tick the buff, debuff or damage over time.
- A duel effect aimed at an opponent who is no longer in a duel does nothing. Only a missing
  opponent record ends the duel.
- Only a monster fight blocks walking. A duellist who walks onto a monster gives up the duel
  record for the monster fight.
- A heal cast through `skillCommand` defaults to 25. The heal case of the PvE resolver, which
  `skillCommand` never reaches, defaults to 20.

## Model

| member | source | states |
|---|---|---|
| Rules.RollDamage | server.js:394-398 | damage is `max(1, atk - floor(def/3))` plus 0..3, so at least 1 and at most 3 above the base; the range with and without the clamp |
| Rules.JobEvasionChance | server.js:35-47 | the job table, 0.03 for an unlisted job; every chance lies in 0.03..0.2 |
| Rules.PvEEvasionChance | server.js:1179-1182 | job chance plus the bonus (0 without one), never above 0.9; below the cap it is exactly the sum |
| Rules.PvPEvasionChance | server.js:1261-1264 | the job chance alone without an evasion bonus; with one the clamped sum; never above 0.9 |
| Rules.HighDrawNeverEvades | server.js:1181-1182 | a draw of 0.9 or more never dodges, whatever bonuses are stacked |
| Rules.RespawnHp | server.js:1208 | for a non-negative maxHp, `floor(maxHp * 0.7)` lies in 0..maxHp, and it is at least 1 once maxHp is at least 2 |
| Rules.IsWalkableCell | server.js:137-148 | no grid or an empty grid walks everywhere; a walkable cell lies inside the first row's width and the grid's height; a wall is never walkable |
| Model.ParseKind | server.js:404-478 | both "overTime" and "attackOverTime" name damage over time; a missing kind is unrecognised |
| Model.Healed | server.js:1339-1340 | the heal restores the amount but never past max hp, and changes nothing else |
| Model.SkillById | server.js:127-129 | a found skill is in the list with that id; none is found only when no entry has the id |
| Model.ItemById | server.js:130-132 | a found item is in the list with that id; none is found only when no entry has the id |
| Progression.EnsureBaseSkills | server.js:98-103 | "smash" is afterwards in the list; a list holding it is unchanged, otherwise it is appended once; no duplicate is introduced |
| Progression.EnsureBaseSkillsIdempotent | server.js:98-103 | running it twice equals running it once |
| Progression.LearnFromProperties | server.js:304-312 | the old list is a prefix of the new one; no id is added twice; every added id is an unlocked catalogue skill; every unlocked catalogue skill is known afterwards |
| Progression.LearnStep | server.js:325-326 | reaching one more level keeps what was learned, learns every skill unlocking there when it is a hundredth level, and adds nothing but those and "smash" |
| Progression.AutoLearnSkillsByLevel | server.js:302-313 | off a multiple of 100 nothing changes; on one the loop learns exactly what walking the catalogue in order learns |
| Progression.LevelCostClosedForm | server.js:298-300 | climbing k levels from level l costs `20kl + 10k(k-1)` experience |
| Progression.LevelCostStep | server.js:298-300 | climbing one more level costs `expToNextLevel` of the level reached so far |
| Progression.HandleLevelUp | server.js:315-330 | the loop ends as `LeveledUp` states: every level gained was affordable when bought and was paid for, adding 10 max hp and 5 max mp; exp is left below `20 * level`, and at least 0 once a level was gained; any level gained refills hp and mp and keeps "smash"; no level gained changes nothing; the old skills are kept, no duplicate is introduced, every skill unlocking at a crossed hundredth level is learned, and nothing but those and "smash" is added |
| Progression.LeveledUpUnique | server.js:317-327 | the loop's stopping point is unique: two finished climbs from the same record reach the same level and exp |
| Inventory.FindSlot | server.js:972 | the index of the first slot with the id, or none when no slot has it |
| Inventory.Compact | server.js:978-980 | keeps exactly the slots with a positive count, and never lengthens the list |
| Inventory.CompactQty | server.js:978-980 | after dropping empty slots an item's count is its old count, or 0 if that was not positive |
| Inventory.TakeFromSlot | server.js:1062-1065 | lowering one slot's count keeps the list well formed, sets this item's count to the new count (or 0) and keeps every other count |
| Inventory.AddItemToUser | server.js:970-981 | a new item gets a slot at the end; on a well-formed list the item's count becomes `max(0, old + qty)`, every other count is kept, and the list stays well formed |
| Inventory.GiveCounts | server.js:1062-1066 | giving n: the giver's count falls by n, the recipient's rises by n, every other count of both is kept, and both stay well formed |
| Inventory.GiveToSelfCounts | server.js:1062-1066 | giving to oneself leaves every count unchanged |
| Inventory.UseItem | server.js:983-1036 | the outcome is decided case by case, as `Used` states: no argument, no slot with a positive count, an unknown item, an empty or already learned skill book, and an item without a use each change nothing; a new skill book appends its skill and a consumable heals by its amount (default 30) up to max hp, each exactly when the catalogue says so, and each takes one item from the first slot holding it, keeping the inventory well formed and every other count |
| Inventory.OwnedIffQty | server.js:991-992 | the first slot with the id has a positive count exactly when the item's count is positive |
| PvE.GrantDropsOnlyAdds | server.js:1121-1126 | loot keeps a well-formed inventory well formed and never lowers a count |
| PvE.NoChanceNoDrop | server.js:1122 | an entry with no, zero or negative drop chance never drops |
| PvE.DropLoot | server.js:1121-1126 | the loot loop makes one draw per entry in order and adds one item per successful draw |
| PvE.KillReward | server.js:1112-1132 | a kill ends the fight and adds `goldMin + floor(draw * (goldMax - goldMin + 1))` gold, which lies in `[goldMin, goldMax]`, the loot and the monster's exp; the exp is then spent exactly as `Progression.LeveledUp` states |
| PvE.MonsterBlow | server.js:1195-1196 | the monster's blow, its attack plus any debuff attack modifier against defence 0, is at least 1 |
| PvE.Struck | server.js:1088-1103 | a plain attack takes at least 1 hit point from the monster |
| PvE.MonsterMove | server.js:1169-1219 | the counter-move: a slowed monster loses its move; otherwise the player may dodge it; otherwise the blow lands, and at 0 hp or less the player respawns on the start map at 70% with the combat cleared; every other outcome makes it the player's turn again with the same monster |
| PvE.AttackMonster | server.js:1082-1220 | off the player's turn nothing changes; a kill after the hit or after the damage-over-time tick gives the reward; otherwise the monster counter-moves; the combat left is none or a monster fight |
| PvE.FinishSkillTurn | server.js:1373-1446 | after a skill the monster is killed exactly when its hp is at most 0, with the reward; otherwise it counter-moves, and the player's turn comes back unless the player was defeated |
| PvE.SkillTurn | server.js:1370-1447 | the monster-fight branch of a skill: the resolver, then the kill reward or the counter-move; the turn is never refused |
| PvE.ApplySkillEffectInPvE | server.js:400-482 | the caster stays in the same monster fight on the same turn; another character is healed exactly when a heal names one |
| PvE.SkillEffectInPvE | server.js:400-482 | each kind: the heal amount (default 20) and target; the attack's value or roll; a sacrifice never leaves the caster below 1 hp; buff, debuff, damage over time, evasion and slow replace their entry with the defaults 3, 3, 3, 2, 2 turns; steal adds 0..maxGold-1 gold from nowhere; an unknown kind is a no-op |
| PvE.StealRange | server.js:474 | the monster-fight steal roll lies in 0..maxGold-1 |
| PvP.CountDown | server.js:563-564 | a positive counter drops by one and never below 0; any other counter is left alone |
| PvP.TickCounters | server.js:562-574 | counters that start at 0 or more stay at 0 or more; a magnitude is reset exactly when its counter reaches 0 at this tick; nothing else changes |
| PvP.CountersAfter | server.js:562-574 | after n turn starts a counter reads `max(0, k - n)`, and its magnitude is zero exactly from the k-th turn start on |
| PvP.DotDamage | server.js:539-541 | a tick hurts by `hpPerTick` when that is positive, else by nothing |
| PvP.StartTurn | server.js:533-577 | active damage over time first lowers hp by the tick and spends a turn; the duellist dies exactly when hp reaches 0 or less, and then the counters do not tick; otherwise the counters tick; opponent, turn and slow are kept |
| PvP.SlowTicked | server.js:1244-1256 | the slow check spends one slow turn whether or not it skips, and clears the slow on its last turn |
| PvP.Handover | server.js:1297-1298 | after an action that did not end the duel the actor waits, the opponent moves if it is in a duel, and nobody else changes |
| PvP.EndDuel | server.js:523-528 | a duel record is cleared; a monster fight is kept |
| PvP.Finished | server.js:509-530 | the loser is on the start map's spawn point at 70% of max hp; neither side is left in a duel; nobody else changes |
| PvP.SkillDamage | server.js:598-600 | a duel attack skill deals its value if non-zero, else the roll, and at least 1 |
| PvP.StealAmount | server.js:727-731 | the duel steal never takes more than the victim has; it is at most maxGold, and at least 0 when neither is negative |
| PvP.Buffed | server.js:671-681 | a duel buff adds its modifiers to the bonuses and resets both counters to the duration (default 3) |
| PvP.BuffLasts | server.js:562-570 | the summed buff survives the first k-1 turn starts and is gone from the k-th on |
| PvP.FreshDuel | server.js:1725-1750 | a new duel record names the opponent and whose turn it is, with every bonus 0 and no damage over time or slow |
| PvP.Revived | server.js:1722-1723 | accepting a duel at 0 hp or less revives to 70% of max hp; otherwise nothing changes |
| PvP.Pickpocket | server.js:733-745 | a positive amount moves from victim to thief with the sum of their gold unchanged; nothing else changes |
| PvP.Strike | server.js:1244-1298 | the duel attack after the turn start (slow check, evasion roll, blow, hand-over) on the table of users, which keeps its keys; its outcomes are stated by `PvP.StrikeProperties` |
| PvP.StrikeProperties | server.js:1244-1298 | the turn is lost exactly when the slow skips it; the blow is evaded exactly when it is not skipped and the draw is below the opponent's chance; every outcome but a win passes the turn; only a landing blow or a win lowers the opponent's hp, by the roll of `15 + atkBuff` against its defence bonus; the win is exactly when that hp reaches 0 |
| PvP.StrikeKeepsOpponents | server.js:1244-1298 | a duel attack never starts a duel nor changes an opponent |
| PvP.HandoverKeepsOpponents | server.js:1297-1298 | passing the turn keeps every opponent |
| PvP.Cast | server.js:580-752 | a missing opponent ends the caster's duel and nothing else; otherwise the caster stays in the duel with the same opponent; only the caster and the opponent change; only attack and sacrifice kinds can win |
| PvP.CastDamage | server.js:596-650 | a damaging skill hurts by at least 1, by the roll of `15` (or `20` for a sacrifice) plus `atkBuff` when it has no value; it wins exactly when the opponent reaches 0 hp; a sacrifice leaves the caster at least 1 hp |
| PvP.CastSteal | server.js:726-745 | the sum of both sides' gold is unchanged and only gold changes; the gain is in 0..maxGold and at most the victim's gold when neither is negative |
| PvP.CastTimed | server.js:651-725 | buff and debuff add to the caster's or the opponent's bonuses; evasion, damage over time and slow replace their entry; an effect aimed at an opponent not in a duel, a heal and an unknown kind change nothing |
| PvP.CastKeepsPairing | server.js:580-752 | a duel skill never starts a duel, changes an opponent, or changes whose turn it is |
| Game.Direction | server.js:856-866 | up/w, down/s, left/a, right/d each give their unit step; any other word gives none |
| Game.MonsterIndexAt | server.js:883 | the index of the first monster on the cell, or -1 when none stands there |
| Game.Encounter | server.js:888-907 | a new fight is with the monster found, on the player's turn, with no effect running |
| Game.EnsurePosition | server.js:336-343 | a character without a location is put on the start map; nothing else changes |
| Game.HealTarget | server.js:1334-1338 | the heal goes to the named user when one exists, else to the caster |
| Game.DuelAttackOutcome | server.js:1223-1298 | a played duel attack that does not win passes the turn to the opponent; a win ends the duel for both and puts the loser on the start map at 70% hp; off its turn nothing changes |
| Game.DuelSkillOutcome | server.js:1450-1491 | a played duel skill that does not win passes the turn; a win ends the duel for both and puts the loser on the start map; a lost (slowed) turn leaves the opponent's record except its turn; the opponent-left outcome never comes from a played turn |
| Game.World.constructor | server.js:83-107 | the accounts as loaded, duel records included, each given "smash" as the startup pass does; no pending request; the world is valid when nobody duels themselves |
| Game.World.FinishDuelWithWinner | server.js:509-530 | with both sides present the table becomes `PvP.Finished`; otherwise nothing changes |
| Game.World.ProcessPvPTurnStart | server.js:533-577 | a character not in a duel is untouched; otherwise the turn-start tick is stored, and a death ends the duel in the opponent's favour when the opponent exists |
| Game.World.Duel | server.js:1656-1693 | each refusal (not logged in, no target, oneself, unknown user, either side fighting) changes nothing; otherwise the request keyed by the target names the challenger and overwrites any earlier one |
| Game.World.AcceptDuel | server.js:1695-1754 | each outcome as an if-and-only-if: a missing or mismatched challenger changes nothing; a missing challenger record or a side already fighting consumes the request only; with both sides present and free the duel is accepted, the request consumed, both sides revived if at 0 hp or less, and given mirrored fresh duel records, the acceptor moving first |
| Game.World.DeclineDuel | server.js:1756-1773 | only the pending challenger can be declined; declining consumes the request; nothing else ever changes |
| Game.World.Walk | server.js:841-913 | not logged in, in a monster fight or without a direction nothing changes; otherwise the step as `Stepped` states it |
| Game.World.Stride | server.js:855-910 | an unknown direction or an unwalkable cell only fixes the location; a free cell moves the character; a cell with a monster also takes the first such monster off the map and starts a fight with it |
| Game.World.EnterCell | server.js:881-907 | the first monster on the cell, if any, leaves the map's list and a fight with it starts; without one only the character moves |
| Game.World.UseItem | server.js:983-1036 | only the user's record changes, as `Inventory.Used` states |
| Game.World.GiveItem | server.js:1038-1069 | each refusal changes nothing; a gift lowers the giver's slot and adds to the recipient's inventory; nobody else changes |
| Game.World.Transfer | server.js:1062-1066 | the hand-over of n items from the giver's slot to the recipient, also when both are the same user |
| Game.World.DuelBlow | server.js:1259-1298 | the blow as `PvP.Strike`, with a win settled as `PvP.Finished` |
| Game.World.DuelAttackTurn | server.js:1223-1298 | off its turn nothing changes; the turn start may end the duel; a missing opponent clears the duel record; otherwise the blow |
| Game.World.Attack | server.js:1072-1301 | not logged in or not fighting changes nothing; a monster fight changes only the attacker as `PvE.AttackMonster` states: the turn refusal, a kill exactly when the hit or the damage-over-time tick takes the monster to 0 hp with the reward, otherwise the counter-move; a duel goes as `DuelAttacked` states |
| Game.World.ApplySkillEffectInPvP | server.js:580-752 | the resolver as `PvP.Cast`, with a victory settled as `PvP.Finished` |
| Game.World.DuelSkillTurn | server.js:1450-1491 | after paying mana: the turn start, a missing opponent, a slow skip, or the resolver; the turn passes unless the duel ended |
| Game.World.CastSkill | server.js:1305-1492 | not logged in, an unlearned skill or an unknown skill changes nothing; a heal needs only the mana and heals the named user or the caster by its value (default 25); every other skill goes as `Fought` states |
| Game.World.FightSkill | server.js:1346-1492 | no fight, off the caster's turn or without the mana nothing changes; otherwise the mana is paid and the skill is resolved against the monster or in the duel |
| Game.World.HealSkill | server.js:1333-1340 | the caster pays the mana and the recipient is healed by up to the amount |

## Left out

- Sockets, the HTTP server, message dispatch and every message sent: these are transport. The
  model returns outcome values in place of messages.
- `saveUsers` and the JSON files: persistence does not affect the in-memory state.
- Rendering and listings (`renderMapForUser`, `describeLocation`, `enterMap` and the others):
  string formatting only. For the same reason, `skillCommand` without arguments, which shows the
  skill list, is not modelled.
- Monster spawning (`spawnRandomMonster`, `ensureMonstersForMap`), which `walkCommand` calls
  before it looks for a monster: it places monsters by random retries. The monsters on each map
  are the `mapMonsters` table as it stands.
- Signup, login, banning and chat: session concerns.
- Argument parsing: a command's arguments arrive as optional values, and `parseInt` arrives
  already applied. A missing argument is `None`.
- Rules.RespawnHp: computes `floor(maxHp * 0.7)` in exact real arithmetic, not in
  double-precision floating point. The same holds for every evasion sum and random draw.
- Rules.JobEvasionChance: does not model prototype keys such as "constructor", which the JavaScript
  table lookup would find.
- Type checks on stored records (a non-numeric position, a missing item or skill list): the
  model's records are always well typed.
- Character names: a record's name is the key it is stored under. The source looks characters
  up both by key and by `name` and assumes the two agree.
- PvE.ApplySkillEffectInPvE: returns the healed other character but stores it nowhere. The heal
  case is never reached from `skillCommand`, which resolves heals itself.
- Game.World.Stride: does not move a character whose position is not numeric to the map's
  spawn point, because positions are always numbers in the model.
- Concurrency: each command runs to completion, as in the single-threaded server.
