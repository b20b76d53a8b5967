/**
 * The pure combat rules of server.js: the damage roll, the per-job evasion chances and their
 * clamp, the experience curve, the respawn hit points and the map's walkability test.
 *
 * Every `Math.random()` draw is a `real` in [0, 1) handed in by the caller; the source's
 * `Math.floor(Math.random() * k)` is `FloorTimes(r, k)`.
 */
module Rules {
  import opened Wrappers

  /** The skill every character is given ("smash"). */
  const DefaultSkillId: string := "smash"

  /** No evasion chance, however many bonuses stack, exceeds this. */
  const EvasionCap: real := 0.9

  /** A value `Math.random()` can return. */
  predicate IsDraw(r: real) { 0.0 <= r < 1.0 }

  /** JavaScript `x || d` on an optional integer field: absent or zero falls back to `d`. */
  function Or(o: Option<int>, d: int): int
  {
    if o.Some? && o.value != 0 then o.value else d
  }

  /** JavaScript `x || d` on an optional fractional field. */
  function OrReal(o: Option<real>, d: real): real
  {
    if o.Some? && o.value != 0.0 then o.value else d
  }

  function Max(a: int, b: int): int { if a >= b then a else b }
  function Min(a: int, b: int): int { if a <= b then a else b }
  function MinReal(a: real, b: real): real { if a <= b then a else b }

  /** `Math.floor(r * k)`. */
  function FloorTimes(r: real, k: int): int
  {
    (r * k as real).Floor
  }

  /** With a positive bound, `Math.floor(Math.random() * k)` is a uniform integer in [0, k). */
  lemma FloorTimesRange(r: real, k: int)
    requires IsDraw(r) && k >= 1
    ensures 0 <= FloorTimes(r, k) < k
  {
    var kr := k as real;
    assert 0.0 <= r * kr by {
      assert kr > 0.0;
    }
    assert r * kr < kr by {
      assert kr * (1.0 - r) > 0.0;
    }
  }

  /** The floor of `def / 3`: Dafny's division by a positive divisor rounds down, as Math.floor does. */
  lemma ThirdIsFloor(def: int)
    ensures 3 * (def / 3) <= def < 3 * (def / 3) + 3
  {
  }

  /** The deterministic part of a hit: attack less a third of the defence, never below 1. */
  function DamageBase(atk: int, def: int): int
  {
    Max(1, atk - def / 3)
  }

  /** `rollDamage(baseAttack, targetDefense)`: the base plus a uniform variance in 0..3. */
  function RollDamage(atk: int, def: int, r: real): (dmg: int)
    requires IsDraw(r)
    ensures 1 <= DamageBase(atk, def) <= dmg <= DamageBase(atk, def) + 3
    ensures atk - def / 3 >= 1 ==> atk - def / 3 <= dmg <= atk - def / 3 + 3
    ensures atk - def / 3 < 1 ==> 1 <= dmg <= 4
  {
    FloorTimesRange(r, 4);
    DamageBase(atk, def) + FloorTimes(r, 4)
  }

  /** `getJobEvasionChance`: the job table, 0.03 for any job it does not list. */
  function JobEvasionChance(jobId: string): (p: real)
    ensures 0.03 <= p <= 0.2
    ensures jobId == "rogue" ==> p == 0.15
    ensures jobId == "admin" ==> p == 0.2
  {
    if jobId == "novice" then 0.03
    else if jobId == "warrior" then 0.05
    else if jobId == "mage" then 0.06
    else if jobId == "priest" then 0.07
    else if jobId == "rogue" then 0.15
    else if jobId == "bard" then 0.10
    else if jobId == "admin" then 0.20
    else 0.03
  }

  /**
   * The chance that a player dodges a monster's blow: job chance plus the bonus's chance
   * (zero when there is no bonus), clamped to 0.9.
   */
  function PvEEvasionChance(jobId: string, bonus: Option<real>): (p: real)
    ensures p <= EvasionCap
    ensures bonus.None? ==> p == JobEvasionChance(jobId)
    ensures p < EvasionCap ==> p == JobEvasionChance(jobId) + OrReal(bonus, 0.0)
  {
    MinReal(EvasionCap, JobEvasionChance(jobId) + OrReal(bonus, 0.0))
  }

  /**
   * The chance that a duellist dodges an attack: the job chance, and only when an evasion
   * bonus is active (non-zero) the sum clamped to 0.9.
   */
  function PvPEvasionChance(jobId: string, bonus: real): (p: real)
    ensures p <= EvasionCap
    ensures bonus == 0.0 ==> p == JobEvasionChance(jobId)
    ensures p < EvasionCap ==> p == JobEvasionChance(jobId) + bonus
  {
    if bonus != 0.0 then MinReal(EvasionCap, JobEvasionChance(jobId) + bonus)
    else JobEvasionChance(jobId)
  }

  /** Whatever the bonuses, a draw of at least 0.9 never dodges. */
  lemma HighDrawNeverEvades(jobId: string, pveBonus: Option<real>, pvpBonus: real, r: real)
    requires r >= EvasionCap
    ensures !(r < PvEEvasionChance(jobId, pveBonus))
    ensures !(r < PvPEvasionChance(jobId, pvpBonus))
  {
  }

  /** `expToNextLevel`. */
  function ExpToNextLevel(level: int): int
  {
    level * 20
  }

  /** `Math.floor(maxHp * 0.7)`: the hit points a defeated or revived character is given. */
  function RespawnHp(maxHp: int): (hp: int)
    ensures maxHp >= 0 ==> 0 <= hp <= maxHp
    ensures maxHp >= 2 ==> hp >= 1
  {
    ((maxHp as real) * 0.7).Floor
  }

  /**
   * `isWalkableCell`: with no grid for the map everything is walkable; otherwise the cell must
   * lie inside the first row's width and the grid's height and must not hold a wall '#'.
   * A row shorter than the first reads as open floor beyond its end.
   */
  function IsWalkableCell(grid: Option<seq<string>>, x: int, y: int): (ok: bool)
    ensures grid.None? || |grid.value| == 0 ==> ok
    ensures ok && grid.Some? && |grid.value| > 0 ==> 0 <= y < |grid.value| && 0 <= x < |grid.value[0]|
    ensures grid.Some? && 0 <= y < |grid.value| && 0 <= x < |grid.value[y]| && grid.value[y][x] == '#' ==> !ok
  {
    match grid
    case None => true
    case Some(g) =>
      if |g| == 0 then true
      else if y < 0 || y >= |g| then false
      else if x < 0 || x >= |g[0]| then false
      else !(x < |g[y]| && g[y][x] == '#')
  }
}
