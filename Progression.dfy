/**
 * Character progression in server.js: the guaranteed base skill, the skills learned
 * automatically every hundredth level, and the level-up loop run after experience is gained.
 */
module Progression {
  import opened Wrappers
  import opened Model
  import Rules

  /** Skill lists are meant to hold each id once. */
  predicate NoDuplicates(s: seq<string>)
  {
    forall i, j :: 0 <= i < j < |s| ==> s[i] != s[j]
  }

  /** `ensureBaseSkills`: append "smash" unless the list already has it. */
  function EnsureBaseSkills(skills: seq<string>): (r: seq<string>)
    ensures Rules.DefaultSkillId in r
    ensures Rules.DefaultSkillId in skills ==> r == skills
    ensures Rules.DefaultSkillId !in skills ==> r == skills + [Rules.DefaultSkillId]
    ensures NoDuplicates(skills) ==> NoDuplicates(r)
  {
    if Rules.DefaultSkillId in skills then skills else skills + [Rules.DefaultSkillId]
  }

  /** Running `ensureBaseSkills` twice is the same as running it once. */
  lemma EnsureBaseSkillsIdempotent(skills: seq<string>)
    ensures EnsureBaseSkills(EnsureBaseSkills(skills)) == EnsureBaseSkills(skills)
  {
  }

  /** A skill's `unlock`: the required job (if any, and non-empty) and the minimum level (default 0). */
  predicate Unlocks(sk: Skill, jobId: string, level: int)
  {
    && (sk.requiredJob.None? || sk.requiredJob.value == "" || sk.requiredJob.value == jobId)
    && level >= Rules.Or(sk.minLevel, 0)
  }

  /** The skill list after walking the catalogue in order and learning each unlocked, unknown skill. */
  function LearnFrom(known: seq<string>, catalog: seq<Skill>, jobId: string, level: int): seq<string>
    decreases |catalog|
  {
    if |catalog| == 0 then known
    else
      var sk := catalog[0];
      var next := if sk.id !in known && Unlocks(sk, jobId, level) then known + [sk.id] else known;
      LearnFrom(next, catalog[1..], jobId, level)
  }

  /**
   * What learning from the catalogue guarantees: the old list is kept as a prefix, no id is
   * added twice, every added id is an unlocked catalogue skill, and every unlocked catalogue
   * skill is known afterwards.
   */
  lemma {:induction false} LearnFromProperties(known: seq<string>, catalog: seq<Skill>, jobId: string, level: int)
    ensures known <= LearnFrom(known, catalog, jobId, level)
    ensures NoDuplicates(known) ==> NoDuplicates(LearnFrom(known, catalog, jobId, level))
    ensures forall k :: |known| <= k < |LearnFrom(known, catalog, jobId, level)| ==>
              exists sk :: sk in catalog && sk.id == LearnFrom(known, catalog, jobId, level)[k] && Unlocks(sk, jobId, level)
    ensures forall sk :: sk in catalog && Unlocks(sk, jobId, level) ==> sk.id in LearnFrom(known, catalog, jobId, level)
    decreases |catalog|
  {
    if |catalog| > 0 {
      var sk := catalog[0];
      var next := if sk.id !in known && Unlocks(sk, jobId, level) then known + [sk.id] else known;
      LearnFromProperties(next, catalog[1..], jobId, level);
      var r := LearnFrom(known, catalog, jobId, level);
      assert r == LearnFrom(next, catalog[1..], jobId, level);
      forall k | |known| <= k < |r|
        ensures exists s :: s in catalog && s.id == r[k] && Unlocks(s, jobId, level)
      {
        if k < |next| {
          assert next == known + [sk.id] && r[k] == sk.id;
        } else {
          var s :| s in catalog[1..] && s.id == r[k] && Unlocks(s, jobId, level);
          assert s in catalog;
        }
      }
      forall s | s in catalog && Unlocks(s, jobId, level)
        ensures s.id in r
      {
        if s != sk {
          assert s in catalog[1..];
        } else {
          assert sk.id in next;
          assert next <= r;
        }
      }
    }
  }

  /** `autoLearnSkillsByLevel`: only on a level divisible by 100, learn the unlocked catalogue skills. */
  method AutoLearnSkillsByLevel(known: seq<string>, catalog: seq<Skill>, jobId: string, level: int)
    returns (r: seq<string>)
    ensures level % 100 != 0 ==> r == known
    ensures level % 100 == 0 ==> r == LearnFrom(known, catalog, jobId, level)
  {
    r := known;
    if level % 100 != 0 {
      return;
    }
    var i := 0;
    while i < |catalog|
      invariant 0 <= i <= |catalog|
      invariant LearnFrom(r, catalog[i..], jobId, level) == LearnFrom(known, catalog, jobId, level)
    {
      var sk := catalog[i];
      assert catalog[i..][0] == sk && catalog[i..][1..] == catalog[i + 1..];
      if sk.id !in r && Unlocks(sk, jobId, level) {
        r := r + [sk.id];
      }
      i := i + 1;
    }
  }

  /** The experience spent to climb `k` levels starting at `level`. */
  function LevelCost(level: int, k: nat): int
    decreases k
  {
    if k == 0 then 0 else Rules.ExpToNextLevel(level) + LevelCost(level + 1, k - 1)
  }

  /** Climbing `k` levels from `level` costs 20 per level reached, summed: 20kl + 10k(k-1). */
  lemma {:induction false} LevelCostClosedForm(level: int, k: nat)
    ensures LevelCost(level, k) == 20 * k * level + 10 * k * (k - 1)
    decreases k
  {
    if k > 0 {
      LevelCostClosedForm(level + 1, k - 1);
      calc {
        LevelCost(level, k);
        20 * level + LevelCost(level + 1, k - 1);
        20 * level + 20 * (k - 1) * (level + 1) + 10 * (k - 1) * (k - 2);
        { assert 20 * (k - 1) * (level + 1) == 20 * k * level - 20 * level + 20 * k - 20;
          assert 10 * (k - 1) * (k - 2) == 10 * k * (k - 1) - 20 * k + 20; }
        20 * k * level + 10 * k * (k - 1);
      }
    }
  }

  lemma LevelCostStep(level: int, k: nat)
    ensures LevelCost(level, k + 1) == LevelCost(level, k) + Rules.ExpToNextLevel(level + k)
    decreases k
  {
    if k > 0 {
      LevelCostStep(level + 1, k - 1);
    }
  }

  /**
   * `id` is a catalogue skill that unlocks for `jobId` at some hundredth level in `lo+1..hi`,
   * where `autoLearnSkillsByLevel` teaches it.
   */
  ghost predicate Learnable(id: string, catalog: seq<Skill>, jobId: string, lo: int, hi: int)
  {
    exists sk, level :: sk in catalog && sk.id == id && lo < level <= hi && level % 100 == 0 && Unlocks(sk, jobId, level)
  }

  /** Every skill that unlocks at a hundredth level in `lo+1..hi` is in `skills`. */
  ghost predicate LearnedAll(skills: seq<string>, catalog: seq<Skill>, jobId: string, lo: int, hi: int)
  {
    forall sk, level :: sk in catalog && lo < level <= hi && level % 100 == 0 && Unlocks(sk, jobId, level) ==> sk.id in skills
  }

  /** `after` extends `before` only by "smash" and skills learned at a hundredth level in `lo+1..hi`. */
  ghost predicate AddedOnly(before: seq<string>, after: seq<string>, catalog: seq<Skill>, jobId: string, lo: int, hi: int)
  {
    && before <= after
    && forall k :: |before| <= k < |after| ==> after[k] == Rules.DefaultSkillId || Learnable(after[k], catalog, jobId, lo, hi)
  }

  /**
   * The skill list after reaching level `hi`: what was learned before is kept, the skills
   * unlocking at `hi` are added when `hi` is a hundredth level, and "smash" is ensured.
   */
  lemma LearnStep(base: seq<string>, skills: seq<string>, catalog: seq<Skill>, jobId: string, lo: int, hi: int)
    requires lo < hi
    requires AddedOnly(base, skills, catalog, jobId, lo, hi - 1)
    requires LearnedAll(skills, catalog, jobId, lo, hi - 1)
    ensures var next := EnsureBaseSkills(if hi % 100 == 0 then LearnFrom(skills, catalog, jobId, hi) else skills);
            AddedOnly(base, next, catalog, jobId, lo, hi) && LearnedAll(next, catalog, jobId, lo, hi)
  {
    var learned := if hi % 100 == 0 then LearnFrom(skills, catalog, jobId, hi) else skills;
    LearnFromProperties(skills, catalog, jobId, hi);
    var next := EnsureBaseSkills(learned);
    assert skills <= learned <= next;
    forall k | |base| <= k < |next|
      ensures next[k] == Rules.DefaultSkillId || Learnable(next[k], catalog, jobId, lo, hi)
    {
      if k < |skills| {
        assert next[k] == skills[k];
        if skills[k] != Rules.DefaultSkillId {
          var sk, level :| sk in catalog && sk.id == skills[k] && lo < level <= hi - 1 && level % 100 == 0 && Unlocks(sk, jobId, level);
          assert lo < level <= hi;
        }
      } else if k < |learned| {
        assert next[k] == learned[k];
        var sk :| sk in catalog && sk.id == learned[k] && Unlocks(sk, jobId, hi);
        assert lo < hi <= hi && hi % 100 == 0;
      }
    }
    forall sk, level | sk in catalog && lo < level <= hi && level % 100 == 0 && Unlocks(sk, jobId, level)
      ensures sk.id in next
    {
      if level < hi {
        assert sk.id in skills;
      } else {
        assert sk.id in learned;
      }
    }
  }

  /**
   * An unfinished run of `handleLevelUp` from `u` to `r`: every level gained was affordable
   * when it was bought and was paid for, adding 10 max hp and 5 max mp, refilling hp and mp and
   * refreshing the skill list; nothing else changes.
   */
  ghost predicate Climbing(u: Character, catalog: seq<Skill>, r: Character)
  {
    && r.level >= u.level
    && var n := r.level - u.level;
    && u.exp == r.exp + LevelCost(u.level, n)
    && (forall j: nat :: j < n ==> u.exp - LevelCost(u.level, j) >= Rules.ExpToNextLevel(u.level + j))
    && r.maxHp == u.maxHp + 10 * n && r.maxMp == u.maxMp + 5 * n
    && (n > 0 ==> r.hp == r.maxHp && r.mp == r.maxMp && r.exp >= 0 && Rules.DefaultSkillId in r.skills)
    && (n == 0 ==> r == u)
    && (NoDuplicates(u.skills) ==> NoDuplicates(r.skills))
    && AddedOnly(u.skills, r.skills, catalog, u.jobId, u.level, r.level)
    && LearnedAll(r.skills, catalog, u.jobId, u.level, r.level)
    && r == u.(level := r.level, exp := r.exp, maxHp := r.maxHp, maxMp := r.maxMp,
               hp := r.hp, mp := r.mp, skills := r.skills)
  }

  /** A finished run of `handleLevelUp`: climbing stopped at the first level it cannot pay for. */
  ghost predicate LeveledUp(u: Character, catalog: seq<Skill>, r: Character)
  {
    Climbing(u, catalog, r) && r.exp < Rules.ExpToNextLevel(r.level)
  }

  /** The loop's stopping point is unique: any two finished climbs from `u` reach the same level. */
  lemma LeveledUpUnique(u: Character, catalog: seq<Skill>, r1: Character, r2: Character)
    requires LeveledUp(u, catalog, r1) && LeveledUp(u, catalog, r2)
    ensures r1.level == r2.level && r1.exp == r2.exp
  {
    // A climb that went past the other's stopping level could have afforded that level,
    // at which the other stopped because it could not.
  }

  /**
   * `handleLevelUp`: while the experience reaches the next threshold, pay it, gain a level,
   * 10 max hp and 5 max mp, refill hp and mp, and refresh the skill list.
   */
  method HandleLevelUp(u: Character, catalog: seq<Skill>) returns (r: Character, leveled: nat)
    ensures r.level == u.level + leveled
    ensures LeveledUp(u, catalog, r)
  {
    r := u;
    leveled := 0;
    while r.exp >= Rules.ExpToNextLevel(r.level)
      invariant r.level == u.level + leveled
      invariant Climbing(u, catalog, r)
      decreases (if r.level <= 0 then 1 - r.level else 0), r.exp
    {
      LevelCostStep(u.level, leveled);
      var level := r.level + 1;
      var learned := AutoLearnSkillsByLevel(r.skills, catalog, r.jobId, level);
      LearnFromProperties(r.skills, catalog, r.jobId, level);
      LearnStep(u.skills, r.skills, catalog, u.jobId, u.level, level);
      var skills := EnsureBaseSkills(learned);
      r := r.(exp := r.exp - Rules.ExpToNextLevel(r.level), level := level,
              maxHp := r.maxHp + 10, maxMp := r.maxMp + 5, skills := skills);
      r := r.(hp := r.maxHp, mp := r.maxMp);
      leveled := leveled + 1;
    }
  }
}
