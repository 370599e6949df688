/**
 * The space shooter's game object: the run's score and difficulty, the
 * boss schedule, enemy spawning and clearing, power-ups, the bullet and
 * ramming collision checks, and character unlocks at game over.
 */
module ShooterGame {
  import opened Common
  import opened ShooterRules
  import opened ShooterPlayer

  datatype State = Menu | Playing | Paused | Over

  /** A collected power-up; a weapon drop carries the weapon it picked when it appeared. */
  datatype PowerUp = WeaponDrop(weapon: Weapon) | Heal | MaxHealthUp | Shield | Gem | Bomb

  /** The enemies that no ramming contact names, in order. */
  function Survivors(es: seq<Enemy>, rams: set<nat>): (r: seq<Enemy>)
    ensures |r| <= |es|
    decreases |es|
  {
    if es == [] then [] else (if es[0].id in rams then [] else [es[0]]) + Survivors(es[1..], rams)
  }

  /** No enemy from index i on touches the ship. */
  predicate NoRamFrom(es: seq<Enemy>, rams: set<nat>, i: nat) {
    forall j :: i <= j < |es| ==> es[j].id !in rams
  }

  /** With no rammer among them, every enemy survives. */
  lemma {:induction false} SurvivorsNoRam(es: seq<Enemy>, rams: set<nat>)
    requires NoRamFrom(es, rams, 0)
    ensures Survivors(es, rams) == es
    decreases |es|
  {
    if es != [] {
      SurvivorsNoRam(es[1..], rams);
    }
  }

  class Game {
    var state: State
    var score: int
    var highScore: int
    var difficulty: int
    var lastEnemySpawn: int
    var lastDifficultyIncrease: int
    /** The index into `BOSS_SPAWN_SCORES` of the next boss. */
    var nextBossIndex: int
    var bossActive: bool
    var enemies: seq<Enemy>
    var bullets: seq<Bullet>
    var unlocked: seq<string>
    /** The identity the next enemy gets. */
    var nextEnemyId: nat
    var player: Player

    /** The difficulty stays in [0, 10], the boss index in the table's range, and the ship is valid. */
    predicate Valid()
      reads this, player
    {
      0 <= difficulty <= MAX_DIFFICULTY && 0 <= nextBossIndex <= |BOSS_SPAWN_SCORES| && player.Valid()
    }

    /** What the bullet check works on. */
    function Field(): Board
      reads this
    {
      Board(bullets, enemies, score, bossActive)
    }

    /** The boss gate of `spawnEnemy`: a boss is left, the score reached its milestone, and none is on the field. */
    predicate BossDue()
      reads this
    {
      0 <= nextBossIndex < |BOSS_SPAWN_SCORES| && score >= BOSS_SPAWN_SCORES[nextBossIndex] && !bossActive
    }

    /**
     * The constructor: the menu, the stored high score and the stored
     * unlock list, or the characters unlocked from the start when none
     * is stored.
     */
    constructor(storedHighScore: int, saved: Option<seq<string>>)
      ensures Valid() && state == Menu && score == 0 && highScore == storedHighScore && difficulty == 0
      ensures nextBossIndex == 0 && !bossActive && enemies == [] && bullets == []
      ensures unlocked == (if saved.Some? then saved.value else DefaultUnlocked())
    {
      state := Menu;
      score := 0;
      highScore := storedHighScore;
      difficulty := 0;
      lastEnemySpawn := 0;
      lastDifficultyIncrease := 0;
      nextBossIndex := 0;
      bossActive := false;
      enemies := [];
      bullets := [];
      unlocked := if saved.Some? then saved.value else DefaultUnlocked();
      nextEnemyId := 0;
      player := new Player();
    }

    /** `startGame`: a fresh run and a fresh ship, the clocks started at `now`. */
    method StartGame(now: int)
      modifies this
      ensures Valid() && fresh(player) && state == Playing && score == 0 && difficulty == 0
      ensures bullets == [] && enemies == [] && nextBossIndex == 0 && !bossActive
      ensures lastEnemySpawn == now && lastDifficultyIncrease == now
      ensures highScore == old(highScore) && unlocked == old(unlocked)
      ensures player.health == player.maxHealth == PLAYER_INITIAL_HEALTH && player.weapon == Basic
    {
      state := Playing;
      score := 0;
      difficulty := 0;
      bullets := [];
      enemies := [];
      lastEnemySpawn := now;
      lastDifficultyIncrease := now;
      nextBossIndex := 0;
      bossActive := false;
      player := new Player();
    }

    /** `gameOver`: the high score keeps the best, and characters are unlocked by the final score. */
    method GameOver()
      modifies this`state, this`highScore, this`unlocked
      ensures state == Over && highScore == Max(old(highScore), score)
      ensures unlocked == Unlocked(old(unlocked), CHARACTERS, score)
    {
      state := Over;
      if score > highScore {
        highScore := score;
      }
      CheckUnlocks();
    }

    /** `checkUnlocks`: every character the score earns is appended once, in table order. */
    method CheckUnlocks()
      modifies this`unlocked
      ensures unlocked == Unlocked(old(unlocked), CHARACTERS, score)
    {
      unlocked := AppendEarned(unlocked, CHARACTERS, score);
    }

    /** The loop of `checkUnlocks` over the characters `cs`, in order. */
    static method AppendEarned(have: seq<string>, cs: seq<Character>, score: int) returns (u: seq<string>)
      ensures u == Unlocked(have, cs, score)
    {
      u := have;
      for k := 0 to |cs|
        invariant Unlocked(u, cs[k..], score) == Unlocked(have, cs, score)
      {
        var c := cs[k];
        assert cs[k..][0] == c && cs[k..][1..] == cs[k + 1..];
        assert Unlocked(u, cs[k..], score) == Unlocked(u + (if Earns(c, u, score) then [c.id] else []), cs[k + 1..], score);
        if c.id !in u && c.scoreRequired.Some? && score >= c.scoreRequired.value {
          u := u + [c.id];
        } else {
          assert u + [] == u;
        }
      }
      assert cs[|cs|..] == [];
    }

    /**
     * `spawnEnemy` at clock reading `now`. When a boss is due it is
     * announced and nothing else happens. Otherwise, during a boss fight
     * `holdBack` (the random draw above 0.3) skips the spawn; so does a
     * spawn interval not yet passed; else a regular enemy of kind `pick`
     * modulo the kinds the difficulty allows joins the field.
     */
    method SpawnEnemy(now: int, holdBack: bool, pick: nat)
      requires Valid()
      modifies this`bossActive, this`nextBossIndex, this`lastEnemySpawn, this`enemies, this`nextEnemyId
      ensures Valid()
      ensures old(BossDue()) ==>
        bossActive && nextBossIndex == old(nextBossIndex) + 1 && enemies == old(enemies) && lastEnemySpawn == old(lastEnemySpawn)
      ensures !old(BossDue()) ==> bossActive == old(bossActive) && nextBossIndex == old(nextBossIndex)
      ensures !old(BossDue()) && ((old(bossActive) && holdBack) || (now - old(lastEnemySpawn)) as real < SpawnInterval(difficulty)) ==>
        enemies == old(enemies) && lastEnemySpawn == old(lastEnemySpawn)
      ensures !old(BossDue()) && !(old(bossActive) && holdBack) && (now - old(lastEnemySpawn)) as real >= SpawnInterval(difficulty) ==>
        lastEnemySpawn == now && enemies == old(enemies) + [NewEnemy(old(nextEnemyId), pick % AvailableKinds(difficulty))]
    {
      if BossDue() {
        SpawnBoss();
        return;
      }
      if bossActive && holdBack {
        return;
      }
      if (now - lastEnemySpawn) as real < SpawnInterval(difficulty) {
        return;
      }
      lastEnemySpawn := now;
      enemies := enemies + [NewEnemy(nextEnemyId, pick % AvailableKinds(difficulty))];
      nextEnemyId := nextEnemyId + 1;
    }

    /** `spawnBoss` up to its timer: the boss fight starts and the schedule moves on. */
    method SpawnBoss()
      requires Valid() && nextBossIndex < |BOSS_SPAWN_SCORES|
      modifies this`bossActive, this`nextBossIndex
      ensures Valid() && bossActive && nextBossIndex == old(nextBossIndex) + 1
    {
      bossActive := true;
      nextBossIndex := nextBossIndex + 1;
    }

    /**
     * The timer callback of `spawnBoss`: the boss joins the field, scaled
     * by the boss count at the time it arrives.
     */
    method BossArrives()
      modifies this`enemies, this`nextEnemyId
      ensures enemies == old(enemies) + [Boss(old(nextEnemyId), nextBossIndex)]
      ensures nextEnemyId == old(nextEnemyId) + 1
    {
      enemies := enemies + [Boss(nextEnemyId, nextBossIndex)];
      nextEnemyId := nextEnemyId + 1;
    }

    /** `updateDifficulty` at clock reading `now`, as `DifficultyStep` says. */
    method UpdateDifficulty(now: int)
      requires Valid()
      modifies this`difficulty, this`lastDifficultyIncrease
      ensures Valid() && (difficulty, lastDifficultyIncrease) == DifficultyStep(old(difficulty), old(lastDifficultyIncrease), now)
    {
      if now - lastDifficultyIncrease >= DIFFICULTY_INCREASE_INTERVAL {
        lastDifficultyIncrease := now;
        if difficulty < MAX_DIFFICULTY {
          difficulty := difficulty + 1;
        }
      }
    }

    /** `clearAllEnemies`: every enemy's points are scored and the field is emptied. */
    method ClearAllEnemies()
      modifies this`score, this`enemies
      ensures score == old(score) + SumPoints(old(enemies)) && enemies == []
    {
      var es := enemies;
      for i := 0 to |es|
        invariant score + SumPoints(es[i..]) == old(score) + SumPoints(es)
      {
        assert es[i..][0] == es[i] && es[i..][1..] == es[i + 1..];
        score := score + es[i].points;
      }
      assert es[|es|..] == [];
      enemies := [];
    }

    /**
     * `PowerUp.apply` on the ship: each kind touches only its own part of
     * the state; the fire clock and the invincibility are never touched.
     */
    method ApplyPowerUp(p: PowerUp)
      requires Valid()
      modifies this`score, this`enemies, player`weapon, player`ammo, player`health, player`maxHealth,
               player`shieldActive, player`shieldTimer
      ensures Valid()
      ensures !p.WeaponDrop? ==> player.weapon == old(player.weapon) && player.ammo == old(player.ammo)
      ensures !p.Shield? ==> player.shieldActive == old(player.shieldActive) && player.shieldTimer == old(player.shieldTimer)
      ensures p.WeaponDrop? ==> player.weapon == p.weapon && player.ammo == StartingAmmo(p.weapon)
      ensures p.Heal? ==> (player.maxHealth == old(player.maxHealth) &&
        player.health == (if old(player.health) < old(player.maxHealth) then old(player.health) + 1 else old(player.health)))
      ensures p.MaxHealthUp? ==> player.maxHealth == old(player.maxHealth) + 1 && player.health == old(player.health) + 1
      ensures p.Shield? ==> player.shieldActive && player.shieldTimer == SHIELD_TIME
      ensures score == old(score) + (if p.Gem? then GEM_POINTS else if p.Bomb? then SumPoints(old(enemies)) else 0)
      ensures enemies == (if p.Bomb? then [] else old(enemies))
      ensures !p.Heal? && !p.MaxHealthUp? ==> player.health == old(player.health) && player.maxHealth == old(player.maxHealth)
    {
      match p
      case WeaponDrop(w) =>
        player.SetWeapon(w);
      case Heal =>
        if player.health < player.maxHealth {
          player.health := player.health + 1;
        }
      case MaxHealthUp =>
        player.maxHealth := player.maxHealth + 1;
        player.health := player.health + 1;
      case Shield =>
        player.ActivateShield(SHIELD_TIME);
      case Gem =>
        score := score + GEM_POINTS;
      case Bomb =>
        ClearAllEnemies();
    }

    /**
     * The bullet-against-enemy loop of `checkCollisions`, as `Sweep` says;
     * `contacts` holds the (bullet index, enemy) pairs the rectangle test
     * finds overlapping.
     */
    method BulletHits(contacts: set<(int, nat)>)
      modifies this`bullets, this`enemies, this`score, this`bossActive
      ensures Field() == Sweep(contacts, old(Field()), |old(bullets)|)
    {
      var f := SweepBullets(contacts, Field());
      bullets, enemies, score, bossActive := f.bullets, f.enemies, f.score, f.bossActive;
    }

    /** The loop over the bullets from the last, on the field's value. */
    static method SweepBullets(contacts: set<(int, nat)>, f0: Board) returns (f: Board)
      ensures f == Sweep(contacts, f0, |f0.bullets|)
    {
      f := f0;
      var i: nat := |f.bullets|;
      while i > 0
        invariant i <= |f.bullets|
        invariant Sweep(contacts, f, i) == Sweep(contacts, f0, |f0.bullets|)
        decreases i
      {
        SweepUnfold(contacts, f, i);
        f := HitWithBullet(contacts, f, i - 1);
        i := i - 1;
      }
    }

    /**
     * One pass of that loop, for bullet `bi`: it strikes the enemies, is
     * removed if it hit something and does not pass through, and the
     * points and the boss flag follow the strike.
     */
    static method HitWithBullet(contacts: set<(int, nat)>, f: Board, bi: nat) returns (g: Board)
      requires bi < |f.bullets|
      ensures g == SweepStep(contacts, f, bi + 1)
    {
      var b := f.bullets[bi];
      var r := StrikeEnemies(b, bi, contacts, f.enemies);
      var rest := f.bullets;
      if r.struck && !PassesThrough(b) {
        rest := Splice(f.bullets, bi, []);
      }
      g := Board(rest, r.enemies, f.score + r.gained, f.bossActive && !r.bossDown);
    }

    /**
     * The inner loop for bullet `bi`, over the enemies from the last: each
     * overlapped enemy takes the bullet's damage and is removed once
     * destroyed, its points won; any bullet but a laser stops at its
     * first hit.
     */
    static method StrikeEnemies(b: Bullet, bi: int, contacts: set<(int, nat)>, es0: seq<Enemy>) returns (r: Struck)
      ensures r == Strike(b, bi, contacts, es0, |es0|)
    {
      var es, gained, bossDown, struck := es0, 0, false, false;
      var j: nat := |es0|;
      while j > 0
        invariant j <= |es|
        invariant var t := Strike(b, bi, contacts, es, j);
          Strike(b, bi, contacts, es0, |es0|) == Struck(t.enemies, gained + t.gained, bossDown || t.bossDown, struck || t.struck)
        decreases j
      {
        j := j - 1;
        var e := es[j];
        if Touches(contacts, bi, e) {
          var hurt := Damaged(e, Damage(b.weapon));
          if Destroyed(hurt) {
            gained := gained + e.points;
            bossDown := bossDown || e.isBoss;
          }
          es := HitAt(es, j, b);
          struck := true;
          if b.weapon != Laser {
            break;
          }
        }
      }
      r := Struck(es, gained, bossDown, struck);
    }

    /**
     * The ship-against-enemy part of `checkCollisions`; `rams` holds the
     * enemies the circle test finds touching the ship. Each is removed and
     * hurts the ship; the game ends at once when the ship is destroyed.
     */
    method RamCheck(rams: set<nat>)
      requires Valid() && state == Playing
      modifies this`enemies, this`state, this`highScore, this`unlocked, player`health, player`invincible, player`invincibleTimer
      ensures Valid() && (state == Playing || state == Over) && player.maxHealth == old(player.maxHealth)
      ensures NoRamFrom(old(enemies), rams, 0) || old(player.invincible || player.shieldActive) ==>
                state == Playing && player.health == old(player.health) && player.invincible == old(player.invincible)
                && player.invincibleTimer == old(player.invincibleTimer)
      ensures !NoRamFrom(old(enemies), rams, 0) && !old(player.invincible || player.shieldActive) ==>
                player.health == old(player.health) - 1 && player.invincible && player.invincibleTimer == INVINCIBLE_TIME
                && (state == Over <==> player.health <= 0)
      ensures state == Over ==> highScore == Max(old(highScore), score)
      ensures state == Over ==> unlocked == Unlocked(old(unlocked), CHARACTERS, score)
      ensures state == Playing ==> unlocked == old(unlocked)
      ensures state == Over ==> (exists k :: 0 <= k < |old(enemies)| && old(enemies)[k].id in rams && NoRamFrom(old(enemies), rams, k + 1)
                                             && enemies == old(enemies)[..k] + old(enemies)[k + 1..])
      ensures state == Playing ==> enemies == Survivors(old(enemies), rams) && highScore == old(highScore)
    {
      var died := Ram(rams);
      if died {
        GameOver();
      }
    }

    /**
     * The loop of the ship-against-enemy part, over the enemies from the
     * last, stopping at the hit that destroys the ship. The first rammer
     * met (the last in the list) deals the only damage unless the ship is
     * protected, since that hit makes it invincible; so the ship can only
     * be destroyed there, with just that enemy removed.
     */
    method Ram(rams: set<nat>) returns (died: bool)
      requires player.Valid()
      modifies this`enemies, player`health, player`invincible, player`invincibleTimer
      ensures player.Valid() && player.maxHealth == old(player.maxHealth)
      ensures NoRamFrom(old(enemies), rams, 0) || old(player.invincible || player.shieldActive) ==>
                !died && player.health == old(player.health) && player.invincible == old(player.invincible)
                && player.invincibleTimer == old(player.invincibleTimer)
      ensures !NoRamFrom(old(enemies), rams, 0) && !old(player.invincible || player.shieldActive) ==>
                player.health == old(player.health) - 1 && player.invincible && player.invincibleTimer == INVINCIBLE_TIME
                && died == (player.health <= 0)
      ensures died ==> (exists k :: 0 <= k < |old(enemies)| && old(enemies)[k].id in rams && NoRamFrom(old(enemies), rams, k + 1)
                                    && enemies == old(enemies)[..k] + old(enemies)[k + 1..])
      ensures !died ==> enemies == Survivors(old(enemies), rams)
    {
      ghost var es0, h0, inv0, t0 := enemies, player.health, player.invincible, player.invincibleTimer;
      ghost var guarded := player.invincible || player.shieldActive;
      ghost var hit := false;
      var es := enemies;
      died := false;
      var i: nat := |es|;
      while i > 0
        invariant i <= |es| && i <= |es0| && player.Valid() && player.maxHealth == old(player.maxHealth)
        invariant es == es0[..i] + Survivors(es0[i..], rams)
        invariant player.shieldActive == old(player.shieldActive)
        invariant hit == !NoRamFrom(es0, rams, i)
        invariant !hit || guarded ==> player.health == h0 && player.invincible == inv0 && player.invincibleTimer == t0
        invariant hit && !guarded ==>
                    player.health == h0 - 1 && player.invincible && player.invincibleTimer == INVINCIBLE_TIME && h0 - 1 > 0
        decreases i
      {
        i := i - 1;
        NoRamFromStep(es0, rams, i);
        RamStep(es0, rams, i, es);
        if es[i].id in rams {
          es := es[..i] + es[i + 1..];
          died := player.TakeDamage();
          if died {
            SurvivorsNoRam(es0[i + 1..], rams);
            enemies := es;
            return;
          }
          hit := true;
        }
      }
      assert es0[..0] == [] && es0[0..] == es0;
      enemies := es;
    }
  }

  /** One step of the backward ram loop on the list it has built so far. */
  lemma RamStep(es0: seq<Enemy>, rams: set<nat>, i: nat, es: seq<Enemy>)
    requires i < |es0| && es == es0[..i + 1] + Survivors(es0[i + 1..], rams)
    ensures i < |es| && es[i] == es0[i] && es[..i] == es0[..i]
    ensures es0[i].id in rams ==> es[..i] + es[i + 1..] == es0[..i] + Survivors(es0[i..], rams)
    ensures es0[i].id !in rams ==> es == es0[..i] + Survivors(es0[i..], rams)
  {
    assert es0[i..] == [es0[i]] + es0[i + 1..];
    assert es0[..i + 1] == es0[..i] + [es0[i]];
  }

  /** The ram-free suffix from i is the one from i + 1 when enemy i is no rammer. */
  lemma NoRamFromStep(es: seq<Enemy>, rams: set<nat>, i: nat)
    requires i < |es|
    ensures NoRamFrom(es, rams, i) <==> es[i].id !in rams && NoRamFrom(es, rams, i + 1)
  {
  }
}
