/**
 * The space shooter's tables and the value-level rules its game object
 * follows: weapons and their ammunition, enemy kinds and bosses, how one
 * sweep of player bullets damages the enemies, the difficulty clock and
 * character unlocks.
 */
module ShooterRules {
  import opened Common

  const PLAYER_INITIAL_HEALTH: int := 3
  const DIFFICULTY_INCREASE_INTERVAL: int := 15000
  const MAX_DIFFICULTY: int := 10
  const ENEMY_SPAWN_RATE: real := 1500.0
  const INVINCIBLE_TIME: int := 1500
  const SHIELD_TIME: int := 5000
  const GEM_POINTS: int := 500
  /** The score milestones at which the bosses come, in order. */
  const BOSS_SPAWN_SCORES: seq<int> := [500, 1500, 3000, 5000, 8000, 12000, 17000, 23000, 30000]

  datatype Weapon = Basic | Double | Triple | Rapid | Laser | Spread | Homing | Plasma | Piercing | Burst

  /** Ammunition: the basic weapon's is unlimited (`Infinity`). */
  datatype Ammo = Unlimited | Rounds(n: int)

  /** The `ammo` column of `WEAPONS`. */
  function StartingAmmo(w: Weapon): Ammo {
    match w
    case Basic => Unlimited
    case Double => Rounds(120)
    case Triple => Rounds(100)
    case Rapid => Rounds(200)
    case Laser => Rounds(400)
    case Spread => Rounds(80)
    case Homing => Rounds(60)
    case Plasma => Rounds(50)
    case Piercing => Rounds(80)
    case Burst => Rounds(120)
  }

  /** The `fireRate` column: milliseconds between shots. */
  function FireRate(w: Weapon): int {
    match w
    case Basic => 300
    case Double => 300
    case Triple => 350
    case Rapid => 100
    case Laser => 50
    case Spread => 400
    case Homing => 600
    case Plasma => 500
    case Piercing => 400
    case Burst => 150
  }

  /** The `bulletCount` column. */
  function BulletCount(w: Weapon): nat {
    match w
    case Double => 2
    case Triple => 3
    case Spread => 5
    case Burst => 3
    case _ => 1
  }

  /** The `damage` column. */
  function Damage(w: Weapon): real {
    match w
    case Laser => 0.5
    case Homing => 3.0
    case Plasma => 2.0
    case Piercing => 1.5
    case _ => 1.0
  }

  /** A player bullet, known by the weapon that fired it: its damage and its laser, piercing or plasma flag. */
  datatype Bullet = Bullet(weapon: Weapon)

  /** A laser, piercing or plasma bullet is not used up when it hits. */
  predicate PassesThrough(b: Bullet) {
    b.weapon == Laser || b.weapon == Piercing || b.weapon == Plasma
  }

  /** `n` copies of a bullet. */
  function Copies(b: Bullet, n: nat): (bs: seq<Bullet>)
    ensures |bs| == n && forall i :: 0 <= i < n ==> bs[i] == b
  {
    if n == 0 then [] else Copies(b, n - 1) + [b]
  }

  /** The bullets one shot adds: one plasma wave, three burst bullets, or `bulletCount` bullets. */
  function Volley(w: Weapon): (bs: seq<Bullet>)
    ensures |bs| == BulletCount(w) && forall i :: 0 <= i < |bs| ==> bs[i].weapon == w
  {
    Copies(Bullet(w), BulletCount(w))
  }

  /** An enemy; `id` stands for the object's identity, which the collision test refers to. */
  datatype Enemy = Enemy(id: nat, health: real, maxHealth: real, points: int, isBoss: bool)

  /** The health and points of `ENEMY_TYPES`: basic, fast, tank, zigzag and boss. */
  const ENEMY_HEALTH: seq<int> := [1, 1, 3, 2, 20]
  const ENEMY_POINTS: seq<int> := [10, 15, 30, 25, 500]
  const BOSS_KIND: nat := 4

  /** `new Enemy(game, ENEMY_TYPES[kind], x)`. */
  function NewEnemy(id: nat, kind: nat): (e: Enemy)
    requires kind < BOSS_KIND
    ensures e.health == e.maxHealth == ENEMY_HEALTH[kind] as real && e.points == ENEMY_POINTS[kind] && !e.isBoss
  {
    Enemy(id, ENEMY_HEALTH[kind] as real, ENEMY_HEALTH[kind] as real, ENEMY_POINTS[kind], false)
  }

  /** The boss that arrives as the `count`-th one: 10 more health and 200 more points than the one before. */
  function Boss(id: nat, count: int): (e: Enemy)
    ensures e.isBoss && e.health == e.maxHealth == (20 + 10 * (count - 1)) as real && e.points == 500 + 200 * (count - 1)
  {
    Enemy(id, (ENEMY_HEALTH[BOSS_KIND] + (count - 1) * 10) as real, (ENEMY_HEALTH[BOSS_KIND] + (count - 1) * 10) as real,
          ENEMY_POINTS[BOSS_KIND] + (count - 1) * 200, true)
  }

  /** How many enemy kinds `spawnEnemy` chooses from at a difficulty: basic, then fast, tank and zigzag from 1, 2 and 3 on. */
  function AvailableKinds(difficulty: int): (n: nat)
    ensures 1 <= n <= BOSS_KIND
    ensures n == 1 + (if difficulty >= 1 then 1 else 0) + (if difficulty >= 2 then 1 else 0) + (if difficulty >= 3 then 1 else 0)
  {
    if difficulty >= 3 then 4 else if difficulty >= 2 then 3 else if difficulty >= 1 then 2 else 1
  }

  /** The time between regular spawns, which shrinks with the difficulty. */
  function SpawnInterval(difficulty: int): real
    requires difficulty >= 0
  {
    ENEMY_SPAWN_RATE / (1.0 + difficulty as real * 0.15)
  }

  /** The enemy after `Enemy.takeDamage(damage)`: the damage taken off its health. */
  function Damaged(e: Enemy, damage: real): (d: Enemy)
    ensures d.health == e.health - damage && d.id == e.id && d.points == e.points && d.isBoss == e.isBoss
  {
    e.(health := e.health - damage)
  }

  /** What `Enemy.takeDamage` reports: the enemy is destroyed. */
  predicate Destroyed(e: Enemy) {
    e.health <= 0.0
  }

  /** A bullet's hit on one enemy: nothing left of it if destroyed, else the damaged enemy. */
  function Hit(e: Enemy, b: Bullet): (es: seq<Enemy>)
    ensures |es| <= 1
  {
    var hurt := Damaged(e, Damage(b.weapon));
    if Destroyed(hurt) then [] else [hurt]
  }

  /** The points a hit earns: the enemy's, if it is destroyed. */
  function Bounty(e: Enemy, b: Bullet): int {
    if Destroyed(Damaged(e, Damage(b.weapon))) then e.points else 0
  }

  /** `s.splice(k, 1, ...mid)`: the element at `k` replaced by `mid`. */
  function Splice<T>(s: seq<T>, k: nat, mid: seq<T>): (r: seq<T>)
    requires k < |s|
    ensures |r| == |s| - 1 + |mid|
    decreases k
  {
    if k == 0 then mid + s[1..] else [s[0]] + Splice(s[1..], k - 1, mid)
  }

  /** A splice is the part before `k`, then `mid`, then the part after `k`. */
  lemma {:induction false} SpliceSlices<T>(s: seq<T>, k: nat, mid: seq<T>)
    requires k < |s|
    ensures Splice(s, k, mid) == s[..k] + mid + s[k + 1..]
    decreases k
  {
    if k > 0 {
      SpliceSlices(s[1..], k - 1, mid);
      assert s[1..][..k - 1] == s[1..k] && s[1..][k..] == s[k + 1..];
      assert s[..k] == [s[0]] + s[1..k];
    }
  }

  /** The list with the enemy at `k` hit. */
  function HitAt(es: seq<Enemy>, k: nat, b: Bullet): (r: seq<Enemy>)
    requires k < |es|
    ensures |r| <= |es|
  {
    Splice(es, k, Hit(es[k], b))
  }

  /** The collision test says bullet `bi` overlaps enemy `e`. */
  predicate Touches(contacts: set<(int, nat)>, bi: int, e: Enemy) {
    (bi, e.id) in contacts
  }

  /** The total points of a list of enemies. */
  function SumPoints(es: seq<Enemy>): int
    decreases |es|
  {
    if es == [] then 0 else es[0].points + SumPoints(es[1..])
  }

  /** Splicing `mid` in for the element at `k` trades that element's points for those of `mid`. */
  lemma {:induction false} SumPointsSplice(es: seq<Enemy>, k: nat, mid: seq<Enemy>)
    requires k < |es| && |mid| <= 1
    ensures SumPoints(Splice(es, k, mid)) == SumPoints(es) - es[k].points + SumPoints(mid)
    decreases k
  {
    var r := Splice(es, k, mid);
    if k == 0 {
      if mid != [] {
        assert r[0] == mid[0] && r[1..] == es[1..];
        assert mid[1..] == [];
      } else {
        assert r == es[1..];
      }
    } else {
      SumPointsSplice(es[1..], k - 1, mid);
      assert r[0] == es[0] && r[1..] == Splice(es[1..], k - 1, mid);
    }
  }

  /** A hit moves the points of a destroyed enemy to the bounty and keeps the rest. */
  lemma {:induction false} SumPointsHitAt(es: seq<Enemy>, k: nat, b: Bullet)
    requires k < |es|
    ensures SumPoints(HitAt(es, k, b)) + Bounty(es[k], b) == SumPoints(es)
  {
    var h := Hit(es[k], b);
    SumPointsSplice(es, k, h);
    if h != [] {
      assert h[1..] == [];
    }
  }

  /** What one bullet does to the enemy list: the enemies left, the points won, whether a boss fell, whether it hit at all. */
  datatype Struck = Struck(enemies: seq<Enemy>, gained: int, bossDown: bool, struck: bool)

  /**
   * The inner loop of the bullet check, over enemies `n - 1` down to 0:
   * each enemy the bullet overlaps takes its damage and is removed once
   * destroyed; any bullet but a laser stops at its first hit.
   */
  function Strike(b: Bullet, bi: int, contacts: set<(int, nat)>, es: seq<Enemy>, n: nat): (r: Struck)
    requires n <= |es|
    ensures |r.enemies| <= |es|
    decreases n
  {
    if n == 0 then Struck(es, 0, false, false)
    else if !Touches(contacts, bi, es[n - 1]) then Strike(b, bi, contacts, es, n - 1)
    else
      var e := es[n - 1];
      var boss := Destroyed(Damaged(e, Damage(b.weapon))) && e.isBoss;
      if b.weapon != Laser then Struck(HitAt(es, n - 1, b), Bounty(e, b), boss, true)
      else
        var r := Strike(b, bi, contacts, HitAt(es, n - 1, b), n - 1);
        Struck(r.enemies, r.gained + Bounty(e, b), r.bossDown || boss, true)
  }

  /** The highest-numbered enemy below `n` the bullet overlaps. */
  function LastTouch(contacts: set<(int, nat)>, bi: int, es: seq<Enemy>, n: nat): (k: Option<nat>)
    requires n <= |es|
    ensures k.Some? ==> (k.value < n && Touches(contacts, bi, es[k.value]) &&
      forall j :: k.value < j < n ==> !Touches(contacts, bi, es[j]))
    ensures k.None? ==> forall j :: 0 <= j < n ==> !Touches(contacts, bi, es[j])
  {
    if n == 0 then None
    else if Touches(contacts, bi, es[n - 1]) then Some(n - 1)
    else LastTouch(contacts, bi, es, n - 1)
  }

  /** Any bullet but a laser hits exactly one enemy, the last one it overlaps, or none at all. */
  lemma {:induction false} StrikeStopsAtFirst(b: Bullet, bi: int, contacts: set<(int, nat)>, es: seq<Enemy>, n: nat)
    requires n <= |es| && b.weapon != Laser
    ensures var r := Strike(b, bi, contacts, es, n);
      match LastTouch(contacts, bi, es, n)
      case None => r == Struck(es, 0, false, false)
      case Some(k) => r.struck && r.gained == Bounty(es[k], b) && r.enemies == HitAt(es, k, b)
    decreases n
  {
    if n > 0 && !Touches(contacts, bi, es[n - 1]) {
      StrikeStopsAtFirst(b, bi, contacts, es, n - 1);
    }
  }

  /** Every overlapped enemy among `es`, hit once. */
  function HitAll(b: Bullet, bi: int, contacts: set<(int, nat)>, es: seq<Enemy>): seq<Enemy> {
    if es == [] then []
    else
      var e := es[|es| - 1];
      HitAll(b, bi, contacts, es[..|es| - 1]) + (if Touches(contacts, bi, e) then Hit(e, b) else [e])
  }

  /** A laser goes on through the whole list and hits every enemy it overlaps. */
  lemma {:induction false} StrikeLaserHitsAll(b: Bullet, bi: int, contacts: set<(int, nat)>, es: seq<Enemy>, n: nat)
    requires n <= |es| && b.weapon == Laser
    ensures Strike(b, bi, contacts, es, n).enemies == HitAll(b, bi, contacts, es[..n]) + es[n..]
    decreases n
  {
    if n > 0 {
      var e := es[n - 1];
      assert es[..n][..n - 1] == es[..n - 1];
      if Touches(contacts, bi, e) {
        var rest := HitAt(es, n - 1, b);
        var pre, post := es[..n - 1], Hit(e, b) + es[n..];
        SpliceSlices(es, n - 1, Hit(e, b));
        assert rest == pre + post && |pre| == n - 1;
        StrikeLaserHitsAll(b, bi, contacts, rest, n - 1);
        assert rest[..n - 1] == pre && rest[n - 1..] == post;
      } else {
        StrikeLaserHitsAll(b, bi, contacts, es, n - 1);
        assert es[n - 1..] == [e] + es[n..];
      }
    }
  }

  /** Points are only moved, never made: the points won equal the points of the enemies removed. */
  lemma {:induction false} StrikeConserves(b: Bullet, bi: int, contacts: set<(int, nat)>, es: seq<Enemy>, n: nat)
    requires n <= |es|
    ensures var r := Strike(b, bi, contacts, es, n); SumPoints(es) == SumPoints(r.enemies) + r.gained
    decreases n
  {
    if n > 0 {
      if !Touches(contacts, bi, es[n - 1]) {
        StrikeConserves(b, bi, contacts, es, n - 1);
      } else {
        SumPointsHitAt(es, n - 1, b);
        if b.weapon == Laser {
          StrikeConserves(b, bi, contacts, HitAt(es, n - 1, b), n - 1);
        }
      }
    }
  }

  /** The state the bullet check works on. */
  datatype Board = Board(bullets: seq<Bullet>, enemies: seq<Enemy>, score: int, bossActive: bool)

  /**
   * The bullet-against-enemy loop of `checkCollisions`, over bullets
   * `n - 1` down to 0: each bullet strikes the enemies; a bullet that hit
   * something is removed unless it passes through; each destroyed enemy
   * scores its points, and a destroyed boss ends the boss fight.
   */
  function Sweep(contacts: set<(int, nat)>, f: Board, n: nat): (g: Board)
    requires n <= |f.bullets|
    decreases n
  {
    if n == 0 then f else Sweep(contacts, SweepStep(contacts, f, n), n - 1)
  }

  lemma SweepUnfold(contacts: set<(int, nat)>, f: Board, n: nat)
    requires 0 < n <= |f.bullets|
    ensures Sweep(contacts, f, n) == Sweep(contacts, SweepStep(contacts, f, n), n - 1)
  {
  }

  /** One pass of the outer loop, for bullet `n - 1`. */
  function SweepStep(contacts: set<(int, nat)>, f: Board, n: nat): (g: Board)
    requires 0 < n <= |f.bullets|
    ensures n - 1 <= |g.bullets| <= |f.bullets|
  {
    var b := f.bullets[n - 1];
    var r := Strike(b, n - 1, contacts, f.enemies, |f.enemies|);
    var bullets := if r.struck && !PassesThrough(b) then Splice(f.bullets, n - 1, []) else f.bullets;
    Board(bullets, r.enemies, f.score + r.gained, f.bossActive && !r.bossDown)
  }

  /** The bullets that pass through, in order. */
  function Piercers(bs: seq<Bullet>): seq<Bullet>
    decreases |bs|
  {
    if bs == [] then [] else (if PassesThrough(bs[0]) then [bs[0]] else []) + Piercers(bs[1..])
  }

  /** Removing a bullet that does not pass through leaves the piercers as they were. */
  lemma {:induction false} PiercersRemove(bs: seq<Bullet>, k: nat)
    requires k < |bs| && !PassesThrough(bs[k])
    ensures Piercers(Splice(bs, k, [])) == Piercers(bs)
    decreases k
  {
    var r := Splice(bs, k, []);
    if k == 0 {
      assert r == bs[1..];
    } else {
      PiercersRemove(bs[1..], k - 1);
      assert r[0] == bs[0] && r[1..] == Splice(bs[1..], k - 1, []);
    }
  }

  /** The sweep never removes a laser, piercing or plasma bullet. */
  lemma {:induction false} SweepKeepsPiercers(contacts: set<(int, nat)>, f: Board, n: nat)
    requires n <= |f.bullets|
    ensures Piercers(Sweep(contacts, f, n).bullets) == Piercers(f.bullets)
    decreases n
  {
    if n > 0 {
      SweepUnfold(contacts, f, n);
      StepKeepsPiercers(contacts, f, n);
      SweepKeepsPiercers(contacts, SweepStep(contacts, f, n), n - 1);
    }
  }

  lemma {:induction false} StepKeepsPiercers(contacts: set<(int, nat)>, f: Board, n: nat)
    requires 0 < n <= |f.bullets|
    ensures var g := SweepStep(contacts, f, n); Piercers(g.bullets) == Piercers(f.bullets)
  {
    var b := f.bullets[n - 1];
    if Strike(b, n - 1, contacts, f.enemies, |f.enemies|).struck && !PassesThrough(b) {
      PiercersRemove(f.bullets, n - 1);
    }
  }

  /** Score plus the points still on the field is what it was: every point scored is a destroyed enemy's. */
  lemma {:induction false} SweepConserves(contacts: set<(int, nat)>, f: Board, n: nat)
    requires n <= |f.bullets|
    ensures var g := Sweep(contacts, f, n); g.score + SumPoints(g.enemies) == f.score + SumPoints(f.enemies)
    decreases n
  {
    if n > 0 {
      SweepUnfold(contacts, f, n);
      StepConserves(contacts, f, n);
      SweepConserves(contacts, SweepStep(contacts, f, n), n - 1);
    }
  }

  lemma {:induction false} StepConserves(contacts: set<(int, nat)>, f: Board, n: nat)
    requires 0 < n <= |f.bullets|
    ensures var g := SweepStep(contacts, f, n); g.score + SumPoints(g.enemies) == f.score + SumPoints(f.enemies)
  {
    StrikeConserves(f.bullets[n - 1], n - 1, contacts, f.enemies, |f.enemies|);
  }

  /** No boss fight starts in the sweep. */
  lemma {:induction false} SweepBossFlag(contacts: set<(int, nat)>, f: Board, n: nat)
    requires n <= |f.bullets|
    ensures Sweep(contacts, f, n).bossActive ==> f.bossActive
    decreases n
  {
    if n > 0 {
      var g := SweepStep(contacts, f, n);
      SweepUnfold(contacts, f, n);
      assert g.bossActive ==> f.bossActive;
      SweepBossFlag(contacts, g, n - 1);
    }
  }

  /** Only the death of a boss ends a boss fight: with no boss on the field the flag is kept. */
  lemma {:induction false} SweepKeepsBossFlag(contacts: set<(int, nat)>, f: Board, n: nat)
    requires n <= |f.bullets| && NoBoss(f.enemies)
    ensures Sweep(contacts, f, n).bossActive == f.bossActive
    decreases n
  {
    if n > 0 {
      var g := SweepStep(contacts, f, n);
      SweepUnfold(contacts, f, n);
      StrikeNoBoss(f.bullets[n - 1], n - 1, contacts, f.enemies, |f.enemies|);
      assert NoBoss(g.enemies) && g.bossActive == f.bossActive;
      SweepKeepsBossFlag(contacts, g, n - 1);
    }
  }

  /** No boss among the enemies. */
  predicate NoBoss(es: seq<Enemy>)
    decreases |es|
  {
    es == [] || (!es[0].isBoss && NoBoss(es[1..]))
  }

  /** Splicing boss-free enemies into a boss-free list leaves it boss-free; the replaced one was no boss. */
  lemma {:induction false} NoBossSplice(es: seq<Enemy>, k: nat, mid: seq<Enemy>)
    requires k < |es| && NoBoss(es) && NoBoss(mid)
    ensures NoBoss(Splice(es, k, mid)) && !es[k].isBoss
    decreases k
  {
    var r := Splice(es, k, mid);
    if k == 0 {
      NoBossAppend(mid, es[1..]);
    } else {
      NoBossSplice(es[1..], k - 1, mid);
      assert r[0] == es[0] && r[1..] == Splice(es[1..], k - 1, mid);
    }
  }

  lemma {:induction false} NoBossAppend(a: seq<Enemy>, b: seq<Enemy>)
    requires NoBoss(a) && NoBoss(b)
    ensures NoBoss(a + b)
    decreases |a|
  {
    if a == [] {
      assert a + b == b;
    } else {
      NoBossAppend(a[1..], b);
      assert (a + b)[0] == a[0] && (a + b)[1..] == a[1..] + b;
    }
  }

  /** Without a boss on the field, a strike downs no boss and leaves no boss behind. */
  lemma {:induction false} StrikeNoBoss(b: Bullet, bi: int, contacts: set<(int, nat)>, es: seq<Enemy>, n: nat)
    requires n <= |es| && NoBoss(es)
    ensures var r := Strike(b, bi, contacts, es, n); !r.bossDown && NoBoss(r.enemies)
    decreases n
  {
    if n > 0 {
      if !Touches(contacts, bi, es[n - 1]) {
        StrikeNoBoss(b, bi, contacts, es, n - 1);
      } else {
        var h := Hit(es[n - 1], b);
        assert NoBoss(h) by {
          NoBossSplice(es, n - 1, []);
          if h != [] {
            assert h[0].isBoss == es[n - 1].isBoss && h[1..] == [];
          }
        }
        NoBossSplice(es, n - 1, h);
        if b.weapon == Laser {
          StrikeNoBoss(b, bi, contacts, HitAt(es, n - 1, b), n - 1);
        }
      }
    }
  }

  /** One `updateDifficulty`: once the interval has passed the clock restarts, and the level goes up unless at the cap. */
  function DifficultyStep(difficulty: int, last: int, now: int): (r: (int, int))
    ensures now - last >= DIFFICULTY_INCREASE_INTERVAL ==>
      r.1 == now && r.0 == (if difficulty < MAX_DIFFICULTY then difficulty + 1 else difficulty)
    ensures now - last < DIFFICULTY_INCREASE_INTERVAL ==> r == (difficulty, last)
  {
    if now - last >= DIFFICULTY_INCREASE_INTERVAL then
      (if difficulty < MAX_DIFFICULTY then difficulty + 1 else difficulty, now)
    else (difficulty, last)
  }

  /** `updateDifficulty` called at each of the clock readings in turn. */
  function DifficultyRun(difficulty: int, last: int, times: seq<int>): (int, int)
    decreases |times|
  {
    if times == [] then (difficulty, last)
    else
      var (d, l) := DifficultyStep(difficulty, last, times[0]);
      DifficultyRun(d, l, times[1..])
  }

  /**
   * However the clock is read, difficulty never passes 10 and rises by at
   * most one per full interval: the rise times the interval fits in the
   * time the difficulty clock has advanced.
   */
  lemma {:induction false} DifficultyPace(difficulty: int, last: int, times: seq<int>)
    requires 0 <= difficulty <= MAX_DIFFICULTY
    ensures var (d, l) := DifficultyRun(difficulty, last, times);
      difficulty <= d <= MAX_DIFFICULTY && (d - difficulty) * DIFFICULTY_INCREASE_INTERVAL <= l - last
    decreases |times|
  {
    if times != [] {
      var (d, l) := DifficultyStep(difficulty, last, times[0]);
      DifficultyPace(d, l, times[1..]);
    }
  }

  /** A character: the unlocking score, absent for those unlocked from the start. */
  datatype Character = Character(id: string, scoreRequired: Option<int>)

  const CHARACTERS: seq<Character> := [
    Character("fighter", None), Character("warrior", None), Character("blaster", Some(1000)),
    Character("phantom", Some(2500)), Character("dragon", Some(5000)), Character("star", Some(10000))]

  /** `unlocked: true` in `CHARACTERS`: the list a first game starts from. */
  function DefaultUnlocked(): (ids: seq<string>)
    ensures ids == ["fighter", "warrior"]
  {
    ["fighter", "warrior"]
  }

  /** The `checkUnlocks` test for one character. */
  predicate Earns(c: Character, have: seq<string>, score: int) {
    c.id !in have && c.scoreRequired.Some? && score >= c.scoreRequired.value
  }

  /** `checkUnlocks`: the characters in order, each one earned appended to the list. */
  function Unlocked(have: seq<string>, cs: seq<Character>, score: int): seq<string>
    decreases |cs|
  {
    if cs == [] then have
    else Unlocked(have + (if Earns(cs[0], have, score) then [cs[0].id] else []), cs[1..], score)
  }

  /**
   * Unlocking only adds: the old list is kept as a prefix; a name is in
   * the new list exactly when it was there before or is a character with
   * a required score the score reaches; and no name is added twice.
   */
  lemma {:induction false} UnlockedSpec(have: seq<string>, cs: seq<Character>, score: int)
    ensures var u := Unlocked(have, cs, score);
      |have| <= |u| && u[..|have|] == have &&
      forall x :: x in u <==> x in have || exists c :: c in cs && c.id == x && c.scoreRequired.Some? && score >= c.scoreRequired.value
    ensures NoDuplicates(have) ==> NoDuplicates(Unlocked(have, cs, score))
    decreases |cs|
  {
    if cs != [] {
      var c := cs[0];
      var next := have + (if Earns(c, have, score) then [c.id] else []);
      UnlockedSpec(next, cs[1..], score);
      var u := Unlocked(have, cs, score);
      assert u[..|have|] == next[..|next|][..|have|];
      forall x ensures x in u <==> x in have || exists c' :: c' in cs && c'.id == x && c'.scoreRequired.Some? && score >= c'.scoreRequired.value {
        if x in u && x !in have && x !in next {
          var c' :| c' in cs[1..] && c'.id == x && c'.scoreRequired.Some? && score >= c'.scoreRequired.value;
          assert c' in cs;
        }
        if x in u && x !in have && x in next {
          assert x == c.id && Earns(c, have, score);
          assert c in cs;
        }
        if x !in have && (exists c' :: c' in cs && c'.id == x && c'.scoreRequired.Some? && score >= c'.scoreRequired.value) {
          var c' :| c' in cs && c'.id == x && c'.scoreRequired.Some? && score >= c'.scoreRequired.value;
          if c' == c {
            assert x in next;
          } else {
            assert c' in cs[1..];
          }
        }
      }
    }
  }

  /** No name appears twice. */
  predicate NoDuplicates(s: seq<string>) {
    forall i, j :: 0 <= i < j < |s| ==> s[i] != s[j]
  }
}
