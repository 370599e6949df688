/**
 * The space shooter's player ship: health with a cap, the weapon and its
 * ammunition, the shot clock, and the shield and invincibility timers.
 */
module ShooterPlayer {
  import opened ShooterRules

  /** The part of the ship `shoot` works on: the weapon, its ammunition and the time of the last shot. */
  datatype Gun = Gun(weapon: Weapon, ammo: Ammo, lastShot: int)

  /** Only the basic weapon has unlimited ammunition, and no round count is negative. */
  predicate Loaded(g: Gun) {
    (g.ammo == Unlimited <==> g.weapon == Basic) && (g.ammo.Rounds? ==> g.ammo.n >= 0)
  }

  /**
   * The ammunition part of `shoot` at clock reading `now`: the gun
   * afterwards and the bullets the shot adds. A special weapon spends one
   * round per shot; with none left the shot switches back to the basic
   * weapon and adds nothing.
   */
  function Fire(g: Gun, now: int): (r: (Gun, seq<Bullet>))
    ensures Loaded(g) ==> Loaded(r.0)
    ensures now - g.lastShot < FireRate(g.weapon) ==> r == (g, [])
    ensures now - g.lastShot >= FireRate(g.weapon) ==> r.0.lastShot == now
    ensures r.1 == [] || (r.1 == Volley(g.weapon) && r.0.weapon == g.weapon)
  {
    if now - g.lastShot < FireRate(g.weapon) then (g, [])
    else if g.weapon == Basic then (g.(lastShot := now), Volley(Basic))
    else
      match g.ammo
      case Unlimited => (g.(lastShot := now), Volley(g.weapon))
      case Rounds(n) =>
        if n <= 0 then (Gun(Basic, Unlimited, now), [])
        else (Gun(g.weapon, Rounds(n - 1), now), Volley(g.weapon))
  }

  /** `shoot` called at each clock reading in turn: the gun afterwards and how many shots added bullets. */
  function FireRun(g: Gun, times: seq<int>): (int, Gun)
    decreases |times|
  {
    if times == [] then (0, g)
    else
      var (g1, volley) := Fire(g, times[0]);
      var (k, g2) := FireRun(g1, times[1..]);
      (if volley == [] then k else k + 1, g2)
  }

  /** Each clock reading comes at least `gap` after the one before, the first after `last`. */
  predicate Spaced(last: int, times: seq<int>, gap: int) {
    (|times| > 0 ==> times[0] - last >= gap) && forall i :: 0 < i < |times| ==> times[i] - times[i - 1] >= gap
  }

  /**
   * A special weapon loaded with `n` rounds and fired whenever its rate
   * allows adds exactly `n` volleys; the shot after them adds nothing and
   * puts the basic weapon back with unlimited ammunition.
   */
  lemma {:induction false} AmmoLasts(w: Weapon, n: nat, last: int, times: seq<int>)
    requires w != Basic && |times| == n + 1 && Spaced(last, times, FireRate(w))
    ensures FireRun(Gun(w, Rounds(n), last), times) == (n, Gun(Basic, Unlimited, times[n]))
    decreases n
  {
    var (g1, volley) := Fire(Gun(w, Rounds(n), last), times[0]);
    if n == 0 {
      assert times[1..] == [];
    } else {
      assert volley == Volley(w) && |volley| >= 1;
      assert g1 == Gun(w, Rounds(n - 1), times[0]);
      assert Spaced(times[0], times[1..], FireRate(w)) by {
        assert times[1..][0] == times[1];
        forall i | 0 < i < |times[1..]|
          ensures times[1..][i] - times[1..][i - 1] >= FireRate(w)
        {
          assert times[1..][i] == times[i + 1] && times[1..][i - 1] == times[i];
        }
      }
      AmmoLasts(w, n - 1, times[0], times[1..]);
    }
  }

  /** One tick of a shield or invincibility timer: a running timer counts down and switches off at zero. */
  function Countdown(active: bool, timer: int, dt: int): (r: (bool, int))
    ensures !active ==> r == (active, timer)
  {
    if active then (timer - dt > 0, timer - dt) else (active, timer)
  }

  /** The timer after the ticks `dts`, in order. */
  function CountdownRun(active: bool, timer: int, dts: seq<int>): (bool, int)
    decreases |dts|
  {
    if dts == [] then (active, timer)
    else
      var (a, t) := Countdown(active, timer, dts[0]);
      CountdownRun(a, t, dts[1..])
  }

  function Sum(dts: seq<int>): int
    decreases |dts|
  {
    if dts == [] then 0 else dts[0] + Sum(dts[1..])
  }

  /** A stopped timer stays stopped. */
  lemma {:induction false} CountdownIdle(timer: int, dts: seq<int>)
    ensures CountdownRun(false, timer, dts) == (false, timer)
    decreases |dts|
  {
    if dts != [] {
      CountdownIdle(timer, dts[1..]);
    }
  }

  lemma {:induction false} SumPositive(dts: seq<int>)
    requires forall i :: 0 <= i < |dts| ==> dts[i] > 0
    ensures Sum(dts) >= 0
    decreases |dts|
  {
    if dts != [] {
      assert forall i :: 0 <= i < |dts[1..]| ==> dts[1..][i] == dts[i + 1];
      SumPositive(dts[1..]);
    }
  }

  /**
   * A timer started at `d` runs exactly as long as its duration: after
   * ticks of positive length it is still on iff they add up to less than
   * `d`, and while on it holds what is left.
   */
  lemma {:induction false} TimerLasts(d: int, dts: seq<int>)
    requires d > 0 && forall i :: 0 <= i < |dts| ==> dts[i] > 0
    ensures var (a, t) := CountdownRun(true, d, dts); (a <==> Sum(dts) < d) && (a ==> t == d - Sum(dts))
    decreases |dts|
  {
    if dts != [] {
      var rest := dts[1..];
      assert forall i :: 0 <= i < |rest| ==> rest[i] == dts[i + 1];
      SumPositive(rest);
      if d - dts[0] > 0 {
        TimerLasts(d - dts[0], rest);
      } else {
        CountdownIdle(d - dts[0], rest);
      }
    }
  }

  /** The player ship. */
  class Player {
    var health: int
    var maxHealth: int
    var weapon: Weapon
    var ammo: Ammo
    var lastShot: int
    var shieldActive: bool
    var shieldTimer: int
    var invincible: bool
    var invincibleTimer: int

    /** Health never exceeds its cap, and the ammunition fits the weapon. */
    predicate Valid()
      reads this
    {
      health <= maxHealth && Loaded(GunState())
    }

    function GunState(): Gun
      reads this
    {
      Gun(weapon, ammo, lastShot)
    }

    /** `reset`: full initial health, the basic weapon, no shield and no invincibility. */
    constructor()
      ensures Valid()
      ensures health == maxHealth == PLAYER_INITIAL_HEALTH
      ensures weapon == Basic && ammo == Unlimited && lastShot == 0
      ensures !shieldActive && shieldTimer == 0 && !invincible && invincibleTimer == 0
    {
      health := PLAYER_INITIAL_HEALTH;
      maxHealth := PLAYER_INITIAL_HEALTH;
      weapon := Basic;
      ammo := Unlimited;
      lastShot := 0;
      shieldActive := false;
      shieldTimer := 0;
      invincible := false;
      invincibleTimer := 0;
    }

    /** `setWeapon`: the weapon with its full ammunition from the table. */
    method SetWeapon(w: Weapon)
      requires Valid()
      modifies this`weapon, this`ammo
      ensures Valid() && weapon == w && ammo == StartingAmmo(w)
    {
      weapon := w;
      ammo := StartingAmmo(w);
    }

    /** The ammunition part of `shoot`, as `Fire` says; the bullets it adds are returned. */
    method Shoot(now: int) returns (volley: seq<Bullet>)
      modifies this`weapon, this`ammo, this`lastShot
      ensures (GunState(), volley) == Fire(old(GunState()), now)
    {
      volley := [];
      if now - lastShot < FireRate(weapon) {
        return;
      }
      lastShot := now;
      if weapon != Basic {
        if ammo.Rounds? && ammo.n <= 0 {
          weapon := Basic;
          ammo := Unlimited;
          return;
        }
        if ammo.Rounds? {
          ammo := Rounds(ammo.n - 1);
        }
      }
      volley := Volley(weapon);
    }

    /**
     * `takeDamage`: ignored while invincible or shielded; otherwise one
     * health is lost, a short invincibility starts, and the result says
     * whether the ship is destroyed.
     */
    method TakeDamage() returns (died: bool)
      requires Valid()
      modifies this`health, this`invincible, this`invincibleTimer
      ensures Valid()
      ensures old(invincible || shieldActive) ==> !died && unchanged(this)
      ensures !old(invincible || shieldActive) ==>
        health == old(health) - 1 && invincible && invincibleTimer == INVINCIBLE_TIME && died == (health <= 0)
    {
      if invincible || shieldActive {
        return false;
      }
      health := health - 1;
      invincible := true;
      invincibleTimer := INVINCIBLE_TIME;
      died := health <= 0;
    }

    /** `activateShield`. */
    method ActivateShield(duration: int)
      modifies this`shieldActive, this`shieldTimer
      ensures shieldActive && shieldTimer == duration
    {
      shieldActive := true;
      shieldTimer := duration;
    }

    /** The timer part of `update`: both timers tick, as `Countdown` says. */
    method Tick(dt: int)
      modifies this`shieldActive, this`shieldTimer, this`invincible, this`invincibleTimer
      ensures (shieldActive, shieldTimer) == Countdown(old(shieldActive), old(shieldTimer), dt)
      ensures (invincible, invincibleTimer) == Countdown(old(invincible), old(invincibleTimer), dt)
    {
      if shieldActive {
        shieldTimer := shieldTimer - dt;
        if shieldTimer <= 0 {
          shieldActive := false;
        }
      }
      if invincible {
        invincibleTimer := invincibleTimer - dt;
        if invincibleTimer <= 0 {
          invincible := false;
        }
      }
    }

    /** `update` without the movement: the timers tick, then the ship fires. */
    method Update(dt: int, now: int) returns (volley: seq<Bullet>)
      requires Valid()
      modifies this
      ensures Valid() && health == old(health) && maxHealth == old(maxHealth)
      ensures (shieldActive, shieldTimer) == Countdown(old(shieldActive), old(shieldTimer), dt)
      ensures (invincible, invincibleTimer) == Countdown(old(invincible), old(invincibleTimer), dt)
      ensures (GunState(), volley) == Fire(old(GunState()), now)
    {
      Tick(dt);
      volley := Shoot(now);
    }
  }
}
