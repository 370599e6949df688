/**
 * The pinball game object and its plunger as the table's tick changes
 * them: launching, scoring at the multiplier, the drop-target banks and
 * their bonus, the multiplier timer and the drain.
 */
module PinballGame {
  import opened Common
  import opened PinballRules

  /** The spring plunger in the launch lane. */
  class Plunger {
    const maxPull: real
    var pullAmount: real
    var isPulling: bool
    var released: bool

    constructor(maxPull: real)
      requires maxPull > 0.0
      ensures this.maxPull == maxPull && pullAmount == 0.0 && !isPulling && !released
    {
      this.maxPull := maxPull;
      pullAmount := 0.0;
      isPulling := false;
      released := false;
    }

    /** `pull`: the plunger drawn to `amount`, never past its travel. */
    method Pull(amount: real)
      modifies this`pullAmount, this`isPulling
      ensures pullAmount == Pulled(maxPull, amount) && isPulling
    {
      pullAmount := MinReal(maxPull, amount);
      isPulling := true;
    }

    method Release()
      modifies this`released, this`isPulling
      ensures released && !isPulling
    {
      released := true;
      isPulling := false;
    }

    /** `update`: a released plunger travels back, as `Retract` says. */
    method Update()
      modifies this`pullAmount, this`released
      ensures (pullAmount, released) == Retract(old(pullAmount), old(released))
    {
      if released && pullAmount > 0.0 {
        pullAmount := pullAmount - RETRACT_STEP;
        if pullAmount <= 0.0 {
          pullAmount := 0.0;
          released := false;
        }
      }
    }
  }

  class Game {
    var state: State
    var score: int
    var highScore: int
    var ballsLeft: int
    var multiplier: int
    var multiplierTimer: int
    /** Whether a ball object exists. */
    var hasBall: bool
    /** The down flags of the ten drop targets: the DRILL bank, then the LATHE bank. */
    var targets: array<bool>
    var plunger: Plunger

    predicate Valid()
      reads this, targets, plunger
    {
      targets.Length == TARGET_COUNT && Steady(Snapshot()) && plunger.maxPull == PLUNGER_MAX
    }

    function Snapshot(): Scoring
      reads this, targets
    {
      Scoring(score, multiplier, multiplierTimer, targets[..])
    }

    function Progress(): Round
      reads this
    {
      Round(state, ballsLeft, hasBall)
    }

    /** The game on the start screen: three balls, no multiplier, every target up. */
    constructor(storedHighScore: int)
      ensures Valid() && fresh(targets) && fresh(plunger)
      ensures state == Menu && score == 0 && ballsLeft == STARTING_BALLS && !hasBall
      ensures multiplier == 1 && multiplierTimer == 0 && highScore == storedHighScore
    {
      state := Menu;
      score := 0;
      ballsLeft := STARTING_BALLS;
      highScore := storedHighScore;
      multiplier := 1;
      multiplierTimer := 0;
      hasBall := false;
      targets := new bool[TARGET_COUNT](_ => false);
      plunger := new Plunger(PLUNGER_MAX);
      new;
      assert !Snapshot().down[DRILL] && !Snapshot().down[LATHE];
    }

    /** `startGame`: a fresh table and score, then the first ball in the launch lane. */
    method StartGame()
      modifies this
      ensures Valid() && fresh(targets) && fresh(plunger)
      ensures state == Launching && hasBall && plunger.pullAmount == 0.0
      ensures score == 0 && ballsLeft == STARTING_BALLS && multiplier == 1 && multiplierTimer == 0
      ensures forall k :: 0 <= k < TARGET_COUNT ==> !targets[k]
      ensures highScore == old(highScore)
    {
      score := 0;
      ballsLeft := STARTING_BALLS;
      multiplier := 1;
      multiplierTimer := 0;
      targets := new bool[TARGET_COUNT](_ => false);
      plunger := new Plunger(PLUNGER_MAX);
      PrepareBall();
      assert !Snapshot().down[DRILL] && !Snapshot().down[LATHE];
    }

    /** `prepareBall`: a new ball waits in the launch lane with the plunger at rest. */
    method PrepareBall()
      modifies this`hasBall, this`state, plunger`pullAmount
      ensures hasBall && state == Launching && plunger.pullAmount == 0.0
    {
      hasBall := true;
      state := Launching;
      plunger.pullAmount := 0.0;
    }

    /**
     * `launchBall`: only a waiting ball with at least the minimum launch
     * power goes; the game is then in play and the plunger released.
     */
    method LaunchBall() returns (launched: bool)
      requires Valid()
      modifies this`state, plunger`released, plunger`isPulling
      ensures Valid()
      ensures launched <==> old(state) == Launching && hasBall && plunger.pullAmount / plunger.maxPull >= MIN_LAUNCH_POWER
      ensures launched ==> state == Playing && plunger.released && !plunger.isPulling
      ensures !launched ==> state == old(state) && unchanged(plunger)
    {
      if state != Launching || !hasBall {
        return false;
      }
      var power := plunger.pullAmount / plunger.maxPull;
      if power < MIN_LAUNCH_POWER {
        return false;
      }
      state := Playing;
      plunger.Release();
      launched := true;
    }

    /** `addScore`: points count at the current multiplier. */
    method AddScore(points: int)
      modifies this`score
      ensures score == old(score) + points * multiplier
    {
      score := score + points * multiplier;
    }

    /** `checkCollision` of drop target `i` when the ball overlaps it: it registers only while up, and then stays down. */
    method HitTarget(i: nat) returns (hit: bool)
      requires i < targets.Length
      modifies targets
      ensures hit == !old(targets[i]) && targets[..] == old(targets[..])[i := true]
    {
      if targets[i] {
        return false;
      }
      targets[i] := true;
      hit := true;
    }

    /** `every(t => t.isDown)` over one bank. */
    method BankComplete(lo: nat) returns (all: bool)
      requires targets.Length == TARGET_COUNT && IsBank(lo)
      ensures all == BankDown(targets[..], lo)
    {
      all := true;
      var k := lo;
      while k < lo + BANK_SIZE
        invariant lo <= k <= lo + BANK_SIZE
        invariant all == forall j :: lo <= j < k ==> targets[j]
      {
        all := all && targets[k];
        k := k + 1;
      }
    }

    /** `forEach(t => t.reset())` over one bank. */
    method ResetBank(lo: nat)
      requires targets.Length == TARGET_COUNT && IsBank(lo)
      modifies targets
      ensures targets[..] == RaiseBank(old(targets[..]), lo)
    {
      var k := lo;
      while k < lo + BANK_SIZE
        invariant lo <= k <= lo + BANK_SIZE
        invariant forall j :: 0 <= j < TARGET_COUNT ==> targets[j] == (old(targets[j]) && !(lo <= j < k))
      {
        targets[k] := false;
        k := k + 1;
      }
    }

    /** One bank's half of `checkBonuses`, as `Award` says. */
    method AwardBank(lo: nat)
      requires targets.Length == TARGET_COUNT && IsBank(lo)
      modifies this`score, this`multiplier, this`multiplierTimer, targets
      ensures Snapshot() == Award(old(Snapshot()), lo)
    {
      var all := BankComplete(lo);
      if all {
        AddScore(BANK_BONUS);
        multiplier := Min(MAX_MULTIPLIER, multiplier + 1);
        multiplierTimer := MULTIPLIER_TIME;
        ResetBank(lo);
      }
    }

    /** `checkBonuses`. */
    method CheckBonuses()
      requires targets.Length == TARGET_COUNT
      modifies this`score, this`multiplier, this`multiplierTimer, targets
      ensures Snapshot() == Bonuses(old(Snapshot()))
    {
      AwardBank(DRILL);
      AwardBank(LATHE);
    }

    /** One contact: a bumper or slingshot scores its points, a drop target is checked and may pay a bonus. */
    method TouchOne(c: Contact)
      requires targets.Length == TARGET_COUNT && (c.Touched? ==> c.target < TARGET_COUNT)
      modifies this`score, this`multiplier, this`multiplierTimer, targets
      ensures Snapshot() == Touch(old(Snapshot()), c)
    {
      match c
      case Bumped(p) =>
        AddScore(p);
      case Touched(t) =>
        var hit := HitTarget(t);
        if hit {
          AddScore(TARGET_POINTS);
          CheckBonuses();
        }
    }

    /** The scoring part of the physics sub-steps: each contact of the tick in order, as `Play` says. */
    method Collide(contacts: seq<Contact>)
      requires Valid() && OnTable(contacts)
      modifies this`score, this`multiplier, this`multiplierTimer, targets
      ensures Valid() && Snapshot() == Play(old(Snapshot()), contacts)
    {
      PlaySteady(Snapshot(), contacts);
      var i := 0;
      while i < |contacts|
        invariant 0 <= i <= |contacts| && targets.Length == TARGET_COUNT
        invariant Play(Snapshot(), contacts[i..]) == Play(old(Snapshot()), contacts)
        decreases |contacts| - i
      {
        assert contacts[i..][1..] == contacts[i + 1..];
        TouchOne(contacts[i]);
        i := i + 1;
      }
      assert contacts[i..] == [];
    }

    /** `gameOver`: the high score keeps the best. */
    method GameOver()
      modifies this`state, this`highScore
      ensures state == Over && highScore == Max(old(highScore), score)
    {
      state := Over;
      if score > highScore {
        highScore := score;
      }
    }

    /**
     * `drainBall` as written: one ball fewer, the multiplier back to 1,
     * and the game over after the last one; the next ball is prepared
     * later by `PrepareBall`. The drained ball stays on the table and the
     * state stays in play, so a ball that remains below the drain line is
     * drained again on the next tick (`PinballRules.DrainEndsGameAsWritten`).
     */
    method DrainBall()
      requires state == Playing && hasBall
      modifies this`state, this`highScore, this`ballsLeft, this`multiplier
      ensures Progress() == DrainTickAsWritten(old(Progress()), true) && multiplier == 1
      ensures hasBall && (state == Over <==> ballsLeft <= 0) && (state != Over ==> state == Playing)
      ensures highScore == (if state == Over then Max(old(highScore), score) else old(highScore))
    {
      ballsLeft := ballsLeft - 1;
      multiplier := 1;
      if ballsLeft <= 0 {
        GameOver();
      }
    }

    /** The multiplier timer part of `update`, as `TimerStep` says. */
    method CountDown()
      modifies this`multiplier, this`multiplierTimer
      ensures (multiplier, multiplierTimer) == (TimerStep(old(Snapshot())).multiplier, TimerStep(old(Snapshot())).timer)
    {
      if multiplierTimer > 0 {
        multiplierTimer := multiplierTimer - 1;
        if multiplierTimer <= 0 {
          multiplier := 1;
        }
      }
    }

    /**
     * `update` for one tick, given what the physics produced: the
     * contacts the ball made, in order, and whether it ended below the
     * drain line. Outside a round nothing changes. In a round the plunger
     * and the multiplier timer tick; a ball in play then scores its
     * contacts and, if below the line, drains; as written the drained
     * ball stays where it is, so the next tick drains it again.
     */
    method Tick(contacts: seq<Contact>, belowDrain: bool)
      requires Valid() && OnTable(contacts)
      modifies this, targets, plunger
      ensures Valid() && targets == old(targets) && plunger == old(plunger)
      ensures old(state) != Playing && old(state) != Launching ==>
        unchanged(this) && unchanged(targets) && unchanged(plunger)
      ensures old(state) == Playing || old(state) == Launching ==>
        (plunger.pullAmount, plunger.released) == Retract(old(plunger.pullAmount), old(plunger.released))
      ensures old(state) == Launching || (old(state) == Playing && !old(hasBall)) ==>
        Snapshot() == TimerStep(old(Snapshot())) && Progress() == old(Progress()) && highScore == old(highScore)
      ensures old(state) == Playing && old(hasBall) ==>
        var s := Play(TimerStep(old(Snapshot())), contacts);
        Progress() == DrainTickAsWritten(old(Progress()), belowDrain) &&
        Snapshot() == (if belowDrain then s.(multiplier := 1) else s) &&
        highScore == (if state == Over then Max(old(highScore), score) else old(highScore))
    {
      if state != Playing && state != Launching {
        return;
      }
      plunger.Update();
      CountDown();
      if !hasBall || state == Launching {
        return;
      }
      Collide(contacts);
      if belowDrain {
        DrainBall();
      }
    }
  }
}
