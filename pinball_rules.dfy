/**
 * The machine-shop pinball table's scoring rules as values: the two
 * five-target drop banks (DRILL and LATHE), the bank bonus and the score
 * multiplier with its timer, the plunger's pull and return, and what a
 * ball below the drain line does to the round.
 */
module PinballRules {
  import opened Common

  const STARTING_BALLS: int := 3
  const PLUNGER_MAX: real := 120.0
  /** How far a released plunger travels back per tick. */
  const RETRACT_STEP: real := 8.0
  /** How far one press of the pull key draws the plunger. */
  const KEY_PULL: real := 4.0
  /** The smallest launch power, as a fraction of the full pull, that launches the ball. */
  const MIN_LAUNCH_POWER: real := 0.05
  const TARGET_COUNT: nat := 10
  const BANK_SIZE: nat := 5
  /** The first target of each bank: D-R-I-L-L on top, L-A-T-H-E on the side. */
  const DRILL: nat := 0
  const LATHE: nat := 5
  const TARGET_POINTS: int := 200
  const BANK_BONUS: int := 5000
  const MAX_MULTIPLIER: int := 5
  const MULTIPLIER_TIME: int := 600

  datatype State = Menu | Launching | Playing | Over

  predicate IsBank(lo: nat) {
    lo == DRILL || lo == LATHE
  }

  /** Every target of the bank starting at `lo` is down. */
  predicate BankDown(d: seq<bool>, lo: nat)
    requires |d| == TARGET_COUNT && IsBank(lo)
  {
    forall k :: lo <= k < lo + BANK_SIZE ==> d[k]
  }

  /** The bank starting at `lo` reset: its targets up, the other bank as it was. */
  function RaiseBank(d: seq<bool>, lo: nat): (r: seq<bool>)
    requires |d| == TARGET_COUNT && IsBank(lo)
    ensures |r| == TARGET_COUNT
    ensures forall k :: 0 <= k < TARGET_COUNT ==> r[k] == (d[k] && !(lo <= k < lo + BANK_SIZE))
  {
    d[..lo] + seq(BANK_SIZE, _ => false) + d[lo + BANK_SIZE..]
  }

  /** The scoring state: score, multiplier, multiplier timer and the ten drop targets' down flags. */
  datatype Scoring = Scoring(score: int, multiplier: int, timer: int, down: seq<bool>)

  predicate InRange(s: Scoring) {
    1 <= s.multiplier <= MAX_MULTIPLIER && 0 <= s.timer <= MULTIPLIER_TIME && |s.down| == TARGET_COUNT
  }

  /** Between hits: the multiplier and timer in range, and neither bank left completely down. */
  predicate Steady(s: Scoring) {
    InRange(s) && !BankDown(s.down, DRILL) && !BankDown(s.down, LATHE)
  }

  /**
   * One bank's half of `checkBonuses`: a completed bank pays the bonus at
   * the current multiplier, raises the multiplier by one up to five,
   * restarts the timer and is reset; otherwise nothing changes.
   */
  function Award(s: Scoring, lo: nat): (r: Scoring)
    requires |s.down| == TARGET_COUNT && IsBank(lo)
    ensures |r.down| == TARGET_COUNT && !BankDown(r.down, lo)
    ensures forall k :: 0 <= k < TARGET_COUNT && !(lo <= k < lo + BANK_SIZE) ==> r.down[k] == s.down[k]
    ensures BankDown(s.down, lo) ==>
      r.score == s.score + BANK_BONUS * s.multiplier && r.multiplier == Min(MAX_MULTIPLIER, s.multiplier + 1) &&
      r.timer == MULTIPLIER_TIME
    ensures !BankDown(s.down, lo) ==> r == s
    ensures InRange(s) ==> InRange(r)
  {
    if BankDown(s.down, lo) then
      var d := RaiseBank(s.down, lo);
      assert !d[lo];
      Scoring(s.score + BANK_BONUS * s.multiplier, Min(MAX_MULTIPLIER, s.multiplier + 1), MULTIPLIER_TIME, d)
    else
      s
  }

  /** `checkBonuses`: the DRILL bank, then the LATHE bank. */
  function Bonuses(s: Scoring): (r: Scoring)
    requires |s.down| == TARGET_COUNT
    ensures |r.down| == TARGET_COUNT
    ensures InRange(s) ==> Steady(r)
  {
    var a := Award(s, DRILL);
    var r := Award(a, LATHE);
    assert !BankDown(r.down, DRILL) by {
      var k :| DRILL <= k < DRILL + BANK_SIZE && !a.down[k];
      assert !r.down[k];
    }
    r
  }

  /**
   * Completing both banks with one hit pays both bonuses, the second at the
   * multiplier the first one raised.
   */
  lemma BothBanksPay(s: Scoring)
    requires InRange(s) && BankDown(s.down, DRILL) && BankDown(s.down, LATHE)
    ensures Bonuses(s).score == s.score + BANK_BONUS * s.multiplier + BANK_BONUS * Min(MAX_MULTIPLIER, s.multiplier + 1)
    ensures Bonuses(s).multiplier == Min(MAX_MULTIPLIER, s.multiplier + 2)
  {
    var a := Award(s, DRILL);
    assert BankDown(a.down, LATHE) by {
      forall k | LATHE <= k < LATHE + BANK_SIZE
        ensures a.down[k]
      {
        assert s.down[k];
      }
    }
  }

  /**
   * The ball touching drop target `i`: a target already down does not
   * register; otherwise it goes down, `addScore` pays its points at the
   * multiplier and `checkBonuses` runs.
   */
  function Latch(s: Scoring, i: nat): (r: Scoring)
    requires |s.down| == TARGET_COUNT && i < TARGET_COUNT
    ensures |r.down| == TARGET_COUNT
    ensures s.down[i] ==> r == s
    ensures InRange(s) ==> Steady(r) || r == s
  {
    if s.down[i] then s
    else Bonuses(s.(score := s.score + TARGET_POINTS * s.multiplier, down := s.down[i := true]))
  }

  /**
   * A target that is not the last one up in its bank goes down for its
   * points alone: no bonus, and the multiplier and timer stay.
   */
  lemma LatchWithoutBonus(s: Scoring, i: nat, j: nat)
    requires Steady(s) && i < TARGET_COUNT && j < TARGET_COUNT && i != j && !s.down[i] && !s.down[j]
    requires (i < LATHE) == (j < LATHE)
    ensures Latch(s, i) == s.(score := s.score + TARGET_POINTS * s.multiplier, down := s.down[i := true])
  {
    var t := s.(score := s.score + TARGET_POINTS * s.multiplier, down := s.down[i := true]);
    assert !t.down[j];
    assert !BankDown(t.down, DRILL) by {
      if i < LATHE {
        assert !t.down[j];
      } else {
        var k :| DRILL <= k < DRILL + BANK_SIZE && !s.down[k];
        assert !t.down[k];
      }
    }
    assert !BankDown(t.down, LATHE) by {
      if i >= LATHE {
        assert !t.down[j];
      } else {
        var k :| LATHE <= k < LATHE + BANK_SIZE && !s.down[k];
        assert !t.down[k];
      }
    }
  }

  /** What the ball touches during one tick: a scoring bumper or slingshot, or a drop target. */
  datatype Contact = Bumped(points: int) | Touched(target: nat)

  predicate OnTable(cs: seq<Contact>) {
    forall j :: 0 <= j < |cs| ==> (cs[j].Touched? ==> cs[j].target < TARGET_COUNT)
  }

  function Touch(s: Scoring, c: Contact): (r: Scoring)
    requires |s.down| == TARGET_COUNT && (c.Touched? ==> c.target < TARGET_COUNT)
    ensures |r.down| == TARGET_COUNT
    ensures Steady(s) ==> Steady(r)
  {
    match c
    case Bumped(p) => s.(score := s.score + p * s.multiplier)
    case Touched(i) => Latch(s, i)
  }

  /** The collisions of one tick, in order. */
  function Play(s: Scoring, cs: seq<Contact>): Scoring
    requires |s.down| == TARGET_COUNT && OnTable(cs)
    decreases |cs|
  {
    if cs == [] then s else Play(Touch(s, cs[0]), cs[1..])
  }

  /** No sequence of hits leaves the multiplier out of 1..5 or a bank completely down. */
  lemma {:induction false} PlaySteady(s: Scoring, cs: seq<Contact>)
    requires Steady(s) && OnTable(cs)
    ensures Steady(Play(s, cs))
    decreases |cs|
  {
    if cs != [] {
      assert OnTable(cs[1..]) by {
        forall j | 0 <= j < |cs[1..]|
          ensures cs[1..][j].Touched? ==> cs[1..][j].target < TARGET_COUNT
        {
          assert cs[1..][j] == cs[j + 1];
        }
      }
      PlaySteady(Touch(s, cs[0]), cs[1..]);
    }
  }

  /** With bumpers paying nothing negative, the score never goes down during a tick. */
  lemma {:induction false} PlayNeverLoses(s: Scoring, cs: seq<Contact>)
    requires InRange(s) && OnTable(cs)
    requires forall j :: 0 <= j < |cs| ==> (cs[j].Bumped? ==> cs[j].points >= 0)
    ensures Play(s, cs).score >= s.score
    decreases |cs|
  {
    if cs != [] {
      var rest := cs[1..];
      assert forall j :: 0 <= j < |rest| ==> rest[j] == cs[j + 1];
      var t := Touch(s, cs[0]);
      assert t.score >= s.score && InRange(t);
      PlayNeverLoses(t, rest);
    }
  }

  /** One tick of the multiplier timer: a running timer counts down, and the multiplier drops to 1 when it runs out. */
  function TimerStep(s: Scoring): (r: Scoring)
    ensures r.score == s.score && r.down == s.down
    ensures s.timer <= 0 ==> r == s
    ensures Steady(s) ==> Steady(r)
  {
    if s.timer > 0 then
      if s.timer - 1 <= 0 then s.(multiplier := 1, timer := s.timer - 1) else s.(timer := s.timer - 1)
    else s
  }

  function TimerRun(s: Scoring, n: nat): Scoring
    decreases n
  {
    if n == 0 then s else TimerRun(TimerStep(s), n - 1)
  }

  lemma {:induction false} TimerIdle(s: Scoring, n: nat)
    requires s.timer == 0
    ensures TimerRun(s, n) == s
    decreases n
  {
    if n > 0 {
      TimerIdle(s, n - 1);
    }
  }

  /**
   * A bonus multiplier lasts exactly as many ticks as its timer: before
   * then it holds and the timer shows the ticks left, from then on the
   * multiplier is back to 1.
   */
  lemma {:induction false} MultiplierLasts(s: Scoring, n: nat)
    requires s.timer > 0
    ensures n < s.timer ==> TimerRun(s, n) == s.(timer := s.timer - n)
    ensures n >= s.timer ==> TimerRun(s, n) == s.(multiplier := 1, timer := 0)
    decreases n
  {
    if n > 0 {
      var t := TimerStep(s);
      if s.timer > 1 {
        MultiplierLasts(t, n - 1);
      } else {
        TimerIdle(t, n - 1);
      }
    }
  }

  /** One tick of the plunger: once released it travels back a fixed step until it rests at 0. */
  function Retract(pull: real, released: bool): (r: (real, bool))
    ensures !released ==> r == (pull, released)
  {
    if released && pull > 0.0 then
      if pull - RETRACT_STEP <= 0.0 then (0.0, false) else (pull - RETRACT_STEP, true)
    else (pull, released)
  }

  function RetractRun(pull: real, released: bool, n: nat): (real, bool)
    decreases n
  {
    if n == 0 then (pull, released)
    else
      var (p, r) := Retract(pull, released);
      RetractRun(p, r, n - 1)
  }

  lemma {:induction false} RetractIdle(pull: real, n: nat)
    ensures RetractRun(pull, false, n) == (pull, false)
    decreases n
  {
    if n > 0 {
      RetractIdle(pull, n - 1);
    }
  }

  /**
   * A plunger released from a pull `p` is back at rest, and no longer
   * released, once `n` steps cover `p`; before that it has moved back
   * `n` steps.
   */
  lemma {:induction false} PlungerReturns(p: real, n: nat)
    requires p > 0.0
    ensures RETRACT_STEP * (n as real) < p ==> RetractRun(p, true, n) == (p - RETRACT_STEP * (n as real), true)
    ensures RETRACT_STEP * (n as real) >= p ==> RetractRun(p, true, n) == (0.0, false)
    decreases n
  {
    if n > 0 {
      if p - RETRACT_STEP <= 0.0 {
        RetractIdle(0.0, n - 1);
      } else {
        PlungerReturns(p - RETRACT_STEP, n - 1);
      }
    }
  }

  /** `pull`: the pull asked for, capped at the plunger's travel. */
  function Pulled(maxPull: real, amount: real): (r: real)
    ensures r <= maxPull && (r == amount || r == maxPull)
  {
    MinReal(maxPull, amount)
  }

  /** The pull after `n` presses of the pull key, from rest. */
  function KeyPulls(n: nat): real
    decreases n
  {
    if n == 0 then 0.0 else Pulled(PLUNGER_MAX, KeyPulls(n - 1) + KEY_PULL)
  }

  /**
   * Each key press draws the plunger four units further up to its full
   * travel; so one press is too weak to launch and two are enough.
   */
  lemma {:induction false} KeyPullsLaunch(n: nat)
    ensures KeyPulls(n) == MinReal(PLUNGER_MAX, KEY_PULL * (n as real))
    ensures KeyPulls(n) / PLUNGER_MAX >= MIN_LAUNCH_POWER <==> n >= 2
    decreases n
  {
    if n > 0 {
      KeyPullsLaunch(n - 1);
    }
  }

  /** The part of the game a drain changes: the state, the balls left and whether a ball is on the table. */
  datatype Round = Round(state: State, ballsLeft: int, ball: bool)

  /**
   * A tick's drain check with `drainBall` as intended: a ball in play
   * below the drain line costs one ball and leaves the table, so the
   * next ticks do not drain it again; the last ball ends the game.
   */
  function DrainTick(r: Round, below: bool): (q: Round)
    ensures r.state != Playing || !r.ball || !below ==> q == r
    ensures r.state == Playing && r.ball && below ==>
      q.ballsLeft == r.ballsLeft - 1 && !q.ball && (q.state == Over <==> q.ballsLeft <= 0)
  {
    if r.state == Playing && r.ball && below then
      Round(if r.ballsLeft - 1 <= 0 then Over else Playing, r.ballsLeft - 1, false)
    else r
  }

  /**
   * The drain check as written: `drainBall` leaves the ball where it is,
   * so while it waits below the drain line for the next ball the check
   * fires again on every tick.
   */
  function DrainTickAsWritten(r: Round, below: bool): (q: Round)
    ensures r.state != Playing || !r.ball || !below ==> q == r
    ensures r.state == Playing && r.ball && below ==>
      q.ballsLeft == r.ballsLeft - 1 && q.ball && (q.state == Over <==> q.ballsLeft <= 0)
  {
    if r.state == Playing && r.ball && below then
      Round(if r.ballsLeft - 1 <= 0 then Over else Playing, r.ballsLeft - 1, r.ball)
    else r
  }

  /** `n` ticks with the ball below the drain line. */
  function DrainRun(r: Round, n: nat): Round
    decreases n
  {
    if n == 0 then r else DrainRun(DrainTick(r, true), n - 1)
  }

  function DrainRunAsWritten(r: Round, n: nat): Round
    decreases n
  {
    if n == 0 then r else DrainRunAsWritten(DrainTickAsWritten(r, true), n - 1)
  }

  /** As written, a ball that stays below the drain line for as many ticks as there are balls left ends the game. */
  lemma {:induction false} DrainEndsGameAsWritten(r: Round, n: nat)
    requires r.state == Playing && r.ball && 1 <= r.ballsLeft <= n
    ensures DrainRunAsWritten(r, n) == Round(Over, 0, true)
    decreases n
  {
    var q := DrainTickAsWritten(r, true);
    if r.ballsLeft == 1 {
      DrainOverAsWritten(q, n - 1);
    } else {
      DrainEndsGameAsWritten(q, n - 1);
    }
  }

  lemma {:induction false} DrainOverAsWritten(r: Round, n: nat)
    requires r.state == Over
    ensures DrainRunAsWritten(r, n) == r
    decreases n
  {
    if n > 0 {
      DrainOverAsWritten(r, n - 1);
    }
  }

  /** The first ball lost in a fresh game ends it within three ticks as written. */
  lemma FirstDrainEndsGameAsWritten()
    ensures DrainRunAsWritten(Round(Playing, STARTING_BALLS, true), 3).state == Over
  {
    DrainEndsGameAsWritten(Round(Playing, STARTING_BALLS, true), 3);
  }

  lemma {:induction false} DrainIdle(r: Round, n: nat)
    requires r.state != Playing || !r.ball
    ensures DrainRun(r, n) == r
    decreases n
  {
    if n > 0 {
      DrainIdle(r, n - 1);
    }
  }

  /** With the drain fixed, a ball below the drain line costs exactly one ball however long it stays there. */
  lemma DrainOncePerBall(r: Round, n: nat)
    requires r.state == Playing && r.ball && n >= 1
    ensures DrainRun(r, n) == Round(if r.ballsLeft <= 1 then Over else Playing, r.ballsLeft - 1, false)
  {
    DrainIdle(DrainTick(r, true), n - 1);
  }
}
