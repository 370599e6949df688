/**
 * The discrete rules of the brick-breaker round: power-up timers and their
 * expiry, the 3 x 3 brick scan around the ball, the paddle clamp, the
 * falling power-up pickups and the order of the round-end checks.
 */
module BreakerRules {
  import opened Common
  import opened Transcoder

  const BRICK_SCORE: int := 10
  const POWERUP_SCORE: int := 50
  const BONUS_POINTS: int := 500
  const ALL_CLEAR_BONUS: int := 2000
  const BREAKER_TIME_LIMIT: int := 30000
  const BREAKER_SCORE_INTERVAL: int := 3000
  const FLIP_DURATION: int := 1200
  const PADDLE_WIDTH_RATIO: real := 0.2
  const PADDLE_WIDE_MULTIPLIER: real := 1.6
  const PADDLE_KEY_STEP: real := 8.0
  /** The candidate cells of one ball's brick check: its own cell and the eight around it. */
  const SCAN_CELLS: nat := 9

  // ---------------------------------------------------------------------------
  // Timed effects (`activePowerups`)
  // ---------------------------------------------------------------------------

  /** The four power-ups that run on a timer. */
  datatype Effect = WideTimer | FireTimer | SlowTimer | StickyTimer

  /** Effect -> end time in milliseconds. */
  type Effects = map<Effect, int>

  function TimerOf(k: PowerUpKind): (e: Option<Effect>)
    ensures e.None? <==> k == MultiBall || k == Bonus
  {
    match k
    case MultiBall => None
    case Wide => Some(WideTimer)
    case Fire => Some(FireTimer)
    case Slow => Some(SlowTimer)
    case Bonus => None
    case Sticky => Some(StickyTimer)
  }

  function Duration(e: Effect): (ms: int)
    ensures e == WideTimer ==> ms == 15000
    ensures e == FireTimer ==> ms == 8000
    ensures e == SlowTimer ==> ms == 10000
    ensures e == StickyTimer ==> ms == 10000
  {
    match e
    case WideTimer => 15000
    case FireTimer => 8000
    case SlowTimer => 10000
    case StickyTimer => 10000
  }

  /** `activatePowerup`'s timer part: a timed kind (re)starts its timer at now + duration. */
  function Activate(effects: Effects, k: PowerUpKind, now: int): Effects {
    match TimerOf(k)
    case None => effects
    case Some(e) => effects[e := now + Duration(e)]
  }

  /**
   * The expiry test `activePowerups.x && now > activePowerups.x`: a present,
   * non-zero end time strictly before `now`.
   */
  predicate Expired(effects: Effects, e: Effect, now: int) {
    e in effects && effects[e] != 0 && now > effects[e]
  }

  function Expire(effects: Effects, now: int): Effects {
    map e | e in effects && !Expired(effects, e, now) :: effects[e]
  }

  /**
   * A power-up collected at time t >= 0 is active exactly through
   * t + duration inclusive, whatever timer it replaced.
   */
  lemma ActivateThenExpire(effects: Effects, k: PowerUpKind, t: int, now: int)
    requires t >= 0 && TimerOf(k).Some?
    ensures TimerOf(k).value in Expire(Activate(effects, k, t), now) <==> now <= t + Duration(TimerOf(k).value)
  {
  }

  /**
   * Expiry only removes timers, never changes an end time, is idempotent, and
   * a timer that survives at a later time survived at every earlier time.
   */
  lemma ExpireSpec(effects: Effects, early: int, late: int)
    requires early <= late
    ensures Expire(effects, late).Keys <= effects.Keys
    ensures forall e :: e in Expire(effects, late) ==> Expire(effects, late)[e] == effects[e]
    ensures Expire(Expire(effects, late), late) == Expire(effects, late)
    ensures Expire(effects, late).Keys <= Expire(effects, early).Keys
  {
  }

  /** One of the four expiry tests at the top of the breaker tick: delete timer e if it has run out. */
  function ExpireOne(effects: Effects, e: Effect, now: int): Effects {
    if Expired(effects, e, now) then effects - {e} else effects
  }

  /** Expiring one timer leaves every other timer as it was. */
  lemma ExpireOneKeeps(effects: Effects, e: Effect, other: Effect, now: int)
    requires e != other
    ensures other in ExpireOne(effects, e, now) <==> other in effects
    ensures other in effects ==> ExpireOne(effects, e, now)[other] == effects[other]
    ensures Expired(ExpireOne(effects, e, now), other, now) == Expired(effects, other, now)
  {
  }

  /**
   * Testing the timers one after another (wide, fire, slow, sticky), each
   * test reading the map the previous ones left, removes exactly the
   * timers that had run out at `now`.
   */
  lemma ExpireInOrder(effects: Effects, now: int)
    ensures ExpireOne(ExpireOne(ExpireOne(ExpireOne(effects, WideTimer, now), FireTimer, now), SlowTimer, now),
                      StickyTimer, now) == Expire(effects, now)
  {
    var m := ExpireOne(ExpireOne(ExpireOne(ExpireOne(effects, WideTimer, now), FireTimer, now), SlowTimer, now),
                       StickyTimer, now);
    forall e: Effect
      ensures e in m <==> e in Expire(effects, now)
      ensures e in m ==> m[e] == effects[e]
    {
      match e
      case WideTimer =>
      case FireTimer =>
      case SlowTimer =>
      case StickyTimer =>
    }
  }

  // ---------------------------------------------------------------------------
  // Paddle clamp
  // ---------------------------------------------------------------------------

  /** The paddle width while the wide power-up runs. */
  function WideWidth(base: real): (w: real)
    ensures base >= 0.0 ==> base <= w
  {
    base * PADDLE_WIDE_MULTIPLIER
  }

  /** The normal paddle width for a canvas of width `canvasW`, before rounding down. */
  function PaddleShare(canvasW: real): (w: real)
    ensures canvasW >= 0.0 ==> 0.0 <= w && WideWidth(w) <= canvasW
  {
    canvasW * PADDLE_WIDTH_RATIO
  }

  /** `Math.max(w / 2, Math.min(W - w / 2, x))`. */
  function ClampPaddle(x: real, w: real, canvasW: real): real {
    MaxReal(w / 2.0, MinReal(canvasW - w / 2.0, x))
  }

  /**
   * When the paddle fits the canvas, the clamped centre keeps the whole
   * paddle on screen, a centre already on screen is kept, and clamping twice
   * is clamping once.
   */
  lemma ClampPaddleSpec(x: real, w: real, canvasW: real)
    requires 0.0 <= w <= canvasW
    ensures w / 2.0 <= ClampPaddle(x, w, canvasW) <= canvasW - w / 2.0
    ensures w / 2.0 <= x <= canvasW - w / 2.0 ==> ClampPaddle(x, w, canvasW) == x
    ensures ClampPaddle(ClampPaddle(x, w, canvasW), w, canvasW) == ClampPaddle(x, w, canvasW)
  {
  }

  /** A paddle wider than the canvas is pinned at its half width (the `max` wins). */
  lemma ClampWidePaddle(x: real, w: real, canvasW: real)
    requires canvasW < w
    ensures ClampPaddle(x, w, canvasW) == w / 2.0
  {
  }

  // ---------------------------------------------------------------------------
  // The 3 x 3 brick scan of `checkBrickCollision`
  // ---------------------------------------------------------------------------

  /**
   * What the scan works from: the board's dimensions, the ball's fine cell,
   * the cells the ball overlaps, and whether fire is active.
   */
  datatype Probe = Probe(rows: int, cols: int, row: int, col: int, touching: set<(int, int)>, fire: bool)

  /**
   * Candidate k of the scan, counting the outer loop's dr from -1 and the
   * inner loop's dc from -1: k = 3 (dr + 1) + (dc + 1).
   */
  function ScanCell(row: int, col: int, k: int): (cell: (int, int))
    ensures 0 <= k < 9 ==> cell == (row + k / 3 - 1, col + k % 3 - 1)
  {
    if k < 3 then (row - 1, col + k - 1)
    else if k < 6 then (row, col + k - 4)
    else (row + 1, col + k - 7)
  }

  /**
   * Candidate k passes the bounds guard, holds a brick, and the ball
   * overlaps it; `touching` stands for the ball-versus-cell overlap test.
   */
  predicate Struck(f: FineGrid, p: Probe, k: int) {
    var rc := ScanCell(p.row, p.col, k);
    0 <= rc.0 < p.rows && 0 <= rc.1 < p.cols && FineAt(f, rc.0, rc.1).Brick? && rc in p.touching
  }

  /**
   * The scan from candidate k on, reading the board as it is at each step:
   * a struck brick is destroyed; without fire the scan stops there. Returns
   * the board afterwards and the destroyed bricks in scan order.
   */
  function ScanFrom(f: FineGrid, p: Probe, k: nat): (FineGrid, seq<Brick>)
    decreases 9 - k
  {
    if k >= 9 then (f, [])
    else if Struck(f, p, k) then
      var rc := ScanCell(p.row, p.col, k);
      var f' := f[rc.0 := f[rc.0][rc.1 := Vacant]];
      if p.fire then
        var rest := ScanFrom(f', p, k + 1);
        (rest.0, [f[rc.0][rc.1]] + rest.1)
      else (f', [f[rc.0][rc.1]])
    else ScanFrom(f, p, k + 1)
  }

  lemma ScanCellsDistinct(row: int, col: int, j: int, k: int)
    requires 0 <= j < k < 9
    ensures ScanCell(row, col, j) != ScanCell(row, col, k)
  {
  }

  /** The scan keeps the board's shape and only ever vacates cells. */
  lemma {:induction false} ScanVacates(f: FineGrid, p: Probe, k: nat, r: int, c: int)
    ensures |ScanFrom(f, p, k).0| == |f|
    ensures forall i :: 0 <= i < |f| ==> |ScanFrom(f, p, k).0[i]| == |f[i]|
    ensures FineAt(ScanFrom(f, p, k).0, r, c) in {FineAt(f, r, c), Vacant}
    decreases 9 - k
  {
    if k < 9 {
      if Struck(f, p, k) {
        var rc := ScanCell(p.row, p.col, k);
        var f' := f[rc.0 := f[rc.0][rc.1 := Vacant]];
        if p.fire {
          ScanVacates(f', p, k + 1, r, c);
        }
      } else {
        ScanVacates(f, p, k + 1, r, c);
      }
    }
  }

  /**
   * Every brick the scan reports was destroyed: the brick count drops by
   * exactly the number reported. Without fire at most one brick goes.
   */
  lemma {:induction false} ScanSpec(f: FineGrid, p: Probe, k: nat)
    ensures CountBricks(ScanFrom(f, p, k).0) +
            |ScanFrom(f, p, k).1| == CountBricks(f)
    ensures forall i :: 0 <= i < |ScanFrom(f, p, k).1| ==>
              ScanFrom(f, p, k).1[i].Brick?
    ensures !p.fire ==> |ScanFrom(f, p, k).1| <= 1
    decreases 9 - k
  {
    if k < 9 {
      if Struck(f, p, k) {
        var rc := ScanCell(p.row, p.col, k);
        var f' := f[rc.0 := f[rc.0][rc.1 := Vacant]];
        CountBricksVacate(f, rc.0, rc.1);
        if p.fire {
          ScanSpec(f', p, k + 1);
        }
      } else {
        ScanSpec(f, p, k + 1);
      }
    }
  }

  /** Nothing is destroyed exactly when no candidate from k on is struck. */
  lemma {:induction false} ScanNothingIff(f: FineGrid, p: Probe, k: nat)
    ensures ScanFrom(f, p, k).1 == [] <==>
            forall j :: k <= j < 9 ==> !Struck(f, p, j)
    decreases 9 - k
  {
    if k < 9 {
      if Struck(f, p, k) {
        var rc := ScanCell(p.row, p.col, k);
        var f' := f[rc.0 := f[rc.0][rc.1 := Vacant]];
        if p.fire {
          assert ScanFrom(f, p, k).1 == [f[rc.0][rc.1]] + ScanFrom(f', p, k + 1).1;
        } else {
          assert ScanFrom(f, p, k).1 == [f[rc.0][rc.1]];
        }
      } else {
        assert ScanFrom(f, p, k).1 == ScanFrom(f, p, k + 1).1;
        ScanNothingIff(f, p, k + 1);
        assert (forall j :: k <= j < 9 ==> !Struck(f, p, j)) <==> (forall j :: k + 1 <= j < 9 ==> !Struck(f, p, j));
      }
    }
  }

  /** With fire, every struck candidate is destroyed: afterwards none is left struck. */
  lemma {:induction false} ScanFireClears(f: FineGrid, p: Probe, k: nat, j: int)
    requires p.fire && k <= j < 9
    ensures !Struck(ScanFrom(f, p, k).0, p, j)
    decreases 9 - k
  {
    var rc := ScanCell(p.row, p.col, k);
    var res := ScanFrom(f, p, k).0;
    if Struck(f, p, k) {
      var f' := f[rc.0 := f[rc.0][rc.1 := Vacant]];
      assert res == ScanFrom(f', p, k + 1).0;
      if j == k {
        ScanVacates(f', p, k + 1, rc.0, rc.1);
        assert FineAt(f', rc.0, rc.1) == Vacant;
      } else {
        ScanFireClears(f', p, k + 1, j);
      }
    } else {
      assert res == ScanFrom(f, p, k + 1).0;
      if j == k {
        ScanVacates(f, p, k + 1, rc.0, rc.1);
      } else {
        ScanFireClears(f, p, k + 1, j);
      }
    }
  }

  /** Where the scan stands after some candidates: the board, the bricks destroyed so far, and whether it has stopped. */
  datatype ScanState = ScanState(board: FineGrid, destroyed: seq<Brick>, stopped: bool)

  /** Candidate k of the scan applied to state `st`: a struck brick is vacated and recorded; without fire the scan stops. */
  function ScanStep(st: ScanState, p: Probe, k: int): ScanState {
    if !st.stopped && Struck(st.board, p, k) then
      var rc := ScanCell(p.row, p.col, k);
      ScanState(st.board[rc.0 := st.board[rc.0][rc.1 := Vacant]], st.destroyed + [st.board[rc.0][rc.1]], !p.fire)
    else st
  }

  /**
   * The scan as the nested loops run it, candidate by candidate: the state
   * after the first k candidates. Once stopped it stays put.
   */
  function ScanUpTo(f: FineGrid, p: Probe, k: nat): ScanState
    decreases k
  {
    if k == 0 then ScanState(f, [], false) else ScanStep(ScanUpTo(f, p, k - 1), p, k - 1)
  }

  /** A stopped scan stays stopped, with the same board and bricks. */
  lemma {:induction false} ScanStaysStopped(f: FineGrid, p: Probe, k: nat, j: nat)
    requires k <= j && ScanUpTo(f, p, k).stopped
    ensures ScanUpTo(f, p, j) == ScanUpTo(f, p, k)
    decreases j
  {
    if j > k {
      ScanStaysStopped(f, p, k, j - 1);
    }
  }

  /** The states of the scan of board f after 0, 1, ..., 9 candidates. */
  ghost predicate IsScanTrace(t: seq<ScanState>, f: FineGrid, p: Probe) {
    |t| == 10 && t[0] == ScanState(f, [], false)
    && forall j :: 0 <= j < 9 ==> TraceStep(t, p, j)
  }

  /** Entry j + 1 of trace t is one scan step from entry j. */
  ghost predicate TraceStep(t: seq<ScanState>, p: Probe, j: nat)
    requires j < 9 && |t| == 10
  {
    t[j + 1] == ScanStep(t[j], p, j)
  }

  /** The scan has a trace. */
  lemma ScanTraced(f: FineGrid, p: Probe)
    ensures exists t: seq<ScanState> :: IsScanTrace(t, f, p)
  {
    var t := seq(10, j requires 0 <= j => ScanUpTo(f, p, j));
    assert forall j :: 0 <= j < 9 ==> TraceStep(t, p, j);
    assert IsScanTrace(t, f, p);
  }

  /** A trace holds the scan's states: entry j is the state after j candidates. */
  lemma {:induction false} TraceAgrees(t: seq<ScanState>, f: FineGrid, p: Probe, j: nat)
    requires IsScanTrace(t, f, p) && j <= 9
    ensures t[j] == ScanUpTo(f, p, j)
    decreases j
  {
    if j > 0 {
      TraceAgrees(t, f, p, j - 1);
      assert TraceStep(t, p, j - 1);
    }
  }

  /** A trace ends in the scan's result, and the scan loses no brick. */
  lemma TraceResult(t: seq<ScanState>, f: FineGrid, p: Probe)
    requires IsScanTrace(t, f, p)
    ensures t[9] == ScanUpTo(f, p, 9)
    ensures CountBricks(t[9].board) + |t[9].destroyed| == CountBricks(f)
  {
    TraceAgrees(t, f, p, 9);
    ScanUpToCount(f, p, 9);
  }

  /** In a trace a stopped state is the last one: every later state equals it. */
  lemma {:induction false} TraceStaysStopped(t: seq<ScanState>, f: FineGrid, p: Probe, k: nat, j: nat)
    requires IsScanTrace(t, f, p) && k <= j <= 9 && t[k].stopped
    ensures t[j] == t[k]
    decreases j
  {
    if j > k {
      TraceStaysStopped(t, f, p, k, j - 1);
      assert TraceStep(t, p, j - 1);
    }
  }

  /** One step of the recursive scan at a struck candidate. */
  lemma ScanFromStruck(g: FineGrid, p: Probe, k: nat)
    requires k < 9 && Struck(g, p, k)
    ensures var rc := ScanCell(p.row, p.col, k);
            var g' := g[rc.0 := g[rc.0][rc.1 := Vacant]];
            var rest := ScanFrom(g', p, k + 1);
            var res := ScanFrom(g, p, k);
            res.0 == (if p.fire then rest.0 else g')
            && res.1 == [g[rc.0][rc.1]] + (if p.fire then rest.1 else [])
  {
  }

  /**
   * The candidate-by-candidate scan after k candidates agrees with the
   * recursive one: a stopped scan has produced the whole result, and a
   * running one finishes as the recursive scan from k on its current board.
   */
  ghost predicate ScanAgrees(f: FineGrid, p: Probe, k: nat)
  {
    var st := ScanUpTo(f, p, k);
    var res := ScanFrom(f, p, 0);
    if st.stopped then res.0 == st.board && res.1 == st.destroyed
    else res.0 == ScanFrom(st.board, p, k).0
         && res.1 == st.destroyed + ScanFrom(st.board, p, k).1
  }

  /** Agreement carries over a struck candidate with fire: the scan goes on. */
  lemma ScanAgreesFire(f: FineGrid, p: Probe, k: nat)
    requires k < 9 && p.fire && ScanAgrees(f, p, k)
    requires var st := ScanUpTo(f, p, k);
             !st.stopped && Struck(st.board, p, k)
    ensures ScanAgrees(f, p, k + 1)
  {
    var st := ScanUpTo(f, p, k);
    var rc := ScanCell(p.row, p.col, k);
    var b := st.board[rc.0][rc.1];
    var g' := st.board[rc.0 := st.board[rc.0][rc.1 := Vacant]];
    var st' := ScanUpTo(f, p, k + 1);
    assert st'.board == g' && st'.destroyed == st.destroyed + [b] && !st'.stopped;
    ScanFromStruck(st.board, p, k);
    var res := ScanFrom(f, p, 0);
    var rest := ScanFrom(g', p, k + 1);
    assert res.0 == rest.0;
    assert res.1 == st.destroyed + ([b] + rest.1);
    AppendAssoc(st.destroyed, [b], rest.1);
  }

  /** Agreement carries over a struck candidate without fire: the scan stops. */
  lemma ScanAgreesStop(f: FineGrid, p: Probe, k: nat)
    requires k < 9 && !p.fire && ScanAgrees(f, p, k)
    requires var st := ScanUpTo(f, p, k);
             !st.stopped && Struck(st.board, p, k)
    ensures ScanAgrees(f, p, k + 1)
  {
    var st := ScanUpTo(f, p, k);
    var rc := ScanCell(p.row, p.col, k);
    var b := st.board[rc.0][rc.1];
    var g' := st.board[rc.0 := st.board[rc.0][rc.1 := Vacant]];
    assert ScanUpTo(f, p, k + 1) == ScanState(g', st.destroyed + [b], true);
    ScanFromStruck(st.board, p, k);
    assert [b] + [] == [b];
  }

  /** Agreement carries over a candidate that is not struck, or one after the scan stopped. */
  lemma ScanAgreesPass(f: FineGrid, p: Probe, k: nat)
    requires k < 9 && ScanAgrees(f, p, k)
    requires var st := ScanUpTo(f, p, k);
             st.stopped || !Struck(st.board, p, k)
    ensures ScanAgrees(f, p, k + 1)
  {
    var st := ScanUpTo(f, p, k);
    assert ScanUpTo(f, p, k + 1) == st;
  }

  /** Before any candidate the scan agrees trivially. */
  lemma ScanAgreesStart(f: FineGrid, p: Probe)
    ensures ScanAgrees(f, p, 0)
  {
    var res := ScanFrom(f, p, 0);
    assert res.1 == [] + res.1;
  }

  /** Agreement holds after every number of candidates up to nine. */
  lemma {:induction false} ScanUpToAgrees(f: FineGrid, p: Probe, k: nat)
    requires k <= 9
    ensures ScanAgrees(f, p, k)
    decreases k
  {
    if k == 0 {
      ScanAgreesStart(f, p);
    } else {
      ScanUpToAgrees(f, p, k - 1);
      var st := ScanUpTo(f, p, k - 1);
      if !st.stopped && Struck(st.board, p, k - 1) {
        if p.fire {
          ScanAgreesFire(f, p, k - 1);
        } else {
          ScanAgreesStop(f, p, k - 1);
        }
      } else {
        ScanAgreesPass(f, p, k - 1);
      }
    }
  }

  /** Every brick the candidate-by-candidate scan reports was taken off its board. */
  lemma {:induction false} ScanUpToCount(f: FineGrid, p: Probe, k: nat)
    ensures CountBricks(ScanUpTo(f, p, k).board) + |ScanUpTo(f, p, k).destroyed| == CountBricks(f)
    decreases k
  {
    if k > 0 {
      ScanUpToCount(f, p, k - 1);
      var st := ScanUpTo(f, p, k - 1);
      if !st.stopped && Struck(st.board, p, k - 1) {
        var rc := ScanCell(p.row, p.col, k - 1);
        CountBricksVacate(st.board, rc.0, rc.1);
      }
    }
  }

  /** After all nine candidates the candidate-by-candidate scan has computed exactly the recursive one. */
  lemma ScanComplete(f: FineGrid, p: Probe)
    ensures var st := ScanUpTo(f, p, 9);
            ScanFrom(f, p, 0).0 == st.board
            && ScanFrom(f, p, 0).1 == st.destroyed
  {
    ScanUpToAgrees(f, p, 9);
    var st := ScanUpTo(f, p, 9);
    assert st.destroyed + [] == st.destroyed;
  }

  /** The power-ups carried by destroyed bricks, in destruction order. */
  function Drops(destroyed: seq<Brick>): (d: seq<PowerUpKind>)
    ensures |d| <= |destroyed|
  {
    if destroyed == [] then []
    else
      (if destroyed[0].Brick? && destroyed[0].powerup.Some? then [destroyed[0].powerup.value] else [])
      + Drops(destroyed[1..])
  }

  /** The drops of a concatenation are the concatenation of the drops. */
  lemma {:induction false} DropsAppend(a: seq<Brick>, b: seq<Brick>)
    ensures Drops(a + b) == Drops(a) + Drops(b)
  {
    if a == [] {
      assert a + b == b;
    } else {
      var head := if a[0].Brick? && a[0].powerup.Some? then [a[0].powerup.value] else [];
      assert (a + b)[0] == a[0];
      assert (a + b)[1..] == a[1..] + b;
      DropsAppend(a[1..], b);
      AppendAssoc(head, Drops(a[1..]), Drops(b));
    }
  }

  // ---------------------------------------------------------------------------
  // Falling power-up pickups
  // ---------------------------------------------------------------------------

  /** What happened to one falling power-up this tick (the paddle and screen tests). */
  datatype Fate = Caught | Missed | StillFalling

  /** A power-up the oracle says nothing about keeps falling. */
  function FateAt(fates: seq<Fate>, i: int): Fate {
    if 0 <= i < |fates| then fates[i] else StillFalling
  }

  /** The power-ups from index i on that stay in the falling list, in order. */
  function Survivors(kinds: seq<PowerUpKind>, fates: seq<Fate>, i: nat): (s: seq<PowerUpKind>)
    requires i <= |kinds|
    ensures |s| <= |kinds| - i
    decreases |kinds| - i
  {
    if i == |kinds| then []
    else (if FateAt(fates, i) == StillFalling then [kinds[i]] else []) + Survivors(kinds, fates, i + 1)
  }

  /** The power-ups from index i on that the paddle collects, in order. */
  function CaughtFrom(kinds: seq<PowerUpKind>, fates: seq<Fate>, i: nat): (s: seq<PowerUpKind>)
    requires i <= |kinds|
    ensures |s| <= |kinds| - i
    decreases |kinds| - i
  {
    if i == |kinds| then []
    else (if FateAt(fates, i) == Caught then [kinds[i]] else []) + CaughtFrom(kinds, fates, i + 1)
  }

  /** Every falling power-up is kept, collected or dropped: none appears twice or vanishes unaccounted. */
  lemma {:induction false} PickupPartition(kinds: seq<PowerUpKind>, fates: seq<Fate>, i: nat)
    requires i <= |kinds|
    ensures |Survivors(kinds, fates, i)| + |CaughtFrom(kinds, fates, i)| <= |kinds| - i
    ensures (forall j :: i <= j < |kinds| ==> FateAt(fates, j) != Missed) ==>
              |Survivors(kinds, fates, i)| + |CaughtFrom(kinds, fates, i)| == |kinds| - i
    decreases |kinds| - i
  {
    if i < |kinds| {
      PickupPartition(kinds, fates, i + 1);
      var f := FateAt(fates, i);
      assert |Survivors(kinds, fates, i)| == (if f == StillFalling then 1 else 0) + |Survivors(kinds, fates, i + 1)|;
      assert |CaughtFrom(kinds, fates, i)| == (if f == Caught then 1 else 0) + |CaughtFrom(kinds, fates, i + 1)|;
    }
  }

  /**
   * One step of the backward pickup loop on the falling list: with drops
   * i + 1.. already processed, taking out drop i (or keeping it, while it
   * still falls) leaves drops ..i followed by the survivors from i on.
   */
  lemma FallingStep(kinds: seq<PowerUpKind>, fates: seq<Fate>, i: nat)
    requires i < |kinds|
    ensures var before := kinds[..i + 1] + Survivors(kinds, fates, i + 1);
            before[i] == kinds[i]
            && (FateAt(fates, i) == StillFalling ==> before == kinds[..i] + Survivors(kinds, fates, i))
            && (FateAt(fates, i) != StillFalling ==> before[..i] + before[i + 1..] == kinds[..i] + Survivors(kinds, fates, i))
  {
    var before := kinds[..i + 1] + Survivors(kinds, fates, i + 1);
    assert kinds[..i + 1] == kinds[..i] + [kinds[i]];
    AppendAssoc(kinds[..i], [kinds[i]], Survivors(kinds, fates, i + 1));
    assert before[..i] == kinds[..i];
    assert before[i + 1..] == Survivors(kinds, fates, i + 1);
  }

  function CountKind(ks: seq<PowerUpKind>, k: PowerUpKind): (n: nat)
    ensures n <= |ks|
  {
    if ks == [] then 0 else (if ks[0] == k then 1 else 0) + CountKind(ks[1..], k)
  }

  /** Points for collecting `ks`: 50 each, plus 500 for each bonus. */
  function PickupPoints(ks: seq<PowerUpKind>): int {
    POWERUP_SCORE * |ks| + BONUS_POINTS * CountKind(ks, Bonus)
  }

  /**
   * The timers after collecting `ks`, the list walked from its end as the
   * source's backward loop does (the last element first, the head last).
   */
  function ActivateAll(effects: Effects, ks: seq<PowerUpKind>, now: int): Effects {
    if ks == [] then effects else Activate(ActivateAll(effects, ks[1..], now), ks[0], now)
  }

  /** Collecting one more power-up `k` in front of `rest`, as the backward pickup loop meets it. */
  lemma CaughtStep(k: PowerUpKind, rest: seq<PowerUpKind>, effects: Effects, now: int)
    ensures PickupPoints([k] + rest) == PickupPoints(rest) + POWERUP_SCORE + (if k == Bonus then BONUS_POINTS else 0)
    ensures CountKind([k] + rest, MultiBall) == CountKind(rest, MultiBall) + (if k == MultiBall then 1 else 0)
    ensures ActivateAll(effects, [k] + rest, now) == Activate(ActivateAll(effects, rest, now), k, now)
    ensures (Wide in [k] + rest) == (k == Wide || Wide in rest)
  {
    assert ([k] + rest)[1..] == rest;
  }

  /**
   * After collecting `ks` at time `now`, each collected timed power-up runs
   * until now + its duration, and timers of kinds not collected are untouched.
   */
  lemma {:induction false} ActivateAllSpec(effects: Effects, ks: seq<PowerUpKind>, now: int)
    ensures forall k :: k in ks && TimerOf(k).Some? ==>
              TimerOf(k).value in ActivateAll(effects, ks, now) &&
              ActivateAll(effects, ks, now)[TimerOf(k).value] == now + Duration(TimerOf(k).value)
    ensures forall e :: (forall k :: k in ks ==> TimerOf(k) != Some(e)) ==>
              (e in ActivateAll(effects, ks, now) <==> e in effects) &&
              (e in effects ==> ActivateAll(effects, ks, now)[e] == effects[e])
  {
    if ks != [] {
      ActivateAllSpec(effects, ks[1..], now);
      assert forall k :: k in ks ==> k == ks[0] || k in ks[1..];
    }
  }

  // ---------------------------------------------------------------------------
  // Round end
  // ---------------------------------------------------------------------------

  datatype RoundEnd = BallLost | TimeUp | AllClear | Continues

  /** `Math.max(0, BREAKER_TIME_LIMIT - (now - breakerStartTime))`. */
  function TimeRemaining(now: int, start: int): (ms: int)
    ensures 0 <= ms <= Max(0, BREAKER_TIME_LIMIT + start - now)
    ensures ms == 0 <==> now - start >= BREAKER_TIME_LIMIT
  {
    Max(0, BREAKER_TIME_LIMIT - (now - start))
  }
}
