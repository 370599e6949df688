/**
 * The falling-block / brick-breaker hybrid as one object: the page's global
 * game state becomes the fields of `Game`, each source function that
 * updates it becomes a method with a field frame, and the random draws,
 * clock readings and ball geometry become parameters.
 */
module TetrisGame {
  import opened Common
  import opened TetrisGrid
  import opened Transcoder
  import opened BreakerRules
  import opened TetrisPlacement

  const LOCK_DELAY_MAX: int := 500
  const SOFT_DROP_REPEAT: int := 50
  const MOVE_REPEAT_DELAY: int := 120
  const MAX_FRAME_DT: int := 50
  const FIRST_FRAME_DT: int := 16

  /** `state`. */
  datatype Mode = Start | Tetris | FlippingToBreaker | Breaker | FlippingToTetris | GameOver

  /**
   * What one ball in flight did this tick: it fell below the screen, or it
   * is still in play, possibly bouncing off the paddle, in fine cell
   * (row, col) and overlapping the cells in `touching`.
   */
  datatype BallFate = Fell | InPlay(paddleHit: bool, row: int, col: int, touching: set<(int, int)>)

  /** A ball the oracle says nothing about flies on without touching anything. */
  function BallFateAt(fates: seq<BallFate>, i: int): BallFate {
    if 0 <= i < |fates| then fates[i] else InPlay(false, -2, -2, {})
  }

  /** The number of balls among the first n that fall. */
  function Falls(fates: seq<BallFate>, n: nat): nat {
    if n == 0 then 0 else Falls(fates, n - 1) + (if BallFateAt(fates, n - 1) == Fell then 1 else 0)
  }

  /**
   * The balls in play after one tick's moves: those in flight and the one
   * held on the paddle, less those that fall. A held ball whose sticky
   * timer has run out is released and moves with the others.
   */
  function BallsLeft(inFlight: nat, stuck: bool, effects: Effects, fates: seq<BallFate>, now: int): (left: nat)
    ensures left <= inFlight + (if stuck then 1 else 0)
    ensures stuck && !Expired(effects, StickyTimer, now) ==> left >= 1
  {
    var moving := inFlight + (if stuck && Expired(effects, StickyTimer, now) then 1 else 0);
    FallsAtMost(fates, moving);
    inFlight + (if stuck then 1 else 0) - Falls(fates, moving)
  }

  /** `dt` of one animation frame: the gap to the previous frame capped at 50 ms, or 16 ms on the first frame. */
  function FrameDt(timestamp: int, lastTime: int): (dt: int)
    ensures dt <= MAX_FRAME_DT
    ensures lastTime == 0 ==> dt == FIRST_FRAME_DT
    ensures lastTime != 0 && timestamp - lastTime <= MAX_FRAME_DT ==> dt == timestamp - lastTime
  {
    if lastTime != 0 then Min(timestamp - lastTime, MAX_FRAME_DT) else FIRST_FRAME_DT
  }

  /** The random draws and clock reading one frame may consume. */
  datatype FrameInput = FrameInput(now: int, first: nat, second: nat, balls: seq<BallFate>, pickups: seq<Fate>)

  class Game {
    // Falling-block state
    var state: Mode
    var score: int
    var level: int
    var totalLines: nat
    var round: int
    var grid: Grid
    var piece: Option<Piece>
    var nextPieceType: nat
    var dropTimer: int
    var lockDelay: int
    var animating: bool
    var clearingLines: seq<int>
    var moveDir: int
    var moveRepeatTimer: int
    var softDropping: bool
    var lastTime: int

    // Breaker state
    var breakerGrid: FineGrid
    var breakerRows: int
    var breakerCols: int
    var bricksRemaining: int
    /** Balls moving freely (`balls` minus the one stuck to the paddle). */
    var ballsInFlight: nat
    /** `stickyBall !== null`. */
    var stuck: bool
    /** Falling power-up drops, by kind. */
    var falling: seq<PowerUpKind>
    var effects: Effects
    var canvasW: real
    var paddleX: real
    var paddleWidth: real
    var paddleBaseWidth: real
    var breakerStartTime: int
    var breakerTimeRemaining: int
    var nextBreakerScoreThreshold: int
    var flipProgress: real
    var flipDirection: int

    /** The falling-block side: the board once it exists, the preview type, the piece and the level. */
    ghost predicate BoardOk()
      reads this`state, this`grid, this`nextPieceType, this`piece, this`level
    {
      (state != Start ==> WellFormed(grid))
      && nextPieceType < PIECE_KINDS
      && (piece.Some? ==> PieceOk(piece.value))
      && level >= 1
    }

    /** A pending line clear: no piece, and exactly the full rows are listed. */
    ghost predicate ClearOk()
      reads this`animating, this`state, this`piece, this`grid, this`clearingLines
    {
      animating ==> state == Tetris && piece.None? && WellFormed(grid)
                    && clearingLines == FullRows(grid) && clearingLines != []
    }

    /** The breaker board has the recorded shape. */
    ghost predicate Shaped()
      reads this`breakerGrid, this`breakerRows, this`breakerCols
    {
      |breakerGrid| == breakerRows
      && (forall r :: 0 <= r < |breakerGrid| ==> |breakerGrid[r]| == breakerCols)
    }

    /** The breaker board is shaped and `bricksRemaining` counts its bricks. */
    ghost predicate BricksOk()
      reads this`breakerGrid, this`breakerRows, this`breakerCols, this`bricksRemaining
    {
      Shaped() && bricksRemaining == CountBricks(breakerGrid)
    }

    /** While the breaker board is in use it has the fine board's dimensions. */
    ghost predicate FineOk()
      reads this`state, this`breakerRows, this`breakerCols
    {
      (state == FlippingToBreaker || state == Breaker) ==> breakerRows == FINE_ROWS && breakerCols == FINE_COLS
    }

    /** The flip direction matches the flip in progress. */
    ghost predicate FlipOk()
      reads this`state, this`flipDirection
    {
      (state == FlippingToBreaker ==> flipDirection == 1)
      && (state == FlippingToTetris ==> flipDirection == -1)
    }

    /** Outside a breaker round there are no balls or timers; a stuck ball needs the sticky timer. */
    ghost predicate RoundOk()
      reads this`state, this`ballsInFlight, this`stuck, this`effects
    {
      (state != Breaker ==> ballsInFlight == 0 && !stuck && effects == map[])
      && (stuck ==> StickyTimer in effects)
    }

    /** Outside a breaker round no power-up is falling. */
    ghost predicate DropsOk()
      reads this`state, this`falling
    {
      state != Breaker ==> falling == []
    }

    /** The paddle is wide exactly while the wide timer runs. */
    ghost predicate PaddleOk()
      reads this`state, this`paddleWidth, this`paddleBaseWidth, this`canvasW, this`effects
    {
      0.0 <= paddleBaseWidth <= PaddleShare(canvasW)
      && ((state == FlippingToBreaker || state == Breaker) ==>
            paddleWidth == if WideTimer in effects then WideWidth(paddleBaseWidth) else paddleBaseWidth)
    }

    /** The invariants every method keeps. */
    ghost predicate Valid()
      reads this`state, this`grid, this`nextPieceType, this`piece, this`level, this`animating,
            this`clearingLines, this`breakerGrid, this`breakerRows, this`breakerCols, this`bricksRemaining,
            this`flipDirection, this`ballsInFlight, this`stuck, this`effects, this`falling,
            this`paddleWidth, this`paddleBaseWidth, this`canvasW
    {
      BoardOk() && ClearOk() && BricksOk() && FineOk() && FlipOk() && RoundOk() && DropsOk() && PaddleOk()
    }

    /** Valid, with the board in place (from the first reset on). */
    ghost predicate Playing()
      reads this`state, this`grid, this`nextPieceType, this`piece, this`level, this`animating,
            this`clearingLines, this`breakerGrid, this`breakerRows, this`breakerCols, this`bricksRemaining,
            this`flipDirection, this`ballsInFlight, this`stuck, this`effects, this`falling,
            this`paddleWidth, this`paddleBaseWidth, this`canvasW
    {
      Valid() && WellFormed(grid)
    }

    /** The spawn rule applied to board `g` with preview `next0`. */
    ghost predicate AfterSpawn(g: Grid, next0: nat, state0: Mode, rnd: nat)
      reads this`piece, this`nextPieceType, this`state
      requires WellFormed(g) && next0 < PIECE_KINDS
    {
      piece == Some(SpawnedAt(g, next0)) && nextPieceType == rnd
      && state == (if SpawnBlocked(g, next0) then GameOver else state0)
    }

    /**
     * The state after the full-row check on the current board: with full
     * rows a line clear starts (scored at the level in force, the level
     * recomputed from the line total); without, the next piece spawns.
     */
    ghost predicate AfterCheck(score0: int, level0: int, lines0: nat, next0: nat, state0: Mode,
                               clearing0: seq<int>, rnd: nat)
      reads this`grid, this`animating, this`clearingLines, this`piece, this`score, this`totalLines,
            this`level, this`nextPieceType, this`state
      requires WellFormed(grid) && next0 < PIECE_KINDS
    {
      var lines := FullRows(grid);
      if lines != [] then
        animating && clearingLines == lines && piece.None?
        && score == score0 + BaseLineScore(|lines|) * level0
        && totalLines == lines0 + |lines| && level == LevelFor(totalLines)
        && nextPieceType == next0 && state == state0
      else
        !animating && clearingLines == clearing0
        && score == score0 && totalLines == lines0 && level == level0
        && AfterSpawn(grid, next0, state0, rnd)
    }

    /** The state after locking piece `p` into board `g0`: its cells are written, then rows are checked. */
    ghost predicate AfterLock(g0: Grid, p: Piece, score0: int, level0: int, lines0: nat,
                              next0: nat, state0: Mode, clearing0: seq<int>, rnd: nat)
      reads this`grid, this`animating, this`clearingLines, this`piece, this`score, this`totalLines,
            this`level, this`nextPieceType, this`state
      requires WellFormed(g0) && PieceOk(p) && next0 < PIECE_KINDS
    {
      grid == Stamp(g0, p.kind, p.row, p.col, ShapeOf(p))
      && AfterCheck(score0, level0, lines0, next0, state0, clearing0, rnd)
    }

    /** The page's initial values, before the start button. */
    constructor (width: real)
      requires width >= 0.0
      ensures Valid() && state == Start
      ensures score == 0 && level == 1 && totalLines == 0 && round == 1 && grid == [] && piece.None?
      ensures nextBreakerScoreThreshold == BREAKER_SCORE_INTERVAL && canvasW == width
    {
      state := Start;
      score := 0;
      level := 1;
      totalLines := 0;
      round := 1;
      grid := [];
      piece := None;
      nextPieceType := 0;
      dropTimer := 0;
      lockDelay := 0;
      animating := false;
      clearingLines := [];
      moveDir := 0;
      moveRepeatTimer := 0;
      softDropping := false;
      lastTime := 0;
      breakerGrid := [];
      breakerRows := 0;
      breakerCols := 0;
      bricksRemaining := 0;
      ballsInFlight := 0;
      stuck := false;
      falling := [];
      effects := map[];
      canvasW := width;
      paddleX := 0.0;
      paddleWidth := 0.0;
      paddleBaseWidth := 0.0;
      breakerStartTime := 0;
      breakerTimeRemaining := 0;
      nextBreakerScoreThreshold := BREAKER_SCORE_INTERVAL;
      flipProgress := 0.0;
      flipDirection := 0;
    }

    // -------------------------------------------------------------------------
    // Board and piece
    // -------------------------------------------------------------------------

    /** `initGrid`: ROWS empty rows of COLS cells. */
    method InitGrid()
      modifies this`grid
      ensures grid == EmptyGrid()
    {
      grid := [];
      var r := 0;
      while r < ROWS
        invariant 0 <= r <= ROWS
        invariant grid == seq(r, _ => EmptyRow())
      {
        grid := grid + [EmptyRow()];
        r := r + 1;
      }
    }

    /** `resetGame`: a fresh board, score and level, and the first piece. */
    method ResetGame(first: nat, second: nat)
      requires Valid() && (state == Start || state == GameOver)
      requires first < PIECE_KINDS && second < PIECE_KINDS
      modifies this`score, this`level, this`totalLines, this`round, this`grid, this`piece, this`nextPieceType,
               this`state, this`dropTimer, this`lockDelay, this`clearingLines, this`animating, this`ballsInFlight,
               this`falling, this`effects, this`stuck, this`nextBreakerScoreThreshold, this`breakerStartTime,
               this`breakerTimeRemaining
      ensures Playing() && state == Tetris
      ensures score == 0 && level == 1 && totalLines == 0 && round == 1 && grid == EmptyGrid()
      ensures piece == Some(SpawnedAt(EmptyGrid(), first)) && piece.value.row == 0 && nextPieceType == second
      ensures !animating && ballsInFlight == 0 && falling == [] && effects == map[]
      ensures nextBreakerScoreThreshold == BREAKER_SCORE_INTERVAL
    {
      NewBoard(first, second);
      ResetRound();
    }

    /** `resetGame` up to `spawnPiece`: a fresh board and score, and the first piece at the top. */
    method NewBoard(first: nat, second: nat)
      requires Valid() && (state == Start || state == GameOver)
      requires first < PIECE_KINDS && second < PIECE_KINDS
      modifies this`score, this`level, this`totalLines, this`round, this`grid, this`piece, this`nextPieceType,
               this`animating, this`state
      ensures BoardOk() && BricksOk() && PaddleOk() && WellFormed(grid) && !animating && state == old(state)
      ensures score == 0 && level == 1 && totalLines == 0 && round == 1 && grid == EmptyGrid()
      ensures piece == Some(SpawnedAt(EmptyGrid(), first)) && piece.value.row == 0 && nextPieceType == second
    {
      ResetBoard(first);
      SpawnPiece(second);
      SpawnOnEmptyBoard(first);
    }

    /**
     * The first half of `resetGame`: score, level, line total and round
     * start over, the board is emptied and `first` is the preview. (The
     * source clears `animating` later in the same call; nothing reads it
     * in between.)
     */
    method ResetBoard(first: nat)
      requires Valid() && (state == Start || state == GameOver) && first < PIECE_KINDS
      modifies this`score, this`level, this`totalLines, this`round, this`grid, this`piece, this`nextPieceType,
               this`animating
      ensures Playing() && !animating && state == old(state)
      ensures score == 0 && level == 1 && totalLines == 0 && round == 1 && grid == EmptyGrid()
      ensures piece.None? && nextPieceType == first
    {
      ResetScore();
      InitGrid();
      ClearPiece(first);
    }

    /** Score, level, line total and round of a new game. */
    method ResetScore()
      modifies this`score, this`level, this`totalLines, this`round
      ensures score == 0 && level == 1 && totalLines == 0 && round == 1
    {
      score := 0;
      level := 1;
      totalLines := 0;
      round := 1;
    }

    /** No piece and no pending clear; `first` is the preview. */
    method ClearPiece(first: nat)
      modifies this`piece, this`nextPieceType, this`animating
      ensures piece.None? && nextPieceType == first && !animating
    {
      piece := None;
      nextPieceType := first;
      animating := false;
    }

    /**
     * The second half of `resetGame`: timers, the pending clear, balls,
     * drops and power-ups are cleared, and play is in falling-block mode.
     */
    method ResetRound()
      requires BoardOk() && BricksOk() && PaddleOk() && WellFormed(grid) && !animating
      requires state == Start || state == GameOver
      modifies this`dropTimer, this`lockDelay, this`clearingLines, this`ballsInFlight, this`falling, this`effects,
               this`stuck, this`nextBreakerScoreThreshold, this`breakerStartTime, this`breakerTimeRemaining,
               this`state
      ensures Playing() && state == Tetris
      ensures dropTimer == 0 && lockDelay == 0 && clearingLines == []
      ensures ballsInFlight == 0 && falling == [] && effects == map[] && !stuck
      ensures nextBreakerScoreThreshold == BREAKER_SCORE_INTERVAL && breakerStartTime == 0 && breakerTimeRemaining == 0
    {
      ClearBalls();
      ResetClocks();
    }

    /** The timers, the pending clear and the breaker threshold of a new game; play in falling-block mode. */
    method ResetClocks()
      modifies this`dropTimer, this`lockDelay, this`clearingLines, this`nextBreakerScoreThreshold,
               this`breakerStartTime, this`breakerTimeRemaining, this`state
      ensures dropTimer == 0 && lockDelay == 0 && clearingLines == [] && state == Tetris
      ensures nextBreakerScoreThreshold == BREAKER_SCORE_INTERVAL && breakerStartTime == 0 && breakerTimeRemaining == 0
    {
      dropTimer := 0;
      lockDelay := 0;
      clearingLines := [];
      nextBreakerScoreThreshold := BREAKER_SCORE_INTERVAL;
      breakerStartTime := 0;
      breakerTimeRemaining := 0;
      state := Tetris;
    }

    /**
     * The centring step of `spawnPiece`: the column extremes of the shape,
     * from 99 and -1, and the column that centres its width on the board.
     */
    static method SpawnColumn(shape: seq<Offset>) returns (col: int)
      ensures col == SpawnCol(shape)
    {
      var minC, maxC := 99, -1;
      for i := 0 to |shape|
        invariant minC == MinCol(shape[..i]) && maxC == MaxCol(shape[..i])
      {
        assert shape[..i + 1][..i] == shape[..i];
        var c := shape[i].1;
        if c < minC {
          minC := c;
        }
        if c > maxC {
          maxC := c;
        }
      }
      assert shape[..|shape|] == shape;
      var pieceWidth := maxC - minC + 1;
      col := (COLS - pieceWidth) / 2 - minC;
    }

    /**
     * `spawnPiece`: the preview type enters at rotation 0 in the centre
     * column, at row 0 or else row -1; when both are blocked the game ends.
     */
    method SpawnPiece(rnd: nat)
      requires Playing() && !animating && state != Breaker && rnd < PIECE_KINDS
      modifies this`piece, this`nextPieceType, this`state
      ensures Playing()
      ensures AfterSpawn(grid, old(nextPieceType), old(state), rnd)
    {
      var kind := nextPieceType;
      var shape := SHAPES[kind][0];
      var col := SpawnColumn(shape);
      var row := 0;
      if !IsValidPosition(grid, 0, col, shape) {
        row := -1;
      }
      Enter(Piece(kind, 0, row, col), rnd, !IsValidPosition(grid, row, col, shape));
    }

    /** The piece `p` enters with `rnd` as the new preview; when its place is blocked the game is over. */
    method Enter(p: Piece, rnd: nat, blocked: bool)
      modifies this`piece, this`nextPieceType, this`state
      ensures piece == Some(p) && nextPieceType == rnd
      ensures state == if blocked then GameOver else old(state)
    {
      nextPieceType := rnd;
      piece := Some(p);
      if blocked {
        state := GameOver;
      }
    }

    /** `movePiece`: shift by dCol when the target is valid, resetting the lock delay. */
    method MovePiece(dCol: int) returns (moved: bool)
      requires Playing()
      modifies this`piece, this`lockDelay
      ensures Playing()
      ensures moved <==> old(piece).Some? && !animating &&
                         IsValidPosition(grid, old(piece).value.row, old(piece).value.col + dCol, ShapeOf(old(piece).value))
      ensures moved ==> piece == Some(old(piece).value.(col := old(piece).value.col + dCol)) && lockDelay == 0
      ensures !moved ==> piece == old(piece) && lockDelay == old(lockDelay)
    {
      if piece.None? || animating {
        return false;
      }
      var p := piece.value;
      var newCol := p.col + dCol;
      if IsValidPosition(grid, p.row, newCol, ShapeOf(p)) {
        piece := Some(p.(col := newCol));
        lockDelay := 0;
        return true;
      }
      return false;
    }

    /**
     * `rotatePiece`: try the kicks for the current rotation in table order
     * and take the first valid one; with none valid nothing changes.
     */
    method RotatePiece()
      requires Playing()
      modifies this`piece, this`lockDelay
      ensures Playing()
      ensures var turns := old(piece).Some? && !animating && Rotated(grid, old(piece).value).Some?;
              piece == (if turns then Rotated(grid, old(piece).value) else old(piece)) &&
              lockDelay == (if turns then 0 else old(lockDelay))
    {
      if piece.None? || animating {
        return;
      }
      var found := FindKick(grid, piece.value);
      if found.Some? {
        piece := found;
        lockDelay := 0;
      }
    }

    /** The kick loop of `rotatePiece`: the first kick in table order whose candidate is valid. */
    static method FindKick(grid: Grid, p: Piece) returns (found: Option<Piece>)
      requires WellFormed(grid) && PieceOk(p)
      ensures found == Rotated(grid, p)
      ensures found.Some? ==> PieceOk(found.value)
    {
      var kicks := KicksFor(p.kind, p.rotation);
      var i := 0;
      while i < |kicks|
        invariant 0 <= i <= 5
        invariant FirstKick(grid, p, 0) == FirstKick(grid, p, i)
      {
        // the candidate is the next rotation moved by (kicks[i].0, -kicks[i].1)
        var q := KickTarget(p, i);
        if IsValidPosition(grid, q.row, q.col, ShapeOf(q)) {
          return Some(q);
        }
        i := i + 1;
      }
      return None;
    }

    /** `softDrop`: one row down when valid, for one point. */
    method SoftDrop() returns (dropped: bool)
      requires Playing()
      modifies this`piece, this`score, this`dropTimer
      ensures Playing()
      ensures dropped <==> old(piece).Some? && !animating &&
                           IsValidPosition(grid, old(piece).value.row + 1, old(piece).value.col, ShapeOf(old(piece).value))
      ensures dropped ==> piece == Some(old(piece).value.(row := old(piece).value.row + 1))
                          && score == old(score) + 1 && dropTimer == 0
      ensures !dropped ==> piece == old(piece) && score == old(score) && dropTimer == old(dropTimer)
    {
      if piece.None? || animating {
        return false;
      }
      var p := piece.value;
      if IsValidPosition(grid, p.row + 1, p.col, ShapeOf(p)) {
        piece := Some(p.(row := p.row + 1));
        score := score + 1;
        dropTimer := 0;
        return true;
      }
      return false;
    }

    /** `getGhostRow`: the row a hard drop would end on. */
    method GhostRow() returns (row: int)
      requires Playing()
      ensures piece.None? ==> row == 0
      ensures piece.Some? ==> row == LandingRow(grid, piece.value.row, piece.value.col, ShapeOf(piece.value))
    {
      if piece.None? {
        return 0;
      }
      var p := piece.value;
      var shape := ShapeOf(p);
      ShapesOk(p.kind, p.rotation);
      row := p.row;
      while IsValidPosition(grid, row + 1, p.col, shape)
        invariant LandingRow(grid, row, p.col, shape) == LandingRow(grid, p.row, p.col, shape)
        decreases ROWS - row
      {
        ValidAboveFloor(grid, row + 1, p.col, shape);
        row := row + 1;
      }
    }

    /**
     * `hardDrop`: fall to the landing row for two points per row, then lock.
     * The landing row is the one `GhostRow` reports.
     */
    method HardDrop(rnd: nat)
      requires Playing() && state == Tetris && rnd < PIECE_KINDS
      modifies this`grid, this`piece, this`animating, this`clearingLines, this`score,
               this`totalLines, this`level, this`nextPieceType, this`state
      ensures Playing()
      ensures old(piece).None? || old(animating) ==>
                grid == old(grid) && piece == old(piece) && score == old(score) && state == old(state)
      ensures old(piece).Some? && !old(animating) ==>
                var p := old(piece).value;
                var land := LandingRow(old(grid), p.row, p.col, ShapeOf(p));
                AfterLock(old(grid), p.(row := land), old(score) + 2 * (land - p.row), old(level),
                          old(totalLines), old(nextPieceType), old(state), old(clearingLines), rnd)
    {
      if piece.None? || animating {
        return;
      }
      var p := piece.value;
      var shape := ShapeOf(p);
      ShapesOk(p.kind, p.rotation);
      var rows := 0;
      while IsValidPosition(grid, piece.value.row + 1, p.col, shape)
        modifies this`piece
        invariant piece == Some(p.(row := p.row + rows)) && rows >= 0
        invariant LandingRow(grid, p.row + rows, p.col, shape) == LandingRow(grid, p.row, p.col, shape)
        decreases ROWS - piece.value.row
      {
        ValidAboveFloor(grid, piece.value.row + 1, p.col, shape);
        piece := Some(piece.value.(row := piece.value.row + 1));
        rows := rows + 1;
      }
      assert LandingRow(grid, p.row, p.col, shape) == p.row + rows;
      score := score + rows * 2;
      LockPiece(rnd);
    }

    /** The cell-writing loop of `lockPiece`: each in-board cell of the shape becomes a block of `kind`. */
    method WriteCells(kind: nat, row: int, col: int, shape: seq<Offset>)
      requires WellFormed(grid)
      modifies this`grid
      ensures grid == Stamp(old(grid), kind, row, col, shape)
    {
      for i := 0 to |shape|
        invariant WellFormed(grid)
        invariant Stamp(grid, kind, row, col, shape[i..]) == Stamp(old(grid), kind, row, col, shape)
      {
        StampStep(grid, kind, row, col, shape, i);
        var r := row + shape[i].0;
        var c := col + shape[i].1;
        if 0 <= r < ROWS && 0 <= c < COLS {
          grid := grid[r := grid[r][c := Block(kind)]];
        }
      }
      assert shape[|shape|..] == [];
    }

    /** `lockPiece`: write the piece's in-board cells, drop the piece, check for full rows. */
    method LockPiece(rnd: nat)
      requires Playing() && state == Tetris && !animating && rnd < PIECE_KINDS
      modifies this`grid, this`piece, this`animating, this`clearingLines, this`score,
               this`totalLines, this`level, this`nextPieceType, this`state
      ensures Playing()
      ensures old(piece).None? ==> grid == old(grid) && piece == old(piece) && score == old(score) && state == old(state)
                                   && !animating && level == old(level) && totalLines == old(totalLines)
      ensures old(piece).Some? ==>
                AfterLock(old(grid), old(piece).value, old(score), old(level), old(totalLines),
                          old(nextPieceType), old(state), old(clearingLines), rnd)
    {
      if piece.None? {
        return;
      }
      var p := piece.value;
      WriteCells(p.kind, p.row, p.col, ShapeOf(p));
      piece := None;
      CheckLineClears(rnd);
    }

    /**
     * `checkLineClears`: list the full rows; with any, score
     * [0, 100, 300, 500, 800][n] times the level, add n to the line total,
     * recompute the level and start the clear animation (the rows go
     * later, in `FinishLineClear`); with none, spawn the next piece.
     */
    method CheckLineClears(rnd: nat)
      requires Playing() && state == Tetris && !animating && piece.None? && rnd < PIECE_KINDS
      modifies this`animating, this`clearingLines, this`score, this`totalLines, this`level,
               this`piece, this`nextPieceType, this`state
      ensures Playing()
      ensures AfterCheck(old(score), old(level), old(totalLines), old(nextPieceType), old(state),
                         old(clearingLines), rnd)
    {
      var lines: seq<int> := [];
      for r := 0 to ROWS
        invariant lines == FullRowsBelow(grid, r)
      {
        if IsFull(grid[r]) {
          lines := lines + [r];
        }
      }
      if |lines| > 0 {
        StartClear(lines);
      } else {
        SpawnPiece(rnd);
      }
    }

    /** The full-row branch of `checkLineClears`: score the rows at the level in force, then raise the level. */
    method StartClear(lines: seq<int>)
      modifies this`animating, this`clearingLines, this`score, this`totalLines, this`level
      ensures animating && clearingLines == lines
      ensures score == old(score) + BaseLineScore(|lines|) * old(level)
      ensures totalLines == old(totalLines) + |lines| && level == LevelFor(totalLines)
    {
      animating := true;
      clearingLines := lines;
      var gained := BaseLineScore(|lines|) * level;
      score := score + gained;
      totalLines := totalLines + |lines|;
      level := totalLines / LINES_PER_LEVEL + 1;
    }

    /** `hasBlocksOnGrid`. */
    method HasBlocksOnGrid() returns (found: bool)
      requires Playing()
      ensures found <==> HasBlocks(grid)
    {
      for r := 0 to ROWS
        invariant forall rr, cc :: 0 <= rr < r && 0 <= cc < COLS ==> grid[rr][cc] == Empty
      {
        for c := 0 to COLS
          invariant forall rr, cc :: 0 <= rr < r && 0 <= cc < COLS ==> grid[rr][cc] == Empty
          invariant forall cc :: 0 <= cc < c ==> grid[r][cc] == Empty
        {
          if grid[r][c] != Empty {
            return true;
          }
        }
      }
      return false;
    }

    /**
     * The removal of the line clear as the source performs it: the listed
     * rows (increasing, so sorting them in decreasing order reverses them)
     * are taken in decreasing order, and each index is spliced out of the
     * board as it stands at that point, with an empty row unshifted on top.
     * After a clear of two or more rows this is not the intended removal
     * (`TetrisGrid.TwoFullRowsCounterexample`).
     */
    method RemoveClearedRows(lines: seq<int>)
      requires WellFormed(grid) && RowsInRange(lines)
      modifies this`grid
      ensures RowsInRange(Reverse(lines))
      ensures grid == RemoveRowsAsWritten(old(grid), Reverse(lines))
    {
      var desc := Reverse(lines);
      assert RowsInRange(desc) by {
        forall i | 0 <= i < |desc| ensures 0 <= desc[i] < ROWS {
          assert desc[i] == lines[|lines| - 1 - i];
        }
      }
      for i := 0 to |desc|
        invariant RowsInRange(desc[..i])
        invariant grid == RemoveRowsAsWritten(old(grid), desc[..i])
      {
        RemoveRowsAsWrittenSnoc(old(grid), desc[..i], desc[i]);
        assert desc[..i + 1] == desc[..i] + [desc[i]];
        grid := RemoveRowAt(grid, desc[i]);
      }
      assert desc[..|desc|] == desc;
    }

    /**
     * The deferred half of the line clear (the source's `setTimeout`
     * callback): run the source's splice-and-unshift removal of the listed
     * rows (`RemoveClearedRows`), then flip
     * to the breaker when four rows went or the score reached the threshold
     * and the board still has blocks; otherwise spawn the next piece.
     * Whenever the score reached the threshold, the threshold moves to
     * score + 3000.
     */
    method FinishLineClear(rnd: nat, tags: Tags, now: int)
      requires Playing() && animating && rnd < PIECE_KINDS
      modifies this`grid, this`clearingLines, this`animating, this`nextBreakerScoreThreshold,
               this`state, this`flipProgress, this`flipDirection, this`piece, this`breakerGrid,
               this`breakerRows, this`breakerCols, this`bricksRemaining, this`paddleX, this`paddleWidth,
               this`paddleBaseWidth, this`breakerStartTime, this`nextPieceType
      ensures Playing()
      ensures RowsInRange(Reverse(old(clearingLines)))
      ensures grid == RemoveRowsAsWritten(old(grid), Reverse(old(clearingLines)))
      ensures !animating && clearingLines == []
      ensures score < nextBreakerScoreThreshold
      ensures var flip := (|old(clearingLines)| == 4 || score >= old(nextBreakerScoreThreshold)) && HasBlocks(grid);
              if flip then
                nextBreakerScoreThreshold == score + BREAKER_SCORE_INTERVAL
                && state == FlippingToBreaker && piece.None? && breakerGrid == ToFine(grid, tags)
                && bricksRemaining == 4 * CountGrid(grid) && bricksRemaining > 0
                && breakerStartTime == now + FLIP_DURATION
              else
                nextBreakerScoreThreshold ==
                  (if score >= old(nextBreakerScoreThreshold) then score + BREAKER_SCORE_INTERVAL
                   else old(nextBreakerScoreThreshold))
                && AfterSpawn(grid, old(nextPieceType), old(state), rnd)
    {
      var lines := clearingLines;
      EndClear();
      FlipOrSpawn(|lines| == 4, rnd, tags, now);
    }

    /** The start of the line-clear callback: the listed rows go and the clear animation ends. */
    method EndClear()
      requires Playing() && animating
      modifies this`grid, this`clearingLines, this`animating
      ensures Playing() && !animating && clearingLines == []
      ensures RowsInRange(Reverse(old(clearingLines)))
      ensures grid == RemoveRowsAsWritten(old(grid), Reverse(old(clearingLines)))
    {
      RemoveClearedRows(clearingLines);
      clearingLines := [];
      animating := false;
    }

    /**
     * The end of the line-clear callback: after a four-row clear, or once
     * the score has reached the threshold, the game flips to breaker mode
     * if any block is left and the threshold moves 3000 points past the
     * score; otherwise the threshold moves only if it was reached, and the
     * next piece spawns.
     */
    method FlipOrSpawn(tetris: bool, rnd: nat, tags: Tags, now: int)
      requires Playing() && !animating && state == Tetris && rnd < PIECE_KINDS
      modifies this`nextBreakerScoreThreshold, this`state, this`flipProgress, this`flipDirection, this`piece,
               this`breakerGrid, this`breakerRows, this`breakerCols, this`bricksRemaining, this`paddleX,
               this`paddleWidth, this`paddleBaseWidth, this`breakerStartTime, this`nextPieceType
      ensures Playing() && score < nextBreakerScoreThreshold
      ensures var flip := (tetris || score >= old(nextBreakerScoreThreshold)) && HasBlocks(grid);
              if flip then
                nextBreakerScoreThreshold == score + BREAKER_SCORE_INTERVAL
                && state == FlippingToBreaker && piece.None? && breakerGrid == ToFine(grid, tags)
                && bricksRemaining == 4 * CountGrid(grid) && bricksRemaining > 0
                && breakerStartTime == now + FLIP_DURATION
              else
                nextBreakerScoreThreshold ==
                  (if score >= old(nextBreakerScoreThreshold) then score + BREAKER_SCORE_INTERVAL
                   else old(nextBreakerScoreThreshold))
                && AfterSpawn(grid, old(nextPieceType), Tetris, rnd)
    {
      var shouldFlip := tetris || score >= nextBreakerScoreThreshold;
      var blocks := HasBlocksOnGrid();
      if shouldFlip && blocks {
        FlipNow(tags, now);
      } else {
        KeepFalling(rnd);
      }
    }

    /** The flip branch of the line-clear callback: the threshold moves past the score and the flip starts. */
    method FlipNow(tags: Tags, now: int)
      requires Playing() && !animating && state == Tetris && HasBlocks(grid)
      modifies this`nextBreakerScoreThreshold, this`state, this`flipProgress, this`flipDirection, this`piece,
               this`breakerGrid, this`breakerRows, this`breakerCols, this`bricksRemaining, this`paddleX,
               this`paddleWidth, this`paddleBaseWidth, this`breakerStartTime
      ensures Playing() && nextBreakerScoreThreshold == score + BREAKER_SCORE_INTERVAL
      ensures state == FlippingToBreaker && piece.None? && breakerGrid == ToFine(grid, tags)
      ensures bricksRemaining == 4 * CountGrid(grid) && bricksRemaining > 0
      ensures breakerStartTime == now + FLIP_DURATION
    {
      HasBlocksIffBricks(grid, tags);
      RaiseThreshold();
      StartFlipToBreaker(tags, now);
    }

    /** The next flip is due 3000 points past the current score. */
    method RaiseThreshold()
      modifies this`nextBreakerScoreThreshold
      ensures nextBreakerScoreThreshold == score + BREAKER_SCORE_INTERVAL
    {
      nextBreakerScoreThreshold := score + BREAKER_SCORE_INTERVAL;
    }

    /** The other branch: the threshold moves only if the score reached it, and the next piece spawns. */
    method KeepFalling(rnd: nat)
      requires Playing() && !animating && state == Tetris && rnd < PIECE_KINDS
      modifies this`nextBreakerScoreThreshold, this`piece, this`nextPieceType, this`state
      ensures Playing() && score < nextBreakerScoreThreshold
      ensures nextBreakerScoreThreshold ==
                (if score >= old(nextBreakerScoreThreshold) then score + BREAKER_SCORE_INTERVAL
                 else old(nextBreakerScoreThreshold))
      ensures AfterSpawn(grid, old(nextPieceType), Tetris, rnd)
    {
      if score >= nextBreakerScoreThreshold {
        RaiseThreshold();
      }
      SpawnPiece(rnd);
    }

    /**
     * The falling-block tick's gravity and lock delay: once the drop timer
     * reaches the interval (50 ms while soft-dropping), either fall one row
     * (a point when soft-dropping, lock delay reset) or, when blocked, add
     * the INTERVAL, not the elapsed time, to the lock delay and lock once it
     * reaches 500 ms.
     */
    method GravityTick(dt: int, rnd: nat)
      requires Playing() && state == Tetris && !animating && piece.Some? && rnd < PIECE_KINDS
      modifies this`dropTimer, this`lockDelay, this`grid, this`piece, this`animating, this`clearingLines,
               this`score, this`totalLines, this`level, this`nextPieceType, this`state
      ensures Playing()
      ensures var interval := if softDropping then SOFT_DROP_REPEAT else DropInterval(old(level));
              var p := old(piece).value;
              if old(dropTimer) + dt < interval then
                dropTimer == old(dropTimer) + dt && piece == old(piece) && lockDelay == old(lockDelay)
                && grid == old(grid) && score == old(score) && state == old(state)
              else if IsValidPosition(old(grid), p.row + 1, p.col, ShapeOf(p)) then
                dropTimer == 0 && piece == Some(p.(row := p.row + 1)) && lockDelay == 0 && grid == old(grid)
                && score == old(score) + (if softDropping then 1 else 0) && state == old(state)
              else
                dropTimer == 0 && lockDelay == old(lockDelay) + interval &&
                if lockDelay < LOCK_DELAY_MAX then
                  piece == old(piece) && grid == old(grid) && score == old(score) && state == old(state)
                else
                  AfterLock(old(grid), p, old(score), old(level), old(totalLines), old(nextPieceType),
                            old(state), old(clearingLines), rnd)
    {
      dropTimer := dropTimer + dt;
      var interval := if softDropping then SOFT_DROP_REPEAT else DropInterval(level);
      if dropTimer >= interval {
        GravityStep(interval, rnd);
      }
    }

    /** The drop timer reached the interval: it restarts, and the piece falls a row or the lock delay grows. */
    method GravityStep(interval: int, rnd: nat)
      requires Playing() && state == Tetris && !animating && piece.Some? && rnd < PIECE_KINDS
      modifies this`dropTimer, this`lockDelay, this`grid, this`piece, this`animating, this`clearingLines,
               this`score, this`totalLines, this`level, this`nextPieceType, this`state
      ensures Playing() && dropTimer == 0
      ensures var p := old(piece).value;
              if IsValidPosition(old(grid), p.row + 1, p.col, ShapeOf(p)) then
                piece == Some(p.(row := p.row + 1)) && lockDelay == 0 && grid == old(grid)
                && score == old(score) + (if softDropping then 1 else 0) && state == old(state)
              else
                lockDelay == old(lockDelay) + interval &&
                if lockDelay < LOCK_DELAY_MAX then
                  piece == old(piece) && grid == old(grid) && score == old(score) && state == old(state)
                else
                  AfterLock(old(grid), p, old(score), old(level), old(totalLines), old(nextPieceType),
                            old(state), old(clearingLines), rnd)
    {
      dropTimer := 0;
      var p := piece.value;
      if !IsValidPosition(grid, p.row + 1, p.col, ShapeOf(p)) {
        LockDelayStep(interval, rnd);
      } else {
        FallOneRow();
      }
    }

    /** The blocked branch of the gravity tick: the interval goes to the lock delay, and at 500 ms the piece locks. */
    method LockDelayStep(interval: int, rnd: nat)
      requires Playing() && state == Tetris && !animating && piece.Some? && rnd < PIECE_KINDS
      modifies this`lockDelay, this`grid, this`piece, this`animating, this`clearingLines,
               this`score, this`totalLines, this`level, this`nextPieceType, this`state
      ensures Playing()
      ensures lockDelay == old(lockDelay) + interval
      ensures lockDelay < LOCK_DELAY_MAX ==>
                piece == old(piece) && grid == old(grid) && score == old(score) && state == old(state)
      ensures lockDelay >= LOCK_DELAY_MAX ==>
                AfterLock(old(grid), old(piece).value, old(score), old(level), old(totalLines),
                          old(nextPieceType), old(state), old(clearingLines), rnd)
    {
      lockDelay := lockDelay + interval;
      if lockDelay >= LOCK_DELAY_MAX {
        LockPiece(rnd);
      }
    }

    /** The free branch of the gravity tick: one row down, a point when soft-dropping, the lock delay reset. */
    method FallOneRow()
      requires Playing() && piece.Some?
      requires IsValidPosition(grid, piece.value.row + 1, piece.value.col, ShapeOf(piece.value))
      modifies this`piece, this`score, this`lockDelay
      ensures Playing()
      ensures piece == Some(old(piece).value.(row := old(piece).value.row + 1)) && lockDelay == 0
      ensures score == old(score) + (if softDropping then 1 else 0)
    {
      piece := Some(piece.value.(row := piece.value.row + 1));
      if softDropping {
        score := score + 1;
      }
      lockDelay := 0;
    }

    /** `updateTetris`: nothing while the clear animation runs or without a piece; else gravity, then held-key repeat. */
    method UpdateTetris(dt: int, rnd: nat)
      requires Playing() && state == Tetris && rnd < PIECE_KINDS
      modifies this`dropTimer, this`lockDelay, this`moveRepeatTimer, this`grid, this`piece, this`animating,
               this`clearingLines, this`score, this`totalLines, this`level, this`nextPieceType, this`state
      ensures Playing()
      ensures old(animating) || old(piece).None? ==>
                dropTimer == old(dropTimer) && lockDelay == old(lockDelay) && moveRepeatTimer == old(moveRepeatTimer)
                && grid == old(grid) && piece == old(piece) && score == old(score) && state == old(state)
      ensures state == old(state) || state == GameOver
    {
      if animating {
        return;
      }
      if piece.None? {
        return;
      }
      GravityTick(dt, rnd);
      RepeatMove(dt);
    }

    /** The held-key part of `updateTetris`: after MOVE_REPEAT_DELAY of holding, one more sideways move. */
    method RepeatMove(dt: int)
      requires Playing()
      modifies this`moveRepeatTimer, this`piece, this`lockDelay
      ensures Playing()
      ensures moveDir == 0 ==> moveRepeatTimer == old(moveRepeatTimer) && piece == old(piece)
      ensures moveDir != 0 && old(moveRepeatTimer) + dt < MOVE_REPEAT_DELAY ==>
                moveRepeatTimer == old(moveRepeatTimer) + dt && piece == old(piece)
      ensures moveDir != 0 && old(moveRepeatTimer) + dt >= MOVE_REPEAT_DELAY ==> moveRepeatTimer == 0
      ensures moveDir != 0 && old(moveRepeatTimer) + dt >= MOVE_REPEAT_DELAY ==>
                if old(piece).Some? && !animating &&
                   IsValidPosition(grid, old(piece).value.row, old(piece).value.col + moveDir, ShapeOf(old(piece).value))
                then piece == Some(old(piece).value.(col := old(piece).value.col + moveDir)) && lockDelay == 0
                else piece == old(piece) && lockDelay == old(lockDelay)
      ensures moveDir == 0 || old(moveRepeatTimer) + dt < MOVE_REPEAT_DELAY ==> lockDelay == old(lockDelay)
      ensures piece.Some? <==> old(piece).Some?
    {
      if moveDir != 0 {
        moveRepeatTimer := moveRepeatTimer + dt;
        if moveRepeatTimer >= MOVE_REPEAT_DELAY {
          moveRepeatTimer := 0;
          var _ := MovePiece(moveDir);
        }
      }
    }

    /** Soft-drop key down: soft-drop mode, and the drop timer primed so the next tick drops. */
    method StartSoftDrop()
      requires Playing()
      modifies this`softDropping, this`dropTimer
      ensures Playing()
      ensures softDropping && dropTimer == DropInterval(level) && dropTimer >= SOFT_DROP_REPEAT
    {
      softDropping := true;
      dropTimer := DropInterval(level);
    }

    // -------------------------------------------------------------------------
    // Grid transcoding and the mode switch
    // -------------------------------------------------------------------------

    /** Fill the 2 x 2 fine block of coarse cell (r, c) with bricks of `kind`, each with its own power-up roll. */
    method FillBlock(r: int, c: int, kind: nat, tags: Tags)
      requires 0 <= r < ROWS && 0 <= c < COLS && FineWellFormed(breakerGrid)
      modifies this`breakerGrid, this`bricksRemaining
      ensures FineWellFormed(breakerGrid)
      ensures bricksRemaining == old(bricksRemaining) + 4
      ensures forall br, bc :: 0 <= br < FINE_ROWS && 0 <= bc < FINE_COLS ==>
                breakerGrid[br][bc] == if br / 2 == r && bc / 2 == c then Brick(kind, TagAt(tags, br, bc))
                                       else old(breakerGrid)[br][bc]
    {
      for dr := 0 to 2
        invariant FineWellFormed(breakerGrid)
        invariant bricksRemaining == old(bricksRemaining) + 2 * dr
        invariant forall br, bc :: 0 <= br < FINE_ROWS && 0 <= bc < FINE_COLS ==>
                    breakerGrid[br][bc] == if br / 2 == r && bc / 2 == c && br < r * 2 + dr then Brick(kind, TagAt(tags, br, bc))
                                           else old(breakerGrid)[br][bc]
      {
        for dc := 0 to 2
          invariant FineWellFormed(breakerGrid)
          invariant bricksRemaining == old(bricksRemaining) + 2 * dr + dc
          invariant forall br, bc :: 0 <= br < FINE_ROWS && 0 <= bc < FINE_COLS ==>
                      breakerGrid[br][bc] == if br / 2 == r && bc / 2 == c && (br < r * 2 + dr || (br == r * 2 + dr && bc < c * 2 + dc))
                                             then Brick(kind, TagAt(tags, br, bc))
                                             else old(breakerGrid)[br][bc]
        {
          var br := r * 2 + dr;
          var bc := c * 2 + dc;
          var powerup := TagAt(tags, br, bc);
          breakerGrid := breakerGrid[br := breakerGrid[br][bc := Brick(kind, powerup)]];
          bricksRemaining := bricksRemaining + 1;
        }
      }
    }

    /** `convertToBreakerGrid` with the paddle reset of the breaker layout. */
    method ConvertToBreakerGrid(tags: Tags)
      requires WellFormed(grid) && canvasW >= 0.0 && WideTimer !in effects
      modifies this`breakerGrid, this`breakerRows, this`breakerCols, this`bricksRemaining,
               this`paddleX, this`paddleWidth, this`paddleBaseWidth
      ensures breakerGrid == ToFine(grid, tags) && breakerRows == FINE_ROWS && breakerCols == FINE_COLS
      ensures bricksRemaining == 4 * CountGrid(grid) && BricksOk() && PaddleOk()
      ensures paddleBaseWidth == PaddleShare(canvasW).Floor as real
      ensures paddleWidth == paddleBaseWidth && paddleX == canvasW / 2.0
      ensures 0.0 <= paddleBaseWidth <= PaddleShare(canvasW)
    {
      EmptyBreakerGrid();
      assert grid[..0] == [];
      for r := 0 to ROWS
        invariant breakerRows == FINE_ROWS && breakerCols == FINE_COLS
        invariant FilledUpTo(r, tags)
      {
        FillBreakerRow(r, tags);
      }
      assert grid[..ROWS] == grid;
      forall br | 0 <= br < FINE_ROWS
        ensures breakerGrid[br] == ToFine(grid, tags)[br]
      {
      }
      ToFineCount(grid, tags);
      CalcBreakerLayout();
    }

    /** The fine board holds the bricks of coarse rows 0 .. r - 1 and is vacant below; the count matches. */
    ghost predicate FilledUpTo(r: nat, tags: Tags)
      reads this`grid, this`breakerGrid, this`bricksRemaining
    {
      WellFormed(grid) && r <= ROWS && FineWellFormed(breakerGrid)
      && bricksRemaining == 4 * CountGrid(grid[..r])
      && forall br, bc :: 0 <= br < FINE_ROWS && 0 <= bc < FINE_COLS ==>
           breakerGrid[br][bc] == if br / 2 < r then ToFine(grid, tags)[br][bc] else Vacant
    }

    /** The first loop of `convertToBreakerGrid`: FINE_ROWS vacant rows of FINE_COLS cells, no bricks counted. */
    method EmptyBreakerGrid()
      modifies this`breakerGrid, this`breakerRows, this`breakerCols, this`bricksRemaining
      ensures breakerRows == FINE_ROWS && breakerCols == FINE_COLS && bricksRemaining == 0
      ensures FineWellFormed(breakerGrid)
      ensures forall br, bc :: 0 <= br < FINE_ROWS && 0 <= bc < FINE_COLS ==> breakerGrid[br][bc] == Vacant
    {
      breakerCols := FINE_COLS;
      breakerRows := FINE_ROWS;
      breakerGrid := [];
      bricksRemaining := 0;
      for r := 0 to breakerRows
        modifies this`breakerGrid
        invariant |breakerGrid| == r
        invariant forall i :: 0 <= i < r ==> breakerGrid[i] == seq(FINE_COLS, _ => Vacant)
      {
        breakerGrid := breakerGrid + [seq(breakerCols, _ => Vacant)];
      }
    }

    /** One pass of the row loop of `convertToBreakerGrid`: every block of coarse row r fills its 2 x 2 bricks. */
    method FillBreakerRow(r: nat, tags: Tags)
      requires r < ROWS && FilledUpTo(r, tags)
      modifies this`breakerGrid, this`bricksRemaining
      ensures FilledUpTo(r + 1, tags)
    {
      for c := 0 to COLS
        invariant FineWellFormed(breakerGrid)
        invariant bricksRemaining == 4 * (CountGrid(grid[..r]) + CountRow(grid[r][..c]))
        invariant forall br, bc :: 0 <= br < FINE_ROWS && 0 <= bc < FINE_COLS ==>
                    breakerGrid[br][bc] == if br / 2 < r || (br / 2 == r && bc / 2 < c) then ToFine(grid, tags)[br][bc] else Vacant
      {
        CountRowStep(grid[r], c);
        if grid[r][c] != Empty {
          FillBlock(r, c, grid[r][c].kind, tags);
        }
      }
      CountGridStep(grid, r);
      assert grid[r][..COLS] == grid[r];
    }

    /** The paddle part of `calcBreakerLayout`: the floored share of the canvas width, centred. */
    method CalcBreakerLayout()
      requires canvasW >= 0.0
      modifies this`paddleX, this`paddleWidth, this`paddleBaseWidth
      ensures paddleBaseWidth == PaddleShare(canvasW).Floor as real
      ensures paddleWidth == paddleBaseWidth && paddleX == canvasW / 2.0
      ensures 0.0 <= paddleBaseWidth <= PaddleShare(canvasW)
    {
      paddleBaseWidth := PaddleShare(canvasW).Floor as real;
      paddleWidth := paddleBaseWidth;
      paddleX := canvasW / 2.0;
    }

    /** `startFlipToBreaker`: begin the flip, build the breaker board, start the round clock after the flip. */
    method StartFlipToBreaker(tags: Tags, now: int)
      requires Playing() && state == Tetris && !animating
      modifies this`state, this`flipProgress, this`flipDirection, this`piece, this`breakerGrid,
               this`breakerRows, this`breakerCols, this`bricksRemaining, this`paddleX, this`paddleWidth,
               this`paddleBaseWidth, this`breakerStartTime
      ensures Playing()
      ensures state == FlippingToBreaker && flipProgress == 0.0 && flipDirection == 1 && piece.None?
      ensures breakerGrid == ToFine(grid, tags) && bricksRemaining == 4 * CountGrid(grid)
      ensures breakerStartTime == now + FLIP_DURATION
    {
      BeginFlipToBreaker();
      ConvertToBreakerGrid(tags);
      breakerStartTime := now + FLIP_DURATION;
    }

    /** The opening lines of `startFlipToBreaker`: the flip starts and the piece is dropped. */
    method BeginFlipToBreaker()
      requires Playing() && state == Tetris && !animating
      modifies this`state, this`flipProgress, this`flipDirection, this`piece
      ensures state == FlippingToBreaker && flipProgress == 0.0 && flipDirection == 1 && piece.None?
      ensures BoardOk() && ClearOk() && FlipOk() && RoundOk() && DropsOk() && WellFormed(grid)
      ensures effects == map[] && canvasW >= 0.0
    {
      state := FlippingToBreaker;
      flipProgress := 0.0;
      flipDirection := 1;
      piece := None;
    }

    /** The last surviving brick of coarse cell (r, c)'s 2 x 2 block, behind the source's bounds guard. */
    method SampleBlock(r: int, c: int) returns (found: Brick)
      requires BricksOk() && 0 <= r < ROWS && 0 <= c < COLS
      ensures found == LastSurvivor(breakerGrid, r, c)
    {
      found := Vacant;
      for dr := 0 to 2
        invariant found == SurvivorUpTo(breakerGrid, r, c, 2 * dr)
      {
        for dc := 0 to 2
          invariant found == SurvivorUpTo(breakerGrid, r, c, 2 * dr + dc)
        {
          var br := r * 2 + dr;
          var bc := c * 2 + dc;
          if br < breakerRows && bc < breakerCols && breakerGrid[br][bc].Brick? {
            found := breakerGrid[br][bc];
          }
        }
      }
    }

    /**
     * Compact column c downwards: collect its blocks from the bottom up,
     * clear the column, and put them back from the floor upwards.
     */
    method SettleColumn(c: int)
      requires WellFormed(grid) && 0 <= c < COLS
      modifies this`grid
      ensures WellFormed(grid)
      ensures Column(grid, c) == Settle(Column(old(grid), c))
      ensures forall r, cc :: 0 <= r < ROWS && 0 <= cc < COLS && cc != c ==> grid[r][cc] == old(grid)[r][cc]
    {
      ghost var col := Column(grid, c);
      var cells := CollectColumn(c);
      ClearColumn(c);
      PlaceColumn(c, cells);
      forall p | 0 <= p < ROWS
        ensures Column(grid, c)[p] == Settle(col)[p]
      {
        PlaceBottomUp(col, p);
      }
    }

    /** The gravity pass's first loop: the blocks of column c, read from the bottom up. */
    method CollectColumn(c: int) returns (cells: seq<Cell>)
      requires WellFormed(grid) && 0 <= c < COLS
      ensures cells == Reverse(Blocks(Column(grid, c)))
      ensures |cells| <= ROWS
    {
      ghost var col := Column(grid, c);
      cells := [];
      var r := ROWS - 1;
      while r >= 0
        invariant -1 <= r < ROWS
        invariant cells == Reverse(Blocks(col[r + 1..]))
      {
        CollectStep(col, r);
        if grid[r][c] != Empty {
          cells := cells + [grid[r][c]];
        }
        r := r - 1;
      }
      assert col[0..] == col;
    }

    /** The gravity pass's second loop: every cell of column c becomes empty. */
    method ClearColumn(c: int)
      requires WellFormed(grid) && 0 <= c < COLS
      modifies this`grid
      ensures WellFormed(grid)
      ensures forall r :: 0 <= r < ROWS ==> grid[r][c] == Empty
      ensures forall r, cc :: 0 <= r < ROWS && 0 <= cc < COLS && cc != c ==> grid[r][cc] == old(grid)[r][cc]
    {
      for i := 0 to ROWS
        invariant WellFormed(grid)
        invariant forall r :: 0 <= r < i ==> grid[r][c] == Empty
        invariant forall r, cc :: 0 <= r < ROWS && 0 <= cc < COLS && cc != c ==> grid[r][cc] == old(grid)[r][cc]
      {
        grid := grid[i := grid[i][c := Empty]];
      }
    }

    /** The gravity pass's third loop: `cells[i]` goes to row ROWS - 1 - i of the emptied column c. */
    method PlaceColumn(c: int, cells: seq<Cell>)
      requires WellFormed(grid) && 0 <= c < COLS && |cells| <= ROWS
      requires forall r :: 0 <= r < ROWS ==> grid[r][c] == Empty
      modifies this`grid
      ensures WellFormed(grid)
      ensures forall r :: 0 <= r < ROWS ==> grid[r][c] == if r >= ROWS - |cells| then cells[ROWS - 1 - r] else Empty
      ensures forall r, cc :: 0 <= r < ROWS && 0 <= cc < COLS && cc != c ==> grid[r][cc] == old(grid)[r][cc]
    {
      for i := 0 to |cells|
        invariant WellFormed(grid)
        invariant forall r :: 0 <= r < ROWS ==> grid[r][c] == if r >= ROWS - i then cells[ROWS - 1 - r] else Empty
        invariant forall r, cc :: 0 <= r < ROWS && 0 <= cc < COLS && cc != c ==> grid[r][cc] == old(grid)[r][cc]
      {
        grid := grid[ROWS - 1 - i := grid[ROWS - 1 - i][c := cells[i]]];
      }
    }

    /**
     * `convertBreakerBackToTetris`: each coarse cell takes the last
     * surviving brick of its 2 x 2 block, then every column falls to the
     * floor keeping its order.
     */
    method ConvertBreakerBackToTetris()
      requires BricksOk()
      modifies this`grid
      ensures WellFormed(grid)
      ensures grid == Gravity(ToCoarse(breakerGrid))
    {
      InitGrid();
      ghost var coarse := ToCoarse(breakerGrid);
      for r := 0 to ROWS
        invariant WellFormed(grid)
        invariant forall rr, cc :: 0 <= rr < ROWS && 0 <= cc < COLS ==>
                    grid[rr][cc] == if rr < r then coarse[rr][cc] else Empty
      {
        for c := 0 to COLS
          invariant WellFormed(grid)
          invariant forall rr, cc :: 0 <= rr < ROWS && 0 <= cc < COLS ==>
                      grid[rr][cc] == if rr < r || (rr == r && cc < c) then coarse[rr][cc] else Empty
        {
          var found := SampleBlock(r, c);
          if found.Brick? {
            grid := grid[r := grid[r][c := Block(found.kind)]];
          }
        }
      }
      forall rr | 0 <= rr < ROWS
        ensures grid[rr] == coarse[rr]
      {
      }
      assert grid == coarse;
      for c := 0 to COLS
        invariant WellFormed(grid)
        invariant forall cc :: 0 <= cc < c ==> Column(grid, cc) == Settle(Column(coarse, cc))
        invariant forall cc :: c <= cc < COLS ==> Column(grid, cc) == Column(coarse, cc)
      {
        ghost var before := grid;
        SettleColumn(c);
        forall cc | 0 <= cc < COLS && cc != c
          ensures Column(grid, cc) == Column(before, cc)
        {
        }
      }
      forall rr | 0 <= rr < ROWS
        ensures grid[rr] == Gravity(coarse)[rr]
      {
        forall cc | 0 <= cc < COLS
          ensures grid[rr][cc] == Gravity(coarse)[rr][cc]
        {
          assert grid[rr][cc] == Column(grid, cc)[rr];
        }
      }
    }

    /** `startFlipToTetris`: begin the flip back, clear balls, drops and timers, and rebuild the board. */
    method StartFlipToTetris()
      requires Playing() && state == Breaker
      modifies this`state, this`flipProgress, this`flipDirection, this`ballsInFlight, this`falling,
               this`effects, this`stuck, this`grid
      ensures Playing()
      ensures state == FlippingToTetris && flipProgress == 0.0 && flipDirection == -1
      ensures ballsInFlight == 0 && falling == [] && effects == map[] && !stuck
      ensures grid == Gravity(ToCoarse(breakerGrid))
    {
      BeginFlipToTetris();
      ConvertBreakerBackToTetris();
    }

    /** The opening lines of `startFlipToTetris`: the flip back starts and the balls, drops and timers go. */
    method BeginFlipToTetris()
      requires Playing() && state == Breaker
      modifies this`state, this`flipProgress, this`flipDirection, this`ballsInFlight, this`falling,
               this`effects, this`stuck
      ensures state == FlippingToTetris && flipProgress == 0.0 && flipDirection == -1
      ensures ballsInFlight == 0 && falling == [] && effects == map[] && !stuck
      ensures BoardOk() && ClearOk() && BricksOk() && FineOk() && FlipOk() && RoundOk() && DropsOk() && PaddleOk()
    {
      state := FlippingToTetris;
      flipProgress := 0.0;
      flipDirection := -1;
      ClearBalls();
    }

    /** Shared by `resetGame` and `startFlipToTetris`: no balls, drops, timers or stuck ball. */
    method ClearBalls()
      modifies this`ballsInFlight, this`falling, this`effects, this`stuck
      ensures ballsInFlight == 0 && falling == [] && effects == map[] && !stuck
      ensures RoundOk() && DropsOk()
    {
      ballsInFlight := 0;
      falling := [];
      effects := map[];
      stuck := false;
    }

    /**
     * `updateFlip`: advance the flip; on completion enter the breaker with
     * one ball, or return to the falling blocks with the round and the level
     * raised and a fresh piece. Completion leaves the flipping states, so it
     * happens once per flip.
     */
    method UpdateFlip(dt: int, first: nat, second: nat)
      requires Playing() && (state == FlippingToBreaker || state == FlippingToTetris)
      requires first < PIECE_KINDS && second < PIECE_KINDS
      modifies this`flipProgress, this`state, this`round, this`level, this`nextPieceType, this`piece,
               this`ballsInFlight
      ensures Playing()
      ensures var progress := old(flipProgress) + (dt as real) / (FLIP_DURATION as real);
              if progress < 1.0 then
                flipProgress == progress && state == old(state) && round == old(round) && level == old(level)
                && piece == old(piece) && ballsInFlight == old(ballsInFlight)
              else
                flipProgress == 1.0 && state != FlippingToBreaker && state != FlippingToTetris
                && (old(state) == FlippingToBreaker ==>
                      state == Breaker && ballsInFlight == old(ballsInFlight) + 1 && round == old(round))
                && (old(state) == FlippingToTetris ==>
                      round == old(round) + 1 && level == old(level) + 1 && ballsInFlight == 0
                      && AfterSpawn(grid, first, Tetris, second))
    {
      flipProgress := flipProgress + (dt as real) / (FLIP_DURATION as real);
      if flipProgress >= 1.0 {
        flipProgress := 1.0;
        if flipDirection == 1 {
          EnterBreaker();
        } else {
          ReturnToTetris(first, second);
        }
      }
    }

    /** The completed flip to the breaker: the round starts with one ball in flight. */
    method EnterBreaker()
      requires Playing() && state == FlippingToBreaker
      modifies this`state, this`ballsInFlight
      ensures Playing() && state == Breaker && ballsInFlight == old(ballsInFlight) + 1
    {
      state := Breaker;
      LaunchBall();
    }

    /** The completed flip back: the next round, one level up, and a fresh piece of type `first`. */
    method ReturnToTetris(first: nat, second: nat)
      requires Playing() && state == FlippingToTetris && first < PIECE_KINDS && second < PIECE_KINDS
      modifies this`state, this`round, this`level, this`nextPieceType, this`piece
      ensures Playing() && state != FlippingToBreaker && state != FlippingToTetris
      ensures round == old(round) + 1 && level == old(level) + 1
      ensures AfterSpawn(grid, first, Tetris, second)
    {
      NextRound(first);
      SpawnPiece(second);
    }

    /** Back in falling-block mode: round and level one up, `first` the preview. */
    method NextRound(first: nat)
      requires Playing() && state == FlippingToTetris && first < PIECE_KINDS
      modifies this`state, this`round, this`level, this`nextPieceType
      ensures Playing() && state == Tetris && !animating && piece == old(piece)
      ensures round == old(round) + 1 && level == old(level) + 1 && nextPieceType == first
    {
      state := Tetris;
      round := round + 1;
      level := level + 1;
      nextPieceType := first;
    }

    // -------------------------------------------------------------------------
    // Breaker round
    // -------------------------------------------------------------------------

    /** `launchBall`: one more ball leaves the paddle. */
    method LaunchBall()
      requires Playing() && state == Breaker
      modifies this`ballsInFlight
      ensures Playing()
      ensures ballsInFlight == old(ballsInFlight) + 1
    {
      ballsInFlight := ballsInFlight + 1;
    }

    /** `releaseStickyBall`: a ball stuck to the paddle flies again. */
    method ReleaseStickyBall()
      requires Playing()
      modifies this`stuck, this`ballsInFlight
      ensures Playing()
      ensures !stuck
      ensures ballsInFlight == old(ballsInFlight) + (if old(stuck) then 1 else 0)
    {
      if !stuck {
        return;
      }
      stuck := false;
      ballsInFlight := ballsInFlight + 1;
    }

    /** `destroyBrick`: vacate a brick for ten points, dropping its power-up if it has one. */
    method DestroyBrick(r: int, c: int)
      requires state == Breaker && Shaped() && 0 <= r < |breakerGrid| && 0 <= c < |breakerGrid[r]|
      modifies this`breakerGrid, this`falling, this`bricksRemaining, this`score
      ensures Shaped()
      ensures bricksRemaining - CountBricks(breakerGrid) == old(bricksRemaining) - CountBricks(old(breakerGrid))
      ensures old(breakerGrid)[r][c] == Vacant ==>
                breakerGrid == old(breakerGrid) && falling == old(falling)
                && bricksRemaining == old(bricksRemaining) && score == old(score)
      ensures old(breakerGrid)[r][c].Brick? ==>
                breakerGrid == old(breakerGrid)[r := old(breakerGrid)[r][c := Vacant]]
                && falling == old(falling) + Drops([old(breakerGrid)[r][c]])
                && bricksRemaining == old(bricksRemaining) - 1 && score == old(score) + BRICK_SCORE
    {
      var brick := breakerGrid[r][c];
      if brick == Vacant {
        return;
      }
      if brick.powerup.Some? {
        falling := falling + [brick.powerup.value];
      }
      CountBricksVacate(breakerGrid, r, c);
      breakerGrid := breakerGrid[r := breakerGrid[r][c := Vacant]];
      bricksRemaining := bricksRemaining - 1;
      score := score + BRICK_SCORE;
    }

    /**
     * `checkBrickCollision`: scan the 3 x 3 cells around the ball's cell,
     * rows outer and columns inner, skipping cells outside the board or
     * empty; destroy each touched brick, and without fire stop after the
     * first.
     */
    method CheckBrickCollision(row: int, col: int, touching: set<(int, int)>, isFire: bool)
      requires state == Breaker && BricksOk()
      modifies this`breakerGrid, this`falling, this`bricksRemaining, this`score
      ensures BricksOk()
      ensures var res := ScanUpTo(old(breakerGrid), Probe(breakerRows, breakerCols, row, col, touching, isFire), SCAN_CELLS);
              breakerGrid == res.board && falling == old(falling) + Drops(res.destroyed)
              && bricksRemaining == old(bricksRemaining) - |res.destroyed|
              && score == old(score) + BRICK_SCORE * |res.destroyed|
    {
      ghost var f0, p := breakerGrid, Probe(breakerRows, breakerCols, row, col, touching, isFire);
      ScanTraced(f0, p);
      ghost var t: seq<ScanState> :| IsScanTrace(t, f0, p);
      ScanRows(row, col, touching, isFire, f0, p, t);
      TraceResult(t, f0, p);
    }

    /** The row loop of `checkBrickCollision`, carrying out the scan of board `f0` traced by t. */
    method ScanRows(row: int, col: int, touching: set<(int, int)>, isFire: bool,
                    ghost f0: FineGrid, ghost p: Probe, ghost t: seq<ScanState>)
      requires state == Breaker && Shaped()
      requires p == Probe(breakerRows, breakerCols, row, col, touching, isFire) && IsScanTrace(t, f0, p)
      requires breakerGrid == f0
      modifies this`breakerGrid, this`falling, this`bricksRemaining, this`score
      ensures Shaped() && breakerGrid == t[9].board && falling == old(falling) + Drops(t[9].destroyed)
      ensures bricksRemaining == old(bricksRemaining) - |t[9].destroyed|
      ensures score == old(score) + BRICK_SCORE * |t[9].destroyed|
    {
      ghost var k := 0;
      for dr := -1 to 2
        invariant k == 3 * (dr + 1)
        invariant Shaped()
        invariant !t[k].stopped && breakerGrid == t[k].board
        invariant falling == old(falling) + Drops(t[k].destroyed)
        invariant bricksRemaining == old(bricksRemaining) - |t[k].destroyed|
        invariant score == old(score) + BRICK_SCORE * |t[k].destroyed|
      {
        var found, stopped := ScanRow(row, col, touching, isFire, dr, f0, p, t, k);
        DropsAppend(t[k].destroyed, found);
        k := k + 3;
        if stopped {
          TraceStaysStopped(t, f0, p, k, 9);
          return;
        }
      }
    }

    /**
     * One row (offset dr) of the 3 x 3 scan, columns left to right, carrying
     * on the scan of board `f0` (traced by t) from candidate k; `stopped`
     * when a brick ends a scan without fire.
     */
    method ScanRow(row: int, col: int, touching: set<(int, int)>, isFire: bool, dr: int,
                   ghost f0: FineGrid, ghost p: Probe, ghost t: seq<ScanState>, ghost k: nat)
      returns (found: seq<Brick>, stopped: bool)
      requires state == Breaker && Shaped()
      requires p == Probe(breakerRows, breakerCols, row, col, touching, isFire) && IsScanTrace(t, f0, p)
      requires -1 <= dr <= 1 && k == 3 * (dr + 1)
      requires !t[k].stopped && breakerGrid == t[k].board
      modifies this`breakerGrid, this`falling, this`bricksRemaining, this`score
      ensures Shaped()
      ensures breakerGrid == t[k + 3].board && t[k + 3].destroyed == t[k].destroyed + found && stopped == t[k + 3].stopped
      ensures falling == old(falling) + Drops(found)
      ensures bricksRemaining == old(bricksRemaining) - |found| && score == old(score) + BRICK_SCORE * |found|
    {
      found, stopped := [], false;
      ghost var j := k;
      for dc := -1 to 2
        invariant j == k + (dc + 1)
        invariant Shaped()
        invariant !t[j].stopped && breakerGrid == t[j].board && t[j].destroyed == t[k].destroyed + found
        invariant falling == old(falling) + Drops(found)
        invariant bricksRemaining == old(bricksRemaining) - |found| && score == old(score) + BRICK_SCORE * |found|
      {
        assert TraceStep(t, p, j);
        var hit, brick := ScanOne(row, col, touching, isFire, dr, dc, p, t[j], t[j + 1], j);
        j := j + 1;
        if hit {
          DropsAppend(found, [brick]);
          AppendAssoc(t[k].destroyed, found, [brick]);
          found := found + [brick];
          if !isFire {
            TraceStaysStopped(t, f0, p, j, k + 3);
            return found, true;
          }
        }
      }
    }

    /**
     * Candidate k = 3 (dr + 1) + (dc + 1) of the scan, taking the scan from
     * state `before` to state `after`: cell (row + dr, col + dc) is
     * destroyed when it passes the guard and the ball touches it.
     */
    method ScanOne(row: int, col: int, touching: set<(int, int)>, isFire: bool, dr: int, dc: int,
                   ghost p: Probe, ghost before: ScanState, ghost after: ScanState, ghost k: nat)
      returns (hit: bool, brick: Brick)
      requires state == Breaker && Shaped()
      requires p == Probe(breakerRows, breakerCols, row, col, touching, isFire)
      requires -1 <= dr <= 1 && -1 <= dc <= 1 && k == 3 * (dr + 1) + (dc + 1)
      requires !before.stopped && breakerGrid == before.board && after == ScanStep(before, p, k)
      modifies this`breakerGrid, this`falling, this`bricksRemaining, this`score
      ensures Shaped()
      ensures hit == Struck(old(breakerGrid), p, k)
      ensures breakerGrid == after.board && after.destroyed == before.destroyed + (if hit then [brick] else [])
      ensures after.stopped == (hit && !isFire)
      ensures falling == old(falling) + Drops(if hit then [brick] else [])
      ensures bricksRemaining == old(bricksRemaining) - (if hit then 1 else 0)
      ensures score == old(score) + (if hit then BRICK_SCORE else 0)
    {
      var r := row + dr;
      var c := col + dc;
      assert ScanCell(row, col, k) == (r, c);
      brick := Vacant;
      hit := false;
      if 0 <= r < breakerRows && 0 <= c < breakerCols && breakerGrid[r][c].Brick? && (r, c) in touching {
        brick := breakerGrid[r][c];
        DestroyBrick(r, c);
        hit := true;
      }
    }

    /** `activatePowerup`: two more balls, a timer (the wide one also widens the paddle), or 500 points. */
    method ActivatePowerup(kind: PowerUpKind, now: int)
      requires state == Breaker && RoundOk() && PaddleOk()
      modifies this`ballsInFlight, this`effects, this`paddleWidth, this`score
      ensures RoundOk() && PaddleOk()
      ensures effects == Activate(old(effects), kind, now)
      ensures ballsInFlight == old(ballsInFlight) + (if kind == MultiBall then 2 else 0)
      ensures paddleWidth == if kind == Wide then WideWidth(paddleBaseWidth) else old(paddleWidth)
      ensures score == old(score) + (if kind == Bonus then BONUS_POINTS else 0)
    {
      match kind
      case MultiBall =>
        ballsInFlight := ballsInFlight + 2;
      case Wide =>
        effects := effects[WideTimer := now + Duration(WideTimer)];
        paddleWidth := WideWidth(paddleBaseWidth);
      case Fire =>
        effects := effects[FireTimer := now + Duration(FireTimer)];
      case Slow =>
        effects := effects[SlowTimer := now + Duration(SlowTimer)];
      case Bonus =>
        score := score + BONUS_POINTS;
      case Sticky =>
        effects := effects[StickyTimer := now + Duration(StickyTimer)];
    }

    /**
     * The expiry step at the top of `updateBreaker`: each timer strictly past
     * `now` is deleted; the wide one restores the paddle and the sticky one
     * releases the stuck ball.
     */
    method ExpireEffects(now: int)
      requires state == Breaker && RoundOk() && PaddleOk()
      modifies this`effects, this`paddleWidth, this`stuck, this`ballsInFlight
      ensures RoundOk() && PaddleOk()
      ensures effects == Expire(old(effects), now)
      ensures paddleWidth == if Expired(old(effects), WideTimer, now) then paddleBaseWidth else old(paddleWidth)
      ensures stuck == (old(stuck) && !Expired(old(effects), StickyTimer, now))
      ensures ballsInFlight == old(ballsInFlight) + (if old(stuck) && Expired(old(effects), StickyTimer, now) then 1 else 0)
    {
      ghost var e0 := effects;
      var wideGone := DropExpired(WideTimer, now);
      if wideGone {
        paddleWidth := paddleBaseWidth;
      }
      ghost var e1 := effects;
      var _ := DropExpired(FireTimer, now);
      ghost var e2 := effects;
      var _ := DropExpired(SlowTimer, now);
      ghost var e3 := effects;
      var stickyGone := DropExpired(StickyTimer, now);
      if stickyGone && stuck {
        stuck := false;
        ballsInFlight := ballsInFlight + 1;
      }
      ExpireInOrder(e0, now);
      ExpireOneKeeps(e0, WideTimer, StickyTimer, now);
      ExpireOneKeeps(e1, FireTimer, StickyTimer, now);
      ExpireOneKeeps(e2, SlowTimer, StickyTimer, now);
      ExpireOneKeeps(e1, FireTimer, WideTimer, now);
      ExpireOneKeeps(e2, SlowTimer, WideTimer, now);
      ExpireOneKeeps(e3, StickyTimer, WideTimer, now);
    }

    /** One expiry test: delete timer e when it has run out, and say whether it did. */
    method DropExpired(e: Effect, now: int) returns (expired: bool)
      modifies this`effects
      ensures expired == Expired(old(effects), e, now)
      ensures effects == ExpireOne(old(effects), e, now)
    {
      expired := e in effects && effects[e] != 0 && now > effects[e];
      if expired {
        effects := effects - {e};
      }
    }

    /**
     * The ball loop of `updateBreaker`, from the last ball to the first: a
     * ball that falls is removed; a ball that bounces off the paddle while
     * the sticky timer runs and no ball is stuck becomes the stuck ball; a
     * ball still in play scans for bricks.
     */
    method MoveBalls(fates: seq<BallFate>, isFire: bool)
      requires state == Breaker && BricksOk() && RoundOk()
      modifies this`ballsInFlight, this`stuck, this`breakerGrid, this`falling, this`bricksRemaining, this`score
      ensures BricksOk() && RoundOk()
      ensures ballsInFlight + (if stuck then 1 else 0) + Falls(fates, old(ballsInFlight))
              == old(ballsInFlight) + (if old(stuck) then 1 else 0)
      ensures bricksRemaining <= old(bricksRemaining)
      ensures score == old(score) + BRICK_SCORE * (old(bricksRemaining) - bricksRemaining)
      ensures old(falling) <= falling
    {
      var i := ballsInFlight;
      while i > 0
        invariant BricksOk() && RoundOk() && 0 <= i <= old(ballsInFlight)
        invariant MovedFrom(fates, i, old(ballsInFlight), old(stuck), old(bricksRemaining), old(score), old(falling))
      {
        i := i - 1;
        MoveBallAt(fates, i, isFire, old(ballsInFlight), old(stuck), old(bricksRemaining), old(score), old(falling));
      }
    }

    /**
     * The ball loop's account once the balls from index i on have moved,
     * starting from n0 balls in flight, the held flag stuck0, bricks0
     * bricks, score score0 and drops falling0: every ball is in flight,
     * held or lost, each brick broken paid 10 points, and drops were only
     * added.
     */
    ghost predicate MovedFrom(fates: seq<BallFate>, i: nat, n0: nat, stuck0: bool, bricks0: int, score0: int,
                              falling0: seq<PowerUpKind>)
      reads this`ballsInFlight, this`stuck, this`bricksRemaining, this`score, this`falling
    {
      ballsInFlight >= i
      && ballsInFlight + (if stuck then 1 else 0) + Falls(fates, n0) == n0 + (if stuck0 then 1 else 0) + Falls(fates, i)
      && bricksRemaining <= bricks0
      && score == score0 + BRICK_SCORE * (bricks0 - bricksRemaining)
      && falling0 <= falling
    }

    /** One step of the ball loop: the ball at index i moves. */
    method MoveBallAt(fates: seq<BallFate>, i: nat, isFire: bool, ghost n0: nat, ghost stuck0: bool,
                      ghost bricks0: int, ghost score0: int, ghost falling0: seq<PowerUpKind>)
      requires state == Breaker && BricksOk() && RoundOk()
      requires MovedFrom(fates, i + 1, n0, stuck0, bricks0, score0, falling0)
      modifies this`ballsInFlight, this`stuck, this`breakerGrid, this`falling, this`bricksRemaining, this`score
      ensures BricksOk() && RoundOk()
      ensures MovedFrom(fates, i, n0, stuck0, bricks0, score0, falling0)
    {
      MoveBall(BallFateAt(fates, i), isFire);
    }

    /**
     * One pass of the ball loop: a ball that falls is removed; a ball that
     * bounces off the paddle while the sticky timer runs and no ball is
     * stuck becomes the stuck ball; a ball still in play scans for bricks.
     */
    method MoveBall(fate: BallFate, isFire: bool)
      requires state == Breaker && BricksOk() && RoundOk() && ballsInFlight > 0
      modifies this`ballsInFlight, this`stuck, this`breakerGrid, this`falling, this`bricksRemaining, this`score
      ensures BricksOk() && RoundOk()
      ensures fate == Fell ==> ballsInFlight == old(ballsInFlight) - 1 && stuck == old(stuck)
                               && breakerGrid == old(breakerGrid) && falling == old(falling)
                               && bricksRemaining == old(bricksRemaining) && score == old(score)
      ensures fate.InPlay? ==>
                (if fate.paddleHit && StickyTimer in effects && !old(stuck)
                 then stuck && ballsInFlight == old(ballsInFlight) - 1
                 else stuck == old(stuck) && ballsInFlight == old(ballsInFlight))
      ensures fate.InPlay? ==>
                var res := ScanUpTo(old(breakerGrid), Probe(breakerRows, breakerCols, fate.row, fate.col, fate.touching, isFire), SCAN_CELLS);
                breakerGrid == res.board && falling == old(falling) + Drops(res.destroyed)
                && bricksRemaining == old(bricksRemaining) - |res.destroyed|
      ensures ballsInFlight + (if stuck then 1 else 0) + (if fate == Fell then 1 else 0)
              == old(ballsInFlight) + (if old(stuck) then 1 else 0)
      ensures ballsInFlight >= old(ballsInFlight) - 1
      ensures bricksRemaining <= old(bricksRemaining)
      ensures score == old(score) + BRICK_SCORE * (old(bricksRemaining) - bricksRemaining)
      ensures old(falling) <= falling
    {
      match fate
      case Fell =>
        ballsInFlight := ballsInFlight - 1;
      case InPlay(paddleHit, row, col, touching) =>
        StickIfSticky(paddleHit);
        HitBricks(row, col, touching, isFire);
    }

    /** A ball off the paddle while the sticky timer runs, and no ball held yet, becomes the held ball. */
    method StickIfSticky(paddleHit: bool)
      requires state == Breaker && RoundOk() && ballsInFlight > 0
      modifies this`ballsInFlight, this`stuck
      ensures RoundOk()
      ensures if paddleHit && StickyTimer in effects && !old(stuck)
              then stuck && ballsInFlight == old(ballsInFlight) - 1
              else stuck == old(stuck) && ballsInFlight == old(ballsInFlight)
    {
      if paddleHit && StickyTimer in effects && !stuck {
        stuck := true;
        ballsInFlight := ballsInFlight - 1;
      }
    }

    /** The brick check of a ball still in play, in the terms the ball loop keeps track of. */
    method HitBricks(row: int, col: int, touching: set<(int, int)>, isFire: bool)
      requires state == Breaker && BricksOk()
      modifies this`breakerGrid, this`falling, this`bricksRemaining, this`score
      ensures BricksOk()
      ensures var res := ScanUpTo(old(breakerGrid), Probe(breakerRows, breakerCols, row, col, touching, isFire), SCAN_CELLS);
              breakerGrid == res.board && falling == old(falling) + Drops(res.destroyed)
              && bricksRemaining == old(bricksRemaining) - |res.destroyed|
      ensures bricksRemaining <= old(bricksRemaining)
      ensures score == old(score) + BRICK_SCORE * (old(bricksRemaining) - bricksRemaining)
      ensures old(falling) <= falling
    {
      CheckBrickCollision(row, col, touching, isFire);
    }

    /**
     * The falling power-up loop of `updateBreaker`, from the last drop to
     * the first: a caught drop is activated, removed and worth 50 points; a
     * missed one is removed; the rest keep falling.
     */
    method Pickups(fates: seq<Fate>, now: int)
      requires state == Breaker && RoundOk() && PaddleOk()
      modifies this`falling, this`ballsInFlight, this`effects, this`paddleWidth, this`score
      ensures RoundOk() && PaddleOk()
      ensures falling == Survivors(old(falling), fates, 0)
      ensures var caught := CaughtFrom(old(falling), fates, 0);
              score == old(score) + PickupPoints(caught)
              && effects == ActivateAll(old(effects), caught, now)
              && ballsInFlight == old(ballsInFlight) + 2 * CountKind(caught, MultiBall)
              && paddleWidth == (if Wide in caught then WideWidth(paddleBaseWidth) else old(paddleWidth))
    {
      ghost var drops := falling;
      var i := |falling|;
      assert drops[..i] == drops;
      while i > 0
        invariant RoundOk() && PaddleOk() && 0 <= i <= |drops|
        invariant PickedUpFrom(drops, fates, i, now, old(score), old(effects), old(ballsInFlight), old(paddleWidth))
      {
        i := i - 1;
        PickupAt(drops, fates, i, now, old(score), old(effects), old(ballsInFlight), old(paddleWidth));
      }
      assert drops[..0] == [];
    }

    /**
     * The state after the drops from index i on have been dealt with,
     * starting from score0, effects0, balls0 and width0.
     */
    ghost predicate PickedUpFrom(drops: seq<PowerUpKind>, fates: seq<Fate>, i: nat, now: int,
                                 score0: int, effects0: Effects, balls0: int, width0: real)
      reads this`falling, this`score, this`effects, this`ballsInFlight, this`paddleWidth, this`paddleBaseWidth
      requires i <= |drops|
    {
      falling == drops[..i] + Survivors(drops, fates, i)
      && var caught := CaughtFrom(drops, fates, i);
         score == score0 + PickupPoints(caught)
         && effects == ActivateAll(effects0, caught, now)
         && ballsInFlight == balls0 + 2 * CountKind(caught, MultiBall)
         && paddleWidth == (if Wide in caught then WideWidth(paddleBaseWidth) else width0)
    }

    /** One step of the pickup loop: the drop at index i is caught, missed or left falling. */
    method PickupAt(ghost drops: seq<PowerUpKind>, fates: seq<Fate>, i: nat, now: int,
                    ghost score0: int, ghost effects0: Effects, ghost balls0: int, ghost width0: real)
      requires state == Breaker && RoundOk() && PaddleOk() && i < |drops|
      requires PickedUpFrom(drops, fates, i + 1, now, score0, effects0, balls0, width0)
      modifies this`falling, this`ballsInFlight, this`effects, this`paddleWidth, this`score
      ensures RoundOk() && PaddleOk()
      ensures PickedUpFrom(drops, fates, i, now, score0, effects0, balls0, width0)
    {
      ghost var rest := CaughtFrom(drops, fates, i + 1);
      FallingStep(drops, fates, i);
      var kind := falling[i];
      match FateAt(fates, i)
      case Caught =>
        assert CaughtFrom(drops, fates, i) == [kind] + rest;
        CaughtStep(kind, rest, effects0, now);
        CatchDrop(i, now);
      case Missed =>
        assert CaughtFrom(drops, fates, i) == rest;
        falling := falling[..i] + falling[i + 1..];
      case StillFalling =>
        assert CaughtFrom(drops, fates, i) == rest;
    }

    /** A drop the paddle catches: it takes effect, leaves the falling list and is worth 50 points. */
    method CatchDrop(i: nat, now: int)
      requires state == Breaker && RoundOk() && PaddleOk() && i < |falling|
      modifies this`falling, this`ballsInFlight, this`effects, this`paddleWidth, this`score
      ensures RoundOk() && PaddleOk()
      ensures falling == old(falling)[..i] + old(falling)[i + 1..]
      ensures var kind := old(falling)[i];
              effects == Activate(old(effects), kind, now)
              && ballsInFlight == old(ballsInFlight) + (if kind == MultiBall then 2 else 0)
              && paddleWidth == (if kind == Wide then WideWidth(paddleBaseWidth) else old(paddleWidth))
              && score == old(score) + POWERUP_SCORE + (if kind == Bonus then BONUS_POINTS else 0)
    {
      var kind := falling[i];
      ActivatePowerup(kind, now);
      falling := falling[..i] + falling[i + 1..];
      score := score + POWERUP_SCORE;
    }

    /**
     * `updateBreaker`, one tick at time `now`: timers expire, balls move,
     * then the round-end checks in source order (no ball left, then the
     * time limit, then after the pickups an empty board for 2000 points).
     * The returned value says which check, if any, ended the round.
     */
    method UpdateBreaker(now: int, balls: seq<BallFate>, pickups: seq<Fate>) returns (outcome: RoundEnd)
      requires Playing() && state == Breaker
      modifies this`effects, this`paddleWidth, this`stuck, this`ballsInFlight, this`breakerGrid, this`falling,
               this`bricksRemaining, this`score, this`breakerTimeRemaining, this`state, this`flipProgress,
               this`flipDirection, this`grid
      ensures Playing()
      ensures var left := BallsLeft(old(ballsInFlight), old(stuck), old(effects), balls, now);
              (outcome == BallLost <==> left == 0)
              && (outcome == TimeUp <==> left > 0 && now - breakerStartTime >= BREAKER_TIME_LIMIT)
              && (outcome == AllClear <==> left > 0 && now - breakerStartTime < BREAKER_TIME_LIMIT && bricksRemaining == 0)
      ensures var bricks := BRICK_SCORE * (old(bricksRemaining) - bricksRemaining);
              (outcome == BallLost || outcome == TimeUp ==> score == old(score) + bricks)
              && (outcome == Continues ==> score >= old(score) + bricks)
              && (outcome == AllClear ==> score >= old(score) + bricks + ALL_CLEAR_BONUS)
      ensures outcome == Continues <==> state == Breaker
      ensures outcome != Continues ==> state == FlippingToTetris && grid == Gravity(ToCoarse(breakerGrid))
      ensures outcome == Continues ==> (ballsInFlight > 0 || stuck) && bricksRemaining > 0
      ensures outcome != BallLost ==> breakerTimeRemaining == TimeRemaining(now, breakerStartTime)
      ensures outcome == Continues || outcome == AllClear ==> breakerTimeRemaining > 0
      ensures outcome == TimeUp ==> now - breakerStartTime >= BREAKER_TIME_LIMIT
      ensures outcome == AllClear ==>
                bricksRemaining == 0 &&
                NoBricks(breakerGrid)
      ensures bricksRemaining <= old(bricksRemaining)
    {
      AdvanceBalls(now, balls);
      if ballsInFlight == 0 && !stuck {
        StartFlipToTetris();
        return BallLost;
      }
      outcome := TimedChecks(now, pickups);
    }

    /** The opening of `updateBreaker`: power-ups run out, then every ball moves, fire balls piercing. */
    method AdvanceBalls(now: int, balls: seq<BallFate>)
      requires Playing() && state == Breaker
      modifies this`effects, this`paddleWidth, this`stuck, this`ballsInFlight, this`breakerGrid, this`falling,
               this`bricksRemaining, this`score
      ensures Playing() && bricksRemaining <= old(bricksRemaining)
      ensures effects == Expire(old(effects), now)
      ensures paddleWidth == if Expired(old(effects), WideTimer, now) then paddleBaseWidth else old(paddleWidth)
      ensures var released := old(stuck) && Expired(old(effects), StickyTimer, now);
              ballsInFlight + (if stuck then 1 else 0) + Falls(balls, old(ballsInFlight) + (if released then 1 else 0))
              == old(ballsInFlight) + (if old(stuck) then 1 else 0)
      ensures score == old(score) + BRICK_SCORE * (old(bricksRemaining) - bricksRemaining)
      ensures old(falling) <= falling
    {
      ExpireEffects(now);
      MoveAllBalls(balls);
    }

    /** The ball loop of `updateBreaker` as a step of the round: fire balls pierce while the fire timer runs. */
    method MoveAllBalls(balls: seq<BallFate>)
      requires Playing() && state == Breaker
      modifies this`stuck, this`ballsInFlight, this`breakerGrid, this`falling, this`bricksRemaining, this`score
      ensures Playing() && bricksRemaining <= old(bricksRemaining)
      ensures ballsInFlight + (if stuck then 1 else 0) + Falls(balls, old(ballsInFlight))
              == old(ballsInFlight) + (if old(stuck) then 1 else 0)
      ensures score == old(score) + BRICK_SCORE * (old(bricksRemaining) - bricksRemaining)
      ensures old(falling) <= falling
    {
      var isFire := FireTimer in effects;
      MoveBalls(balls, isFire);
    }

    /**
     * The rest of `updateBreaker` once a ball is left: the clock check
     * (time up ends the round), the falling power-ups, and the empty-board
     * check.
     */
    method TimedChecks(now: int, pickups: seq<Fate>) returns (outcome: RoundEnd)
      requires Playing() && state == Breaker && (ballsInFlight > 0 || stuck)
      modifies this`effects, this`paddleWidth, this`stuck, this`ballsInFlight, this`falling, this`score,
               this`breakerTimeRemaining, this`state, this`flipProgress, this`flipDirection, this`grid
      ensures Playing() && outcome != BallLost
      ensures outcome == TimeUp <==> now - breakerStartTime >= BREAKER_TIME_LIMIT
      ensures outcome == AllClear <==> now - breakerStartTime < BREAKER_TIME_LIMIT && bricksRemaining == 0
      ensures outcome == TimeUp ==> score == old(score)
      ensures outcome != TimeUp ==>
                score == old(score) + PickupPoints(CaughtFrom(old(falling), pickups, 0))
                         + (if outcome == AllClear then ALL_CLEAR_BONUS else 0)
      ensures outcome == Continues <==> state == Breaker
      ensures outcome != Continues ==> state == FlippingToTetris && grid == Gravity(ToCoarse(breakerGrid))
      ensures outcome == Continues ==> (ballsInFlight > 0 || stuck) && bricksRemaining > 0
      ensures breakerTimeRemaining == TimeRemaining(now, breakerStartTime)
      ensures outcome == Continues || outcome == AllClear ==> breakerTimeRemaining > 0
      ensures outcome == AllClear ==> NoBricks(breakerGrid)
    {
      CheckClock(now);
      outcome := TimeUpOrDrops(now, pickups);
    }

    /** The round clock: what is left of the time limit at clock reading `now`, never below zero. */
    method CheckClock(now: int)
      modifies this`breakerTimeRemaining
      ensures breakerTimeRemaining == TimeRemaining(now, breakerStartTime)
    {
      breakerTimeRemaining := Max(0, BREAKER_TIME_LIMIT - (now - breakerStartTime));
    }

    /** The time-limit test on the fresh clock: time up ends the round, otherwise the drops and the board are checked. */
    method TimeUpOrDrops(now: int, pickups: seq<Fate>) returns (outcome: RoundEnd)
      requires Playing() && state == Breaker && (ballsInFlight > 0 || stuck)
      requires breakerTimeRemaining == TimeRemaining(now, breakerStartTime)
      modifies this`effects, this`paddleWidth, this`stuck, this`ballsInFlight, this`falling, this`score,
               this`state, this`flipProgress, this`flipDirection, this`grid
      ensures Playing() && outcome != BallLost
      ensures outcome == TimeUp <==> now - breakerStartTime >= BREAKER_TIME_LIMIT
      ensures outcome == AllClear <==> now - breakerStartTime < BREAKER_TIME_LIMIT && bricksRemaining == 0
      ensures outcome == TimeUp ==> score == old(score)
      ensures outcome != TimeUp ==>
                score == old(score) + PickupPoints(CaughtFrom(old(falling), pickups, 0))
                         + (if outcome == AllClear then ALL_CLEAR_BONUS else 0)
      ensures outcome == Continues <==> state == Breaker
      ensures outcome != Continues ==> state == FlippingToTetris && grid == Gravity(ToCoarse(breakerGrid))
      ensures outcome == Continues ==> (ballsInFlight > 0 || stuck) && bricksRemaining > 0
      ensures outcome == AllClear ==> NoBricks(breakerGrid)
    {
      if breakerTimeRemaining <= 0 {
        StartFlipToTetris();
        return TimeUp;
      }
      outcome := DropsAndBricks(now, pickups);
    }

    /** The end of `updateBreaker` while time is left: the falling power-ups, then the empty-board check. */
    method DropsAndBricks(now: int, pickups: seq<Fate>) returns (outcome: RoundEnd)
      requires Playing() && state == Breaker && (ballsInFlight > 0 || stuck)
      modifies this`effects, this`paddleWidth, this`stuck, this`ballsInFlight, this`falling, this`score,
               this`state, this`flipProgress, this`flipDirection, this`grid
      ensures Playing() && (outcome == Continues || outcome == AllClear)
      ensures outcome == AllClear <==> bricksRemaining == 0
      ensures outcome == Continues <==> state == Breaker
      ensures outcome == AllClear ==> state == FlippingToTetris && grid == Gravity(ToCoarse(breakerGrid))
      ensures outcome == Continues ==> (ballsInFlight > 0 || stuck) && bricksRemaining > 0
      ensures var caught := CaughtFrom(old(falling), pickups, 0);
              score == old(score) + PickupPoints(caught) + (if outcome == AllClear then ALL_CLEAR_BONUS else 0)
      ensures outcome == Continues ==>
                var caught := CaughtFrom(old(falling), pickups, 0);
                falling == Survivors(old(falling), pickups, 0)
                && effects == ActivateAll(old(effects), caught, now)
                && ballsInFlight == old(ballsInFlight) + 2 * CountKind(caught, MultiBall)
      ensures outcome == AllClear ==>
                bricksRemaining == 0 &&
                NoBricks(breakerGrid)
    {
      Pickups(pickups, now);
      if bricksRemaining <= 0 {
        AllClearBonus();
        return AllClear;
      }
      return Continues;
    }

    /** The board is cleared: 2000 points, and the flip back starts with no brick left. */
    method AllClearBonus()
      requires Playing() && state == Breaker && bricksRemaining <= 0
      modifies this`score, this`state, this`flipProgress, this`flipDirection, this`ballsInFlight, this`falling,
               this`effects, this`stuck, this`grid
      ensures Playing() && state == FlippingToTetris && score == old(score) + ALL_CLEAR_BONUS
      ensures grid == Gravity(ToCoarse(breakerGrid)) && bricksRemaining == 0
      ensures NoBricks(breakerGrid)
    {
      score := score + ALL_CLEAR_BONUS;
      CountBricksZero(breakerGrid);
      StartFlipToTetris();
    }

    /** Touch on the breaker screen: the paddle follows the finger, clamped to the canvas. */
    method MovePaddleTo(x: real)
      requires Playing() && state == Breaker
      modifies this`paddleX
      ensures Playing()
      ensures paddleX == ClampPaddle(x, paddleWidth, canvasW)
      ensures paddleWidth / 2.0 <= paddleX <= canvasW - paddleWidth / 2.0
    {
      paddleX := MaxReal(paddleWidth / 2.0, MinReal(canvasW - paddleWidth / 2.0, x));
      ClampPaddleSpec(x, paddleWidth, canvasW);
    }


    // -------------------------------------------------------------------------
    // The frame
    // -------------------------------------------------------------------------

    /**
     * `gameLoop`'s dispatch: compute dt, then run the update of the current
     * mode; the start and game-over screens update nothing.
     */
    method Frame(timestamp: int, input: FrameInput)
      requires Valid() && input.first < PIECE_KINDS && input.second < PIECE_KINDS
      modifies this
      ensures Valid()
      ensures lastTime == timestamp
      ensures old(state) == Start || old(state) == GameOver ==>
                state == old(state) && score == old(score) && grid == old(grid) && piece == old(piece)
      ensures old(state) == Tetris ==> state == Tetris || state == GameOver
      ensures old(state) == Breaker ==> state == Breaker || state == FlippingToTetris
      ensures old(state) == FlippingToBreaker ==> state == FlippingToBreaker || state == Breaker
      ensures old(state) == FlippingToTetris ==> state == FlippingToTetris || state == Tetris || state == GameOver
    {
      var dt := FrameDt(timestamp, lastTime);
      lastTime := timestamp;
      Dispatch(dt, input);
    }

    /** The update of the current mode for a frame of `dt` ms. */
    method Dispatch(dt: int, input: FrameInput)
      requires Valid() && input.first < PIECE_KINDS && input.second < PIECE_KINDS
      modifies this`dropTimer, this`lockDelay, this`moveRepeatTimer, this`grid, this`piece, this`animating,
               this`clearingLines, this`score, this`totalLines, this`level, this`nextPieceType, this`state,
               this`paddleX, this`effects, this`paddleWidth, this`stuck, this`ballsInFlight, this`breakerGrid,
               this`falling, this`bricksRemaining, this`breakerTimeRemaining, this`flipProgress,
               this`flipDirection, this`round
      ensures Valid()
      ensures old(state) == Start || old(state) == GameOver ==>
                state == old(state) && score == old(score) && grid == old(grid) && piece == old(piece)
      ensures old(state) == Tetris ==> state == Tetris || state == GameOver
      ensures old(state) == Breaker ==> state == Breaker || state == FlippingToTetris
      ensures old(state) == FlippingToBreaker ==> state == FlippingToBreaker || state == Breaker
      ensures old(state) == FlippingToTetris ==> state == FlippingToTetris || state == Tetris || state == GameOver
    {
      if state == Tetris {
        UpdateTetris(dt, input.first);
      } else if state == Breaker {
        var _ := BreakerFrame(input);
      } else if state == FlippingToBreaker || state == FlippingToTetris {
        UpdateFlip(dt, input.first, input.second);
      }
    }

    /**
     * A breaker frame: a held arrow key moves the paddle eight pixels,
     * clamped on screen at the width in force, then the round updates; the
     * result says which check, if any, ended the round.
     */
    method BreakerFrame(input: FrameInput) returns (outcome: RoundEnd)
      requires Playing() && state == Breaker
      modifies this`paddleX, this`effects, this`paddleWidth, this`stuck, this`ballsInFlight, this`breakerGrid,
               this`falling, this`bricksRemaining, this`score, this`breakerTimeRemaining, this`state,
               this`flipProgress, this`flipDirection, this`grid
      ensures Playing() && (state == Breaker || state == FlippingToTetris)
      ensures moveDir == 0 ==> paddleX == old(paddleX)
      ensures moveDir != 0 ==> paddleX == ClampPaddle(old(paddleX) + (moveDir as real) * PADDLE_KEY_STEP, old(paddleWidth), canvasW)
      ensures state == FlippingToTetris ==> grid == Gravity(ToCoarse(breakerGrid))
      ensures state == Breaker ==>
                (ballsInFlight > 0 || stuck) && bricksRemaining > 0
                && breakerTimeRemaining == TimeRemaining(input.now, breakerStartTime) && breakerTimeRemaining > 0
      ensures bricksRemaining <= old(bricksRemaining)
      ensures var left := BallsLeft(old(ballsInFlight), old(stuck), old(effects), input.balls, input.now);
              (outcome == BallLost <==> left == 0)
              && (outcome == TimeUp <==> left > 0 && input.now - breakerStartTime >= BREAKER_TIME_LIMIT)
              && (outcome == AllClear <==> left > 0 && input.now - breakerStartTime < BREAKER_TIME_LIMIT && bricksRemaining == 0)
      ensures var bricks := BRICK_SCORE * (old(bricksRemaining) - bricksRemaining);
              (outcome == BallLost || outcome == TimeUp ==> score == old(score) + bricks)
              && (outcome == Continues ==> score >= old(score) + bricks)
              && (outcome == AllClear ==> score >= old(score) + bricks + ALL_CLEAR_BONUS)
      ensures outcome == Continues <==> state == Breaker
    {
      if moveDir != 0 {
        paddleX := ClampPaddle(paddleX + (moveDir as real) * PADDLE_KEY_STEP, paddleWidth, canvasW);
      }
      outcome := UpdateBreaker(input.now, input.balls, input.pickups);
    }
  }

  /** Among the first n balls, at most n fall. */
  lemma {:induction false} FallsAtMost(fates: seq<BallFate>, n: nat)
    ensures Falls(fates, n) <= n
  {
    if n > 0 {
      FallsAtMost(fates, n - 1);
    }
  }

  lemma {:induction false} FallsMonotone(fates: seq<BallFate>, a: nat, b: nat)
    requires a <= b
    ensures Falls(fates, a) <= Falls(fates, b)
    decreases b - a
  {
    if a < b {
      FallsMonotone(fates, a, b - 1);
    }
  }
}
