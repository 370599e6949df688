# Arcade cores in Dafny

This project models the game logic of four browser arcade games:

- **Flip-block game** (`tetris.js`). Falling tetrominoes are placed on a 20 x 10 board. Clearing four rows at once, or passing a score threshold, flips the board into a brick-breaker round. In that round the board becomes a 40 x 20 brick field, balls and power-ups play out, and at the end the field is reduced back to a block board under gravity.
- **Pac-Man** (`pacman.js`). The player moves through the maze and eats dots and pellets. Ghosts pick directions at tile centres. A contact with a ghost either eats it or costs a life, and the level is complete once every dot is gone.
- **Space shooter** (`shooter.js`). Weapons have ammunition and fire rates. Bullets hit enemies, bosses arrive at score thresholds, difficulty rises over time, power-ups apply, and characters unlock at score thresholds.
- **Pinball** (`pinball.js`). The plunger launches the ball, scoring counts at a multiplier, and two drop-target banks pay a bonus. The multiplier has a timer, and the ball drains.

State the games keep in objects or globals and update in place is modelled as Dafny classes with `modifies` frames. The game-wide globals of the flip-block game become the fields of `TetrisGame.Game`. Each method is proved against pure specification functions, and those functions carry the lemmas.

Some inputs are parameters of the model rather than computed:

- **Randomness.** The next piece type, the power-up roll of each brick, a ghost's random pick, the enemy type pick and whether the boss lets an enemy through are all parameters.
- **Clocks.** The clock reading and the frame `dt` are integer parameters.
- **Geometry.** What the continuous geometry decides comes in as a value for each tick:
  - a ball's fate and the bricks it touches (`BallFate`);
  - what a falling power-up does (`Fate`);
  - which ghosts touch the player;
  - which bullet overlaps which enemy;
  - which enemies ram the player;
  - the pinball contacts in order, and whether the ball is below the drain line.
- **Timeouts.** Callbacks scheduled with a timeout are explicit methods that the caller invokes later. These are the end of the line-clear animation, the boss arrival, Pac-Man's next level (`NextLevel`, 1500 ms after the last dot) and resume after a level (`ResumePlay`), and the pinball's next ball (`PrepareBall`).

## Model

| member | source | states |
|---|---|---|
| TetrisGrid.EmptyRow | tetris.js:396-401 | a fresh row has exactly COLS cells |
| TetrisGrid.KicksFor | tetris.js:115-138 | the rotation offers five kick candidates, the first one unshifted; the I piece uses its own table, every other piece the common one |
| TetrisGrid.ShapesOk | tetris.js:62-113 | every shape of every piece in every rotation has four cells, the first on its top row |
| TetrisGrid.ValidPositionIff | tetris.js:471-479 | a placement is valid exactly when every cell of the shape is free: inside the columns, above the floor, and empty or above the visible board |
| TetrisGrid.HiddenCellsNeverCollide | tetris.js:471-479 | a placement entirely above the board is valid or invalid independently of the board's contents |
| TetrisGrid.ValidAboveFloor | tetris.js:471-479 | a valid placement's anchor row lies above the floor |
| TetrisGrid.LandingRowSpec | tetris.js:540-547 | the ghost/landing row is at or below the piece, every row down to it is valid, and the row below it is not |
| TetrisGrid.BaseLineScore | tetris.js:597-598 | clearing 1, 2, 3, 4 rows pays 100, 300, 500, 800 base points; any other count falls back to 800 |
| TetrisGrid.LevelFor | tetris.js:613 | the level is the one whose ten-line band contains the total cleared line count, starting at 1 |
| TetrisGrid.DropInterval | tetris.js:644-646 | the gravity interval falls by 60 ms per level from 800 ms and never goes below 80 ms, reached at level 13 |
| TetrisGrid.DropIntervalMonotone | tetris.js:644-646 | a higher level never drops slower |
| TetrisGrid.FullRows | tetris.js:569-575 | on a well-formed board the full-row list holds board rows only |
| TetrisGrid.FullRowsBelowSpec | tetris.js:569-575 | the scan lists exactly the full rows, each once, in increasing order |
| TetrisGrid.RemoveRowAtSpec | tetris.js:618-621 | removing one row shifts every row above it down by one, keeps the rows below, and puts an empty row on top |
| TetrisGrid.RemoveRowsAsWritten | tetris.js:618-621 | the removal as written (splice each index in decreasing order from the current board, unshift an empty row) keeps the board's shape |
| TetrisGrid.TwoRowRemovalKeepsFullRow | tetris.js:618-621 | with two rows a < b removed as written, the old row a ends up at a + 1 on the new board, so a full row a survives |
| TetrisGrid.KeptRowsNotFull | tetris.js:618-621 | the rows kept when every full row is listed for removal are all non-full |
| TetrisGrid.RemoveRowsClearsAll | tetris.js:618-621 | the corrected removal of all full rows leaves no full row on the board |
| TetrisGrid.RemoveRowsRow | tetris.js:618-621 | after the corrected removal of a list that includes every full row, each row of the board is non-full |
| TetrisGrid.SingleRowRemovalAgrees | tetris.js:618-621 | for a single cleared row the code as written and the corrected removal agree |
| TetrisGrid.TwoFullRowsCounterexample | tetris.js:618-621 | a board whose rows 18 and 19 are full: as written row 19 stays full after the clear; the corrected removal leaves it non-full |
| TetrisPlacement.ShapeOf | tetris.js:62-113 | the shape of a well-formed piece is a four-cell shape table entry |
| TetrisPlacement.ColumnExtremes | tetris.js:443-447 | the running min/max over the shape's columns, starting from 99 and -1, are its true extreme columns |
| TetrisPlacement.SpawnColumnsSmall | tetris.js:441-449 | every spawn shape's column offsets lie in 0..3 |
| TetrisPlacement.SpawnCentred | tetris.js:441-449 | the spawn column centres the piece, with at most one more free column on the right than on the left, and the piece fits inside the columns |
| TetrisPlacement.SpawnOnEmptyBoard | tetris.js:438-469 | on an empty board every piece spawns on row 0 and is never blocked |
| TetrisPlacement.ShapeRowsSmall | tetris.js:62-113 | every shape's row offsets lie in 0..3 |
| TetrisPlacement.FirstKick | tetris.js:502-514 | the first-valid-kick search returns an index between its start and 5 |
| TetrisPlacement.FirstKickSpec | tetris.js:502-514 | the search stops at the first valid kick candidate, and every earlier candidate is invalid |
| TetrisPlacement.RotatedSpec | tetris.js:493-515 | a successful rotation turns the piece one quarter clockwise to a valid position; it fails exactly when all five kick candidates are invalid; when the unshifted target is valid it is the one taken |
| TetrisPlacement.Stamp | tetris.js:549-567 | locking keeps the board well-formed |
| TetrisPlacement.StampSpec | tetris.js:549-567 | locking changes exactly the on-board cells the piece covers, each to the piece's kind, and leaves every other cell as it was |
| TetrisPlacement.CountRowPositive | tetris.js:648-655 | a row's block count is positive exactly when some cell is occupied |
| TetrisPlacement.CountGridPositive | tetris.js:648-655 | the board's block count is positive exactly when some cell is occupied |
| TetrisPlacement.HasBlocksIffBricks | tetris.js:648-655 | the board has blocks exactly when its block count is positive, and exactly when its brick field would hold bricks |
| TetrisPlacement.EmptyBoard | tetris.js:396-401 | the initial board is well-formed, has no blocks and no full row |
| TetrisPlacement.RemoveRowsAsWrittenSnoc | tetris.js:618-621 | the removal as written is one single-row removal per listed index, in list order, each on the current board |
| TetrisPlacement.IncreasingReversed | tetris.js:618 | reversing the increasing full-row list gives the decreasing order the code sorts into, with the same rows |
| Transcoder.ToFine | tetris.js:877-911 | the brick field built from a board is 40 x 20 |
| Transcoder.ToFineBlock | tetris.js:877-911 | each occupied board cell becomes a 2 x 2 block of bricks of its kind, each with its own power-up roll, and each empty cell four vacant cells |
| Transcoder.ToFineCount | tetris.js:877-911 | the brick count of the field is four times the block count of the board |
| Transcoder.CountBricksVacate | tetris.js:1132-1154 | destroying a brick lowers the field's brick count by exactly one |
| Transcoder.CountBricksZero | tetris.js:1072-1076 | a field has no bricks exactly when every cell is vacant |
| Transcoder.ReduceCellSpec | tetris.js:1377-1398 | a board cell is occupied after the round exactly when any of its four fine cells survives; whichever fine cell is the last survivor in scan order gives the cell its kind |
| Transcoder.BlockAt | tetris.js:1381-1384 | the j-th fine cell of the scan is row 2r + j / 2, column 2c + j % 2 |
| Transcoder.ToCoarse | tetris.js:1377-1398 | the reduced board is 20 x 10 |
| Transcoder.RoundTrip | tetris.js:877-911 | expanding a board into bricks and reducing it back with nothing destroyed gives the same board, whatever the power-up rolls |
| Transcoder.RoundTripCell | tetris.js:1377-1398 | the same round trip, for one cell |
| Transcoder.Gravity | tetris.js:1401-1414 | the gravity pass keeps the board well-formed |
| Transcoder.SettleSpec | tetris.js:1401-1414 | a settled column has the same length and the same blocks in the same order, with no gap beneath any block; settling twice is settling once |
| Transcoder.GravityColumn | tetris.js:1401-1414 | gravity settles each column independently |
| Transcoder.GravityIdempotent | tetris.js:1401-1414 | gravity applied to a settled board changes nothing |
| Transcoder.PlaceBottomUp | tetris.js:1401-1414 | writing the collected blocks from the bottom row upwards produces the settled column |
| BreakerRules.TimerOf | tetris.js:1156-1190 | wide, fire, slow and sticky run on a timer; multi-ball and bonus do not |
| BreakerRules.Duration | tetris.js:28-31 | wide lasts 15 s, fire 8 s, slow and sticky 10 s |
| BreakerRules.ActivateThenExpire | tetris.js:940-960 | a timed power-up collected at time t is active exactly up to and including t + its duration, whatever timer it replaced |
| BreakerRules.ExpireSpec | tetris.js:940-960 | expiry only removes timers and keeps the end times of the rest; expiring twice at the same time is expiring once; a later time keeps no more timers than an earlier one |
| BreakerRules.ExpireOneKeeps | tetris.js:940-960 | expiring one timer leaves every other timer, and whether it has expired, unchanged |
| BreakerRules.ExpireInOrder | tetris.js:940-960 | checking wide, fire, slow and sticky one after the other expires exactly the timers that have run out |
| BreakerRules.WideWidth | tetris.js:1172-1174 | the wide paddle is never narrower than the base paddle |
| BreakerRules.PaddleShare | tetris.js:869-874 | the base paddle width is non-negative, and even widened it fits the canvas |
| BreakerRules.ClampPaddleSpec | tetris.js:1571-1574 | when the paddle fits the canvas, the clamped centre keeps the whole paddle on screen, an on-screen centre is kept, and clamping is idempotent |
| BreakerRules.ClampWidePaddle | tetris.js:1571-1574 | a paddle wider than the canvas is pinned at half its width |
| BreakerRules.ScanCell | tetris.js:1089-1126 | candidate k of the 3 x 3 scan is row offset k / 3 - 1 and column offset k % 3 - 1, rows outer |
| BreakerRules.ScanCellsDistinct | tetris.js:1089-1126 | the nine scan candidates are nine different cells |
| BreakerRules.ScanVacates | tetris.js:1089-1126 | the scan keeps the field's shape and only ever turns a cell vacant |
| BreakerRules.ScanSpec | tetris.js:1081-1130 | the remaining bricks plus the destroyed ones equal the bricks before; everything destroyed was a brick; without fire at most one brick is destroyed |
| BreakerRules.ScanNothingIff | tetris.js:1081-1130 | the scan destroys nothing exactly when no candidate cell holds a touched brick |
| BreakerRules.ScanFireClears | tetris.js:1081-1130 | with fire, no candidate at or after the start is left as a touched brick |
| BreakerRules.ScanFromStruck | tetris.js:1089-1126 | at a touched brick the scan destroys it and, without fire, stops there |
| BreakerRules.ScanStaysStopped | tetris.js:1089-1126 | once the non-fire scan has destroyed a brick, later candidates change nothing |
| BreakerRules.TraceResult | tetris.js:1089-1126 | the step-by-step run of the nested loops ends in the scan's result and conserves bricks |
| BreakerRules.ScanUpToCount | tetris.js:1089-1126 | at every step of the loops the remaining plus destroyed bricks equal the bricks before |
| BreakerRules.ScanComplete | tetris.js:1089-1126 | the loop-by-loop scan and the recursive scan give the same field and destroyed bricks |
| BreakerRules.Drops | tetris.js:1132-1154 | at most one power-up falls per destroyed brick |
| BreakerRules.DropsAppend | tetris.js:1132-1154 | the drops of two runs of destroyed bricks are the drops of each, in order |
| BreakerRules.Survivors | tetris.js:1049-1070 | the falling list after the pickup pass is no longer than before |
| BreakerRules.CaughtFrom | tetris.js:1049-1070 | no more power-ups are caught than were falling |
| BreakerRules.PickupPartition | tetris.js:1049-1070 | every falling power-up is kept, caught or missed, and when none is missed the kept and caught ones account for all of them |
| BreakerRules.CaughtStep | tetris.js:1049-1070 | catching one more power-up adds 50 points, 500 more for a bonus, two balls for multi-ball, and its timer |
| BreakerRules.ActivateAllSpec | tetris.js:1049-1070 | after a pickup pass every caught timed power-up's timer ends at now + its duration, and every other timer is untouched |
| BreakerRules.TimeRemaining | tetris.js:1041-1046 | the time left is between zero and the limit minus the elapsed time, and is zero exactly when 30 s have elapsed |
| TetrisGame.FrameDt | tetris.js:1699 | a frame's dt is at most 50 ms, 16 ms on the first frame, and the real gap otherwise |
| TetrisGame.FallsMonotone | tetris.js:1034-1038 | more balls examined never means fewer balls lost |
| TetrisGame.FallsAtMost | tetris.js:1034-1038 | of n balls moved, at most n are lost |
| TetrisGame.BallsLeft | tetris.js:940-1034 | the balls in play after the moves never exceed those in flight plus the held one, and a held ball that stays held is always left |
| TetrisGame.Game.constructor | tetris.js:299-357 | the page starts on the start screen at level 1, round 1, score 0, threshold 3000, with no board and no piece |
| TetrisGame.Game.InitGrid | tetris.js:396-401 | the board becomes the empty 20 x 10 board |
| TetrisGame.Game.ResetGame | tetris.js:403-429 | a new game: score 0, level 1, round 1, an empty board, the first piece spawned on row 0, the next type queued, no balls, drops or timers, in falling-block mode |
| TetrisGame.Game.NewBoard | tetris.js:403-411 | the reset board part: counters back to their start, an empty board and the first piece spawned |
| TetrisGame.Game.ResetBoard | tetris.js:403-408 | score, level, line total and round reset and the board emptied, with no piece yet |
| TetrisGame.Game.ResetRound | tetris.js:412-425 | every timer, ball, drop and effect cleared, the threshold back at 3000, mode falling-block |
| TetrisGame.Game.ResetScore | tetris.js:403-406 | score, line total and round start over at level 1 |
| TetrisGame.Game.ClearPiece | tetris.js:407-409 | no piece is live, the queued type is the given draw and no clear is animating |
| TetrisGame.Game.ResetClocks | tetris.js:412-425 | drop timer, lock delay, clear list and round clock are zeroed, the threshold is back at 3000 and the mode is falling-block |
| TetrisGame.Game.SpawnColumn | tetris.js:441-449 | the column loop computes the centring spawn column |
| TetrisGame.Game.SpawnPiece | tetris.js:438-469 | the queued type enters at row 0, or row -1 when row 0 is blocked, and the game is over when both are blocked; the next type is the given draw |
| TetrisGame.Game.Enter | tetris.js:438-468 | the spawned piece becomes live with the next type queued, and a blocked spawn ends the game |
| TetrisGame.Game.MovePiece | tetris.js:481-491 | a sideways move happens exactly when a piece is live, no clear is animating and the shifted position is valid; a move resets the lock delay; otherwise nothing changes |
| TetrisGame.Game.RotatePiece | tetris.js:493-515 | the piece becomes the first valid kick of the quarter turn, resetting the lock delay; with no valid kick it stays |
| TetrisGame.Game.FindKick | tetris.js:501-514 | the kick loop picks the same rotation as `Rotated`: the first valid of the five candidates, or none |
| TetrisGame.Game.SoftDrop | tetris.js:517-526 | a soft drop moves the piece one row down exactly when that row is valid, scoring one point and resetting the drop timer |
| TetrisGame.Game.GhostRow | tetris.js:540-547 | the ghost row is the piece's landing row |
| TetrisGame.Game.HardDrop | tetris.js:528-538 | the piece moves to its landing row, scores two points per row fallen, and is locked |
| TetrisGame.Game.WriteCells | tetris.js:551-557 | the lock loop writes exactly the stamped board |
| TetrisGame.Game.LockPiece | tetris.js:549-567 | locking stamps the piece into the board and then runs the full-row check |
| TetrisGame.Game.CheckLineClears | tetris.js:569-642 | with full rows, the clear animation starts on exactly those rows, paying the base score times the current level, adding to the line total and recomputing the level; without, the next piece spawns |
| TetrisGame.Game.StartClear | tetris.js:594-613 | the clear's score, line total and level update |
| TetrisGame.Game.HasBlocksOnGrid | tetris.js:648-655 | the scan finds a block exactly when the board has one |
| TetrisGame.Game.RemoveClearedRows | tetris.js:618-621 | the cleared rows are removed as the code does it: taken in decreasing order, each spliced from the current board with an empty row put on top |
| TetrisGame.Game.EndClear | tetris.js:615-624 | the listed rows are removed as the code does it and the clear animation ends with no rows listed |
| TetrisGame.Game.FinishLineClear | tetris.js:615-638 | the cleared rows are removed as written; after four rows, or once the score reaches the threshold, a non-empty board flips to the breaker round and the threshold moves to score + 3000; otherwise the next piece spawns; either way the score is left below the threshold |
| TetrisGame.Game.FlipOrSpawn | tetris.js:627-637 | the flip-or-spawn decision after a clear, and the threshold it leaves |
| TetrisGame.Game.FlipNow | tetris.js:628-631 | flipping re-arms the threshold and builds the brick field from the board, with four bricks per block |
| TetrisGame.Game.KeepFalling | tetris.js:632-636 | no flip: the threshold is re-armed if it was reached, and the next piece spawns |
| TetrisGame.Game.RaiseThreshold | tetris.js:629 | the threshold moves to the current score plus 3000 |
| TetrisGame.Game.GravityTick | tetris.js:666-681 | below the drop interval only the timer advances; otherwise the piece falls a row if it can, else the lock delay grows and the piece locks once it reaches 500 ms |
| TetrisGame.Game.GravityStep | tetris.js:668-680 | the gravity step once the interval has elapsed: fall, or grow the lock delay and lock at 500 ms |
| TetrisGame.Game.LockDelayStep | tetris.js:671-674 | the lock delay grows by the interval, and the piece locks once it reaches 500 ms |
| TetrisGame.Game.FallOneRow | tetris.js:676-679 | the piece falls one row, resetting the lock delay and scoring a point while soft-dropping |
| TetrisGame.Game.UpdateTetris | tetris.js:657-690 | during a clear animation or without a piece nothing moves; a tick can only end the game, never change mode otherwise |
| TetrisGame.Game.RepeatMove | tetris.js:683-689 | once the repeat delay has elapsed, the timer resets and the held direction moves the piece exactly as `movePiece` does (shifted and the lock delay reset when the shifted position is valid, otherwise nothing changes); before that only the timer advances and the piece and lock delay are unchanged |
| TetrisGame.Game.StartSoftDrop | tetris.js:1646-1651 | holding down starts soft-dropping with the drop timer primed so that the next tick falls |
| TetrisGame.Game.FillBlock | tetris.js:889-905 | one occupied board cell fills exactly its 2 x 2 block of the field with bricks and adds four to the brick count |
| TetrisGame.Game.EmptyBreakerGrid | tetris.js:880-887 | the field starts 40 x 20, all vacant, with no bricks counted |
| TetrisGame.Game.FillBreakerRow | tetris.js:889-905 | one more board row's cells are copied into the field |
| TetrisGame.Game.ConvertToBreakerGrid | tetris.js:877-911 | the field is the board's brick expansion, the brick count is four times the block count, and the paddle is laid out |
| TetrisGame.Game.CalcBreakerLayout | tetris.js:869-874 | the paddle is a whole number of pixels, its base width the board's share of the canvas, centred |
| TetrisGame.Game.StartFlipToBreaker | tetris.js:1359-1370 | the flip to the breaker starts: no piece, the field built from the board, the round clock starting after the flip |
| TetrisGame.Game.BeginFlipToBreaker | tetris.js:1359-1369 | the flip starts at progress 0 towards the breaker with no live piece and no effects |
| TetrisGame.Game.SampleBlock | tetris.js:1377-1398 | the sampling loop finds the last surviving brick of a block |
| TetrisGame.Game.SettleColumn | tetris.js:1401-1414 | one column is settled and every other column left alone |
| TetrisGame.Game.CollectColumn | tetris.js:1402-1407 | the bottom-up scan collects the column's blocks, lowest first |
| TetrisGame.Game.ClearColumn | tetris.js:1408-1410 | one column is emptied and the others left alone |
| TetrisGame.Game.PlaceColumn | tetris.js:1411-1413 | the collected blocks are written from the bottom row up |
| TetrisGame.Game.ConvertBreakerBackToTetris | tetris.js:1372-1415 | the new board is the field reduced back to blocks and settled under gravity |
| TetrisGame.Game.StartFlipToTetris | tetris.js:1417-1429 | the flip back starts with no balls, drops or effects, and the board rebuilt from the field |
| TetrisGame.Game.BeginFlipToTetris | tetris.js:1417-1428 | the flip back starts at progress 0 with no balls in flight, no falling power-ups and no effects |
| TetrisGame.Game.ClearBalls | tetris.js:1418-1422 | balls, falling power-ups, effects and the stuck ball are all cleared |
| TetrisGame.Game.UpdateFlip | tetris.js:1431-1455 | the flip advances by dt over 1200 ms; on completion it enters the breaker with one more ball, or returns to falling blocks one round and one level up with the next piece spawned |
| TetrisGame.Game.EnterBreaker | tetris.js:1435-1441 | entering the breaker launches one ball |
| TetrisGame.Game.ReturnToTetris | tetris.js:1442-1450 | back to falling blocks: round and level up by one, a new piece spawned |
| TetrisGame.Game.NextRound | tetris.js:1444-1447 | round and level go up by one and the next type is the given draw |
| TetrisGame.Game.LaunchBall | tetris.js:916-925 | a launch adds one ball |
| TetrisGame.Game.ReleaseStickyBall | tetris.js:927-934 | releasing the stuck ball puts it back in flight |
| TetrisGame.Game.DestroyBrick | tetris.js:1132-1154 | destroying a brick vacates its cell, lowers the count by one, pays 10 points and drops its power-up; a vacant cell changes nothing |
| TetrisGame.Game.CheckBrickCollision | tetris.js:1081-1130 | the nested scan loops leave exactly the field, drops, brick count and score of the specified scan |
| TetrisGame.Game.ScanRows | tetris.js:1089-1126 | the row loop ends in the final state of the scan trace: its field, its drops, one brick and 10 points per destroyed brick |
| TetrisGame.Game.ScanRow | tetris.js:1089-1126 | one row of the scan advances the loop state by three candidates |
| TetrisGame.Game.ScanOne | tetris.js:1091-1124 | one candidate: a touched brick is destroyed and, without fire, the scan stops |
| TetrisGame.Game.ActivatePowerup | tetris.js:1156-1190 | a caught power-up sets its timer, adds two balls, widens the paddle or pays 500 points according to its kind |
| TetrisGame.Game.ExpireEffects | tetris.js:940-960 | expired timers are dropped; an expired wide restores the paddle; an expired sticky releases the stuck ball |
| TetrisGame.Game.DropExpired | tetris.js:940-960 | one timer is dropped exactly when it has run out |
| TetrisGame.Game.MoveBalls | tetris.js:972-1031 | every ball is either still in flight, stuck, or lost; bricks only decrease, at 10 points each; drops only accumulate |
| TetrisGame.Game.MoveBall | tetris.js:972-1031 | a fallen ball leaves flight and touches nothing else; a ball bouncing off the paddle while the sticky timer runs and no ball is stuck becomes the stuck ball, otherwise the stuck state stays; a ball in play leaves the board, drops and brick count exactly as the 3 x 3 scan gives them |
| TetrisGame.Game.MoveBallAt | tetris.js:972-1031 | one step of the ball loop keeps its account: every ball examined so far is in flight, stuck or lost, bricks only decrease at 10 points each, and drops only accumulate |
| TetrisGame.Game.StickIfSticky | tetris.js:1015-1019 | a ball off the paddle while the sticky timer runs and no ball is held becomes the held ball, leaving flight; otherwise nothing changes |
| TetrisGame.Game.HitBricks | tetris.js:1030 | a ball's brick check leaves the board, drops and brick count exactly as the 3 x 3 scan gives them; bricks only decrease, at 10 points each |
| TetrisGame.Game.Pickups | tetris.js:1049-1070 | the falling list keeps the uncaught drops; the caught ones pay their points, set their timers, add balls and widen the paddle |
| TetrisGame.Game.PickupAt | tetris.js:1050-1069 | one drop, from the last: caught, it is applied and removed; off screen, it is removed; otherwise it stays, and the running totals of points, timers, balls and width follow the drops caught so far |
| TetrisGame.Game.CatchDrop | tetris.js:1052-1063 | catching one drop removes it from the list and applies it |
| TetrisGame.Game.UpdateBreaker | tetris.js:936-1080 | the round ends on a lost ball exactly when no ball is left after the moves (`BallsLeft` is 0); on a timeout exactly when a ball is left and 30 s have passed; on an all-clear exactly when a ball and time are left and no brick is; it continues exactly while the mode stays breaker, otherwise it flips back with the board rebuilt; a lost ball or a timeout leaves the score raised by exactly 10 per brick broken, an all-clear by at least that plus 2000 |
| TetrisGame.Game.MoveAllBalls | tetris.js:970-1031 | the ball loop, fire balls piercing while the fire timer runs, keeps the game valid: every ball is in flight, stuck or lost; bricks only decrease, at 10 points each, and drops only accumulate |
| TetrisGame.Game.AdvanceBalls | tetris.js:940-1038 | the timers expire exactly as `Expire` says, an expired wide timer restores the paddle, every ball is in flight, stuck or lost, counting a ball released by an expired sticky timer; bricks only decrease, at 10 points each, and drops only accumulate |
| TetrisGame.Game.TimedChecks | tetris.js:1040-1076 | with a ball left: time up exactly when 30 s have passed, with the score unchanged; otherwise the drops are dealt with and the round ends as an all-clear exactly when no brick is left; the score rises by the caught drops' points, plus 2000 on an all-clear; the time left is recomputed from the clock |
| TetrisGame.Game.CheckClock | tetris.js:1041 | the time left is the limit less the time since the round started, never below zero |
| TetrisGame.Game.TimeUpOrDrops | tetris.js:1042-1076 | on the fresh clock: time up exactly when 30 s have passed, flipping back with the score unchanged; otherwise the drops and then the all-clear, scored as in `DropsAndBricks` |
| TetrisGame.Game.DropsAndBricks | tetris.js:1049-1076 | the pickup pass, then the all-clear check: the round ends exactly when no brick is left; the score rises by the caught drops' points, plus 2000 on an all-clear; while the round goes on, the drops, timers and balls are those of the pickup pass |
| TetrisGame.Game.AllClearBonus | tetris.js:1072-1076 | an empty field pays 2000 points and flips back |
| TetrisGame.Game.MovePaddleTo | tetris.js:1571-1574 | a touch moves the paddle to the clamped position, always fully on screen |
| TetrisGame.Game.Frame | tetris.js:1698-1740 | a frame records its timestamp; the start and game-over screens change nothing; each mode moves only to its successor |
| TetrisGame.Game.Dispatch | tetris.js:1706-1727 | the mode dispatch keeps the game valid and each mode moves only to its successor |
| TetrisGame.Game.BreakerFrame | tetris.js:1713-1719 | the held arrow key moves the paddle eight pixels, clamped at the width in force before the tick; the round then ends exactly as `UpdateBreaker` states (lost ball, timeout, all-clear, in that order, with the same score facts), stays in the breaker with a ball, bricks and time left, or flips back with the board rebuilt; bricks never come back |
| PacmanMaze.TemplatePlayable | pacman.js:15-37 | the maze is 21 x 19, the tunnel rows are open at both ends, and the start tile is passable |
| PacmanMaze.DerivedPlayable | pacman.js:689-703 | a maze with some dots eaten is as playable as the layout, with the same passable tiles |
| PacmanMaze.EatKeepsDerived | pacman.js:228-252 | eating a dot leaves the maze a partly eaten copy of the layout |
| PacmanMaze.CountDotsZero | pacman.js:689-703 | the dot count is zero exactly when no dot or pellet is left |
| PacmanMaze.CountDotsEat | pacman.js:228-252 | eating a dot or pellet lowers the dot count by exactly one |
| PacmanMaze.RowDotsEat | pacman.js:231-241 | eating a dot or pellet in a row lowers its dot count by one |
| PacmanMaze.CanMove | pacman.js:146-160 | a step is allowed exactly onto an open tile: any column off the sides is the tunnel, a row off the maze is closed |
| PacmanMaze.Steer | pacman.js:178-202 | at a centre the queued direction wins when it can be taken, else the current one is kept, else the player stops |
| PacmanMaze.Advance | pacman.js:205-222 | moving keeps the heading; off the left edge the player reappears at the right, and the reverse |
| PacmanMaze.CentreTest | pacman.js:178-202 | on the 4-pixel lattice the "near the centre" test holds exactly at the centre |
| PacmanMaze.LatticeStep | pacman.js:205-222 | one 4-pixel step stays on the lattice and crosses at most one tile centre |
| PacmanMaze.TrackedTileOpen | pacman.js:162-226 | a player on track stands on a passable tile inside the maze, or in the tunnel |
| PacmanMaze.FromCentre | pacman.js:178-222 | leaving a centre on an allowed heading keeps the player on track |
| PacmanMaze.BetweenColumns | pacman.js:205-222 | a step between columns, including the tunnel wrap, keeps the player on track |
| PacmanMaze.BetweenRows | pacman.js:205-222 | a step between rows keeps the player on track |
| PacmanMaze.StartOnTrack | pacman.js:128-140 | the start position is on track |
| PacmanMaze.EatKeepsTrack | pacman.js:228-252 | eating a dot does not knock the player off track |
| PacmanMaze.StepKeepsTrack | pacman.js:162-226 | a whole update of the player keeps it on the tile lattice, on passable tiles, never inside a wall |
| PacmanMaze.Candidates | pacman.js:433-448 | a ghost's candidates are exactly the allowed directions: open for ghosts and not a reversal |
| PacmanMaze.CandidatesInOrder | pacman.js:433-448 | the candidates keep the order up, down, left, right |
| PacmanMaze.Distances | pacman.js:470-480 | each candidate's key is its squared distance to the target |
| PacmanMaze.FirstMin | pacman.js:470-480 | the stable sort's head is the first candidate of least distance |
| PacmanMaze.FirstMax | pacman.js:457-467 | the descending sort's head is the first candidate of greatest distance |
| PacmanMaze.SortedNearest | pacman.js:470-480 | the head after sorting is allowed, and no allowed direction is nearer |
| PacmanMaze.SortedFarthest | pacman.js:457-467 | the head after sorting is allowed, and no allowed direction is farther |
| PacmanMaze.ChoiceSpec | pacman.js:424-505 | a stuck ghost reverses; otherwise it takes an allowed direction: farthest from the player when scared, nearest to the player when chasing, nearest to four tiles ahead of the player when ambushing |
| PacmanGame.Player.constructor | pacman.js:123-126 | a new player is at the start tile, standing still, not powered |
| PacmanGame.Player.Reset | pacman.js:128-140 | reset puts the player at the start tile, standing still, not powered |
| PacmanGame.Player.SetDirection | pacman.js:142-144 | a key press queues the direction |
| PacmanGame.Player.PowerUp | pacman.js:242-243 | a pellet powers the player for 8 s |
| PacmanGame.Player.Update | pacman.js:162-226 | the player steps as the track-keeping step function says, and the power timer runs down and ends at zero |
| PacmanGame.Player.SnapAndSteer | pacman.js:178-202 | near a centre the player snaps to it and steers; elsewhere nothing changes |
| PacmanGame.Player.Move | pacman.js:205-222 | the move and tunnel wrap |
| PacmanGame.Ticked | pacman.js:345-363 | a ghost in the house counts down its exit delay and jumps to the exit row once it runs out; outside, its fright counts down and ends at zero |
| PacmanGame.Ghost.constructor | pacman.js:324-329 | a new ghost is at home with its index and behaviour |
| PacmanGame.Ghost.Reset | pacman.js:331-343 | reset puts the ghost home, unscared, with its staggered exit delay |
| PacmanGame.ExitAfterDelay | pacman.js:345-355 | a ghost in the house leaves exactly once its frames add up to its exit delay, landing on the exit row; until then the delay holds what is left |
| PacmanGame.FrightLasts | pacman.js:357-363 | a scared ghost out of the house stays scared exactly while its frames add up to less than its fright timer |
| PacmanGame.StaysOut | pacman.js:345-355 | a ghost out of the house never returns to it and keeps its row and exit delay under the timers |
| PacmanGame.CalmStaysCalm | pacman.js:357-363 | the timers leave a calm ghost out of the house unchanged |
| PacmanGame.ElapsedNonNegative | pacman.js:345-363 | frames of non-negative length add up to a non-negative time |
| PacmanGame.Ghost.Tick | pacman.js:345-363 | the ghost's exit delay and fright timers move exactly as `Ticked` says: the exit at the end of the delay, fright ending at zero |
| PacmanGame.Ghost.ChooseDirection | pacman.js:424-505 | the ghost heads where the choice function says |
| PacmanGame.ThreatIsFirst | pacman.js:771-792 | the collision loop stops at the first ghost in contact that is not scared, and there is none exactly when no such ghost exists |
| PacmanGame.SweptMeetsFirst | pacman.js:771-792 | the ghosts before the stop are eaten if scared and in contact; those after it are untouched |
| PacmanGame.Swept | pacman.js:771-792 | the first n ghosts are eaten when scared and in contact, the rest are kept, and the count is unchanged |
| PacmanGame.LevelCheck | pacman.js:815-819 | the level is complete exactly when all dots are eaten, and only while playing |
| PacmanGame.GameOverOverwritten | pacman.js:815-819 | as written, a game that ended on the tick of its last dot is turned into a completed level; the corrected check keeps it over |
| PacmanGame.Game.LevelCompleteIffCleared | pacman.js:815-819 | the collected count reaches the total exactly when no dot or pellet is left in the maze |
| PacmanGame.Game.constructor | pacman.js:548-573 | the menu: score 0, three lives, level 1, the stored high score |
| PacmanGame.Game.InitMaze | pacman.js:689-703 | the maze is a fresh copy of the layout and the total is its dot count |
| PacmanGame.Game.ResetGhosts | pacman.js:331-343 | every ghost goes home |
| PacmanGame.Game.StartGame | pacman.js:705-721 | a new game: playing, score 0, three lives, level 1, a fresh maze, the player at the start and four ghosts at home with their behaviours |
| PacmanGame.Game.NewRun | pacman.js:706-709 | mode playing, score 0, three lives and level 1 |
| PacmanGame.Game.NewActors | pacman.js:713-714 | a new player at the start and four new ghosts at home, ghost i with the i-th behaviour |
| PacmanGame.Game.NewGhosts | pacman.js:705-721 | the four ghosts are chase, ambush, random and patrol, each at home |
| PacmanGame.Game.CollectDot | pacman.js:228-252 | a dot pays 10 and a pellet 50; either is removed and counted; a pellet powers the player and scares every ghost; other tiles change nothing; afterwards no dot remains under the player |
| PacmanGame.Game.EatPellet | pacman.js:237-250 | a pellet is removed, pays 50, powers the player and scares every ghost |
| PacmanGame.Game.EatAt | pacman.js:231-235 | a dot is removed and counted and its points paid |
| PacmanGame.Game.ScareGhosts | pacman.js:246-249 | every ghost is scared for 8 s |
| PacmanGame.Game.GameOver | pacman.js:755-769 | the game ends with the high score the best of old and current |
| PacmanGame.Game.LoseLife | pacman.js:742-753 | one life fewer; at zero the game is over, otherwise the player and ghosts restart |
| PacmanGame.Game.Respawn | pacman.js:748-751 | the player and the ghosts go back to their starts |
| PacmanGame.Game.CheckCollisions | pacman.js:771-792 | scared ghosts in contact are eaten for 200 each until the first unscared contact, which costs a life and stops the loop |
| PacmanGame.Game.FeastUntilThreat | pacman.js:772-791 | the loop eats scared ghosts in order and stops at the first threat |
| PacmanGame.Game.CatchGhost | pacman.js:779-783 | one scared ghost in contact is eaten for 200 |
| PacmanGame.Game.EatGhost | pacman.js:780-783 | the ghost is marked eaten and 200 points paid |
| PacmanGame.Game.ThreatFound | pacman.js:784-787 | a first unscared contact is the loop's stop |
| PacmanGame.Game.Update | pacman.js:806-822 | outside play nothing changes; a tick ends playing, over or complete, and complete exactly when every dot is gone, even if the same tick lost the last life (as written) |
| PacmanGame.Game.CheckLevel | pacman.js:815-819 | the level check as written: every dot gone makes the level complete, even after the game is over; otherwise the mode stays |
| PacmanGame.Game.MovePlayer | pacman.js:162-252 | the player steps on the current maze, its power timer ticking; on the tile reached a dot pays 10 and a pellet 50, either is removed and counted; a pellet powers the player for 8 s and scares every ghost; any other tile leaves maze, score, count and ghosts unchanged |
| PacmanGame.Game.StepPlayer | pacman.js:162-224 | the player's step and power-timer tick keep the game valid |
| PacmanGame.Game.TickGhosts | pacman.js:806-822 | every ghost's timers advance |
| PacmanGame.Game.NextLevel | pacman.js:723-740 | the next level: level up by one, a fresh maze, actors back at their starts |
| PacmanGame.Game.ResumePlay | pacman.js:736-739 | play resumes after the pause |
| ShooterRules.Volley | shooter.js:433-519 | a shot adds as many bullets as the weapon's bullet count, each of that weapon |
| ShooterRules.NewEnemy | shooter.js:691-709 | an enemy starts at its kind's full health and points, not a boss |
| ShooterRules.Boss | shooter.js:1235-1246 | the n-th boss has 20 + 10 (n - 1) health and pays 500 + 200 (n - 1) |
| ShooterRules.AvailableKinds | shooter.js:1214-1218 | one enemy kind is available at the start and one more at each of difficulties 1, 2 and 3 |
| ShooterRules.Damaged | shooter.js:828-833 | a hit lowers health by the damage and keeps everything else |
| ShooterRules.Hit | shooter.js:1353-1373 | a hit enemy is either removed or kept damaged |
| ShooterRules.Splice | shooter.js:1348-1350 | a splice replaces one element |
| ShooterRules.SpliceSlices | shooter.js:1348-1350 | a splice keeps everything before and after the element |
| ShooterRules.SumPointsHitAt | shooter.js:1353-1373 | the points on the field fall by exactly what the hit pays |
| ShooterRules.SumPointsSplice | shooter.js:1372 | splicing an enemy out lowers the points on the field by that enemy's points |
| ShooterRules.LastTouch | shooter.js:1340-1346 | the backward loop meets the last overlapping enemy first, and there is none exactly when no enemy overlaps |
| ShooterRules.StrikeStopsAtFirst | shooter.js:1340-1376 | a non-laser bullet hits only the first enemy the backward loop meets, and nothing when none overlaps |
| ShooterRules.StrikeLaserHitsAll | shooter.js:1340-1376 | a laser hits every enemy it overlaps |
| ShooterRules.StrikeConserves | shooter.js:1340-1376 | the points paid equal the points removed from the field |
| ShooterRules.SweepKeepsPiercers | shooter.js:1337-1378 | laser, piercing and plasma bullets are never used up by hits |
| ShooterRules.StepKeepsPiercers | shooter.js:1338-1377 | one bullet's pass keeps every laser, piercing and plasma bullet |
| ShooterRules.PiercersRemove | shooter.js:1348-1350 | using up an ordinary bullet leaves the piercing ones as they were |
| ShooterRules.SweepConserves | shooter.js:1337-1378 | over the whole collision pass, score plus the points on the field is unchanged |
| ShooterRules.StepConserves | shooter.js:1338-1377 | one bullet's pass keeps score plus the points on the field, and never raises the boss flag |
| ShooterRules.SweepBossFlag | shooter.js:1359-1361 | the collision pass never raises the boss flag |
| ShooterRules.SweepKeepsBossFlag | shooter.js:1359-1361 | with no boss on the field the flag is untouched |
| ShooterRules.StrikeNoBoss | shooter.js:1359-1361 | with no boss on the field no boss goes down and none appears |
| ShooterRules.DifficultyStep | shooter.js:1263-1271 | after 15 s the difficulty rises by one, capped at 10, and the clock mark moves; before that nothing changes |
| ShooterRules.DifficultyPace | shooter.js:1263-1271 | the difficulty stays within its cap and never rises faster than one step per 15 s |
| ShooterRules.DefaultUnlocked | shooter.js:1108-1114 | with nothing saved the fighter and the warrior are unlocked |
| ShooterRules.UnlockedSpec | shooter.js:1120-1134 | the unlock pass extends the list, unlocks exactly the characters whose score requirement is met, and never duplicates one |
| ShooterPlayer.Fire | shooter.js:433-519 | a shot before the fire rate allows changes nothing; otherwise the shot time is recorded and a full volley of the weapon fires, or nothing when it is out of ammunition; the ammunition invariant is kept |
| ShooterPlayer.AmmoLasts | shooter.js:437-450 | a special weapon with n rounds fires exactly n volleys, and the next shot reverts to the basic weapon with unlimited ammunition |
| ShooterPlayer.Countdown | shooter.js:412-426 | an inactive timer is left alone |
| ShooterPlayer.CountdownIdle | shooter.js:412-426 | an inactive timer stays inactive over any number of ticks |
| ShooterPlayer.TimerLasts | shooter.js:412-426 | a timer started at d stays active exactly while the elapsed time is below d, with d minus the elapsed time left |
| ShooterPlayer.Player.constructor | shooter.js:375-391 | a player starts with three hearts, the basic weapon, unlimited ammunition and no shield |
| ShooterPlayer.Player.SetWeapon | shooter.js:393-396 | a new weapon comes with its full ammunition |
| ShooterPlayer.Player.Shoot | shooter.js:433-519 | the gun and volley are those of the firing function |
| ShooterPlayer.Player.TakeDamage | shooter.js:521-536 | while invincible or shielded nothing happens; otherwise one heart is lost, invincibility starts for 1.5 s, and death is reported exactly at zero hearts |
| ShooterPlayer.Player.ActivateShield | shooter.js:538-541 | the shield runs for the given time |
| ShooterPlayer.Player.Tick | shooter.js:412-426 | the shield and invincibility timers count down |
| ShooterPlayer.Player.Update | shooter.js:402-431 | a tick runs both timers down and fires, keeping health |
| ShooterGame.Survivors | shooter.js:1381-1399 | the enemies that did not ram the player are kept |
| ShooterGame.Game.constructor | shooter.js:951-985 | the menu: score 0, difficulty 0, no boss, the saved or default unlock list |
| ShooterGame.Game.StartGame | shooter.js:1136-1160 | a new game: a fresh player with three hearts and the basic weapon, an empty field, the clocks at now |
| ShooterGame.Game.GameOver | shooter.js:1177-1193 | the game ends with the best high score, and the characters the score earned are unlocked |
| ShooterGame.Game.CheckUnlocks | shooter.js:1120-1134 | the unlock pass |
| ShooterGame.Game.AppendEarned | shooter.js:1122-1128 | the character loop appends what the unlock function says |
| ShooterGame.Game.SpawnEnemy | shooter.js:1195-1224 | a due boss comes first; with the boss present an enemy may be held back; otherwise after the spawn interval one enemy of an available kind is added |
| ShooterGame.Game.SpawnBoss | shooter.js:1226-1229 | the boss flag rises and the next threshold is armed |
| ShooterGame.Game.BossArrives | shooter.js:1235-1247 | the scaled boss joins the field |
| ShooterGame.Game.UpdateDifficulty | shooter.js:1263-1271 | the difficulty and its clock mark change exactly as `DifficultyStep` says: one level per 15 s, capped at 10 |
| ShooterGame.Game.ClearAllEnemies | shooter.js:1273-1280 | every enemy is removed and its points paid |
| ShooterGame.Game.ApplyPowerUp | shooter.js:909-945 | a weapon drop re-arms, health heals up to the cap, max-health raises both, a shield runs 5 s, a gem pays 500, a bomb clears the field for its points; only a weapon drop touches the weapon and ammunition, only a shield touches the shield |
| ShooterGame.Game.BulletHits | shooter.js:1337-1378 | the collision pass leaves the board the sweep function computes |
| ShooterGame.Game.SweepBullets | shooter.js:1337-1378 | the backward bullet loop computes the sweep |
| ShooterGame.Game.HitWithBullet | shooter.js:1338-1377 | one bullet's pass is one sweep step |
| ShooterGame.Game.StrikeEnemies | shooter.js:1340-1376 | the backward enemy loop computes the strike |
| ShooterGame.Game.RamCheck | shooter.js:1381-1399 | with no rammer, or a ship invincible or shielded, the health is unchanged; otherwise the ship loses exactly one heart and turns invincible for 1.5 s, and the game is over exactly when no health is left, with only the last rammer removed, the high score kept and the characters the score earns unlocked; otherwise every rammer is gone and the high score and unlocks are unchanged |
| ShooterGame.Game.Ram | shooter.js:1381-1399 | the ram loop from the last enemy: with no rammer, or a protected ship, nothing is hurt and every rammer goes; otherwise one heart is lost, and a death stops the loop at the last rammer in the list, which alone is removed |
| ShooterGame.SurvivorsNoRam | shooter.js:1381-1399 | with no rammer in the list every enemy stays |
| PinballRules.RaiseBank | pinball.js:533-536 | resetting a bank raises its five targets and leaves the other bank alone |
| PinballRules.Award | pinball.js:1294-1322 | a completed bank pays 5000 at the multiplier, raises the multiplier by one up to five, restarts its timer and is reset; otherwise nothing changes |
| PinballRules.Bonuses | pinball.js:1294-1322 | after the bonus check neither bank is left fully down |
| PinballRules.BothBanksPay | pinball.js:1294-1322 | when both banks fall together both bonuses are paid, the second at the raised multiplier |
| PinballRules.Latch | pinball.js:572-592 | a target already down ignores the ball; a hit keeps the table steady |
| PinballRules.LatchWithoutBonus | pinball.js:572-592 | a hit that does not complete a bank pays 200 at the multiplier and latches the target |
| PinballRules.Touch | pinball.js:1408-1454 | any contact keeps the table steady |
| PinballRules.PlaySteady | pinball.js:1408-1454 | a tick's contacts keep the table steady |
| PinballRules.PlayNeverLoses | pinball.js:1408-1454 | contacts never lower the score |
| PinballRules.TimerStep | pinball.js:1388-1394 | the multiplier timer ticks without touching score or targets |
| PinballRules.TimerIdle | pinball.js:1388-1394 | an idle timer stays idle |
| PinballRules.MultiplierLasts | pinball.js:1388-1394 | a multiplier lasts exactly its timer's ticks, then drops to 1 |
| PinballRules.Retract | pinball.js:757-765 | a plunger not released stays put |
| PinballRules.RetractIdle | pinball.js:757-765 | a plunger not released stays put over any number of ticks |
| PinballRules.PlungerReturns | pinball.js:757-765 | a released plunger returns 8 units per tick and rests at zero |
| PinballRules.Pulled | pinball.js:747-750 | a pull never goes past the plunger's travel |
| PinballRules.KeyPullsLaunch | pinball.js:1211 | n key presses pull 4n units up to 120, and launch needs at least two presses |
| PinballRules.DrainTick | pinball.js:1457-1460 | the corrected drain removes the ball: one ball fewer, game over at zero |
| PinballRules.DrainTickAsWritten | pinball.js:1457-1460 | the drain as written: one ball fewer but the ball stays on the table |
| PinballRules.DrainEndsGameAsWritten | pinball.js:1457-1460 | as written, a ball resting below the drain ends the game within as many ticks as balls left |
| PinballRules.DrainOverAsWritten | pinball.js:1457-1460 | once over, further drains as written change nothing |
| PinballRules.FirstDrainEndsGameAsWritten | pinball.js:1457-1460 | as written, a new game's first ball below the drain for three ticks ends the game |
| PinballRules.DrainIdle | pinball.js:1457-1460 | without a ball in play the drain does nothing |
| PinballRules.DrainOncePerBall | pinball.js:1457-1460 | corrected, a ball below the drain costs exactly one ball however long it stays |
| PinballGame.Plunger.constructor | pinball.js:737-745 | a new plunger rests unpulled |
| PinballGame.Plunger.Pull | pinball.js:747-750 | the pull is clamped to the plunger's travel |
| PinballGame.Plunger.Release | pinball.js:752-755 | release starts the return |
| PinballGame.Plunger.Update | pinball.js:757-765 | the plunger moves exactly as `Retract` says, returning 8 units a tick once released and resting at zero |
| PinballGame.Game.constructor | pinball.js:1023-1045 | the menu: three balls, multiplier 1, every target up |
| PinballGame.Game.StartGame | pinball.js:1247-1264 | a new game: score 0, three balls, multiplier 1, every target up, the first ball in the launch lane |
| PinballGame.Game.PrepareBall | pinball.js:1266-1270 | a ball waits in the lane with the plunger at rest |
| PinballGame.Game.LaunchBall | pinball.js:1272-1282 | the ball launches exactly when one is waiting with at least 5 % power; the game is then in play |
| PinballGame.Game.AddScore | pinball.js:1284-1292 | points count at the multiplier |
| PinballGame.Game.HitTarget | pinball.js:572-592 | a target registers only while up and then stays down |
| PinballGame.Game.BankComplete | pinball.js:1296-1297 | the check says whether the whole bank is down |
| PinballGame.Game.ResetBank | pinball.js:533-536 | the bank's targets rise |
| PinballGame.Game.AwardBank | pinball.js:1294-1307 | one bank's bonus as `Award` computes it: 5000 at the multiplier, the multiplier raised up to 5, the timer at 600, the bank raised |
| PinballGame.Game.CheckBonuses | pinball.js:1294-1322 | both banks are checked in order as `Bonuses` computes, so neither is left fully down |
| PinballGame.Game.TouchOne | pinball.js:1408-1454 | one contact changes score, targets and multiplier exactly as `Touch` computes |
| PinballGame.Game.Collide | pinball.js:1408-1454 | a tick's contacts score in order and keep the table steady |
| PinballGame.Game.GameOver | pinball.js:1340-1346 | the game ends with the best high score |
| PinballGame.Game.DrainBall | pinball.js:1324-1338 | a drain as written: one ball and the multiplier are lost, the game ends after the last with the best high score, and the ball stays on the table |
| PinballGame.Game.CountDown | pinball.js:1388-1394 | the multiplier timer ticks |
| PinballGame.Game.Tick | pinball.js:1370-1469 | outside a round nothing changes; in a round the plunger and the timer tick, and a ball in play scores its contacts and, below the drain line, drains as written on every such tick |

## Left out

- Drawing, animation, sound, particles, floating texts, pop-ups, notifications, the HUD and page elements are not modelled in any of the four games, and neither is `localStorage`. Stored high scores and saved unlock lists are constructor parameters.
- Random draws, clock readings and the outcome of continuous geometry are parameters of the model. The geometry covers ball physics, overlaps, flippers, bumpers, slingshots and gears.
- Flip-block game:
  - the clear animation's progress;
  - touch-swipe decoding and key-up handling;
  - the ball physics inside `updateBreaker`, apart from which bricks a ball touches and whether it falls;
  - the layout arithmetic apart from the paddle.
- Flip-block game: after a breaker round `level++` raises the level by one. The next line clear recomputes the level from the line total, which can lower it again. The model reproduces this behaviour rather than correcting it.
- Pac-Man:
  - the ghosts' floating-point movement and speeds, the per-level speed change, and the path an eaten ghost takes home;
  - the random ghost's pick, which is a parameter;
  - which ghosts touch the player, which is a parameter.
- Shooter:
  - movement and steering physics;
  - enemy bullets and enemy shooting;
  - the random power-up spawn and the pickup loop;
  - burst timing, pause and resume, character selection, and the bomb's jump-scare effect.
- Shooter: the frame composition in `Game.update` is not modelled as one method. Its parts are: `UpdateDifficulty`, `SpawnEnemy`, `Player.Update`, `BulletHits` and `RamCheck`.
- Shooter: the order in which the bullet list is spliced is modelled. The screen positions of bullets are not.
- Pinball:
  - the physics sub-steps, apart from the ordered contacts and the drain test;
  - the delay before `prepareBall`, which is the explicit method `PrepareBall`;
  - the table geometry built in the constructor. The drop targets are a ten-flag array.
- PinballGame.Plunger.constructor: requires a positive travel, which the game always passes, because the launch power divides by it.
- TetrisGame.Game.UpdateTetris: states only the frozen case and which modes a tick can reach. The gravity and repeat effects are stated by `GravityTick` and `RepeatMove`.
- TetrisGame.Game.MoveBalls: states how balls, bricks, score and drops are accounted for, not the exact field. The exact field after one ball's brick check is the contract of `MoveBall`, `HitBricks` and `CheckBrickCollision`.
- TetrisGame.Game.MoveAllBalls: states the same accounting as `MoveBalls`, not the exact field.
- TetrisGame.Game.AdvanceBalls: states the timers, the paddle width and the ball accounting exactly, and for bricks, score and drops only the accounting of `MoveBalls`.
- TetrisGame.Game.Dispatch: states the mode transitions, not the full new state of each mode. The full state is stated by `UpdateTetris`, `BreakerFrame` and `UpdateFlip`.
- TetrisGame.Game.BreakerFrame: states the paddle, the round-end facts, the score facts of `UpdateBreaker` (a lower bound when the round goes on or ends in an all-clear) and the brick count, not the exact field, drops and timers. Those are stated by `UpdateBreaker`'s parts.
- TetrisGame.Game.UpdateBreaker: one clock reading `now` stands for the separate `performance.now()` readings of the expiry step (tetris.js:937), the time check (tetris.js:1041) and each power-up activation (tetris.js:1157); the model does not capture their drift within a tick.
- TetrisGame.Game.UpdateBreaker: on a round that goes on or ends in an all-clear, the score is stated only as a lower bound (bricks plus bonus), not with the exact points of the caught drops. The drops caught are those falling after the balls moved, and that list is stated only as an extension of the list before (`MoveBalls`); the exact points are stated by `TimedChecks` and `DropsAndBricks` for the list they start from.
- TetrisGame.Game.Frame: states the mode transitions, not the full new state of each mode. The full state is stated by `UpdateTetris`, `UpdateBreaker` and `UpdateFlip`.
- PacmanGame.Game.Valid: promises only that an ended game has no lives left, not that a game in play has some. As written, the last life lost on the tick of the last dot gives a completed level, and play then resumes with no lives (see Findings).
- PacmanGame.Game.Update: states the mode outcome. The player's, the ghosts' and the score's changes are stated by `MovePlayer` (the step and the tile eaten), `TickGhosts` and `CheckCollisions`.

## Findings

| source | as written | input that shows it | evidently intended | confidence | as-written member | corrected member |
|---|---|---|---|---|---|---|
| tetris.js:618-621 | cleared rows are spliced in decreasing order from the board as it shifts, with an empty row unshifted after each | rows 18 and 19 full: after row 19 is removed, the old row 18 sits at index 19, and index 18 then removes the old row 17, so a full row stays on the board | every listed row is removed and all others keep their order | not executed | TetrisGrid.TwoFullRowsCounterexample | TetrisGrid.RemoveRowsClearsAll |
| pacman.js:815-819 | the level-complete check runs even when the collision check of the same tick has already ended the game | the last life lost on the tick the last dot is eaten: the game becomes a completed level instead of over | the check applies only while play goes on | not executed | PacmanGame.GameOverOverwritten | PacmanGame.LevelCheck |
| pinball.js:1457-1460 | a drained ball is not taken off the table, so the drain test fires again on every later tick | a new game whose first ball stays below the drain line for three ticks: all three balls are lost and the game is over; the one-second `prepareBall` timers queued by the earlier drains (pinball.js:1331-1335) still fire after the game is over and set the state back to launching with a fresh ball | one drain per ball | not executed | PinballRules.FirstDrainEndsGameAsWritten | PinballRules.DrainOncePerBall |

The game classes reproduce the code as written: `TetrisGame.Game.RemoveClearedRows`, `PacmanGame.Game.CheckLevel` and `PinballGame.Game.DrainBall`. The corrected behaviour is defined and proved in the rules modules.

The round-end order is a lost ball, then a timeout, then an all-clear (tetris.js:1034-1076).

