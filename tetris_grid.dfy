/**
 * The placement board of the falling-block game: its dimensions and scoring
 * constants, the cell type, the tetromino shape and wall-kick tables, the
 * placement validity test, the full-row scan and the two row-removal
 * procedures (the one the game runs and the one it evidently intends).
 */
module TetrisGrid {
  import opened Common

  const COLS: int := 10
  const ROWS: int := 20
  const BASE_DROP_INTERVAL: int := 800
  const MIN_DROP_INTERVAL: int := 80
  const SPEED_DECREASE_PER_LEVEL: int := 60
  const LINES_PER_LEVEL: int := 10
  const SCORE_1_LINE: int := 100
  const SCORE_2_LINES: int := 300
  const SCORE_3_LINES: int := 500
  const SCORE_4_LINES: int := 800
  const PIECE_KINDS: int := 7

  /**
   * A board cell. The source stores `{ type, color, emoji }`; colour and emoji
   * are both fixed by the piece type (the emoji table has seven distinct
   * entries and the type is recovered from it with `indexOf`), so the type
   * alone carries the cell's content.
   */
  datatype Cell = Empty | Block(kind: nat)

  type Row = seq<Cell>
  type Grid = seq<Row>

  /** A (row, column) pair; shape cells are (dRow, dCol). */
  type Offset = (int, int)

  ghost predicate WellFormed(g: Grid) {
    |g| == ROWS && forall r :: 0 <= r < |g| ==> |g[r]| == COLS
  }

  function EmptyRow(): (row: Row)
    ensures |row| == COLS
  {
    seq(COLS, _ => Empty)
  }

  function EmptyGrid(): Grid { seq(ROWS, _ => EmptyRow()) }

  predicate IsFull(row: Row) { forall c :: 0 <= c < |row| ==> row[c] != Empty }

  // ---------------------------------------------------------------------------
  // Shape and kick tables, entry for entry as the source lists them.
  // ---------------------------------------------------------------------------

  /** SHAPES[type][rotation] is the list of (dRow, dCol) cells of the piece. */
  const SHAPES: seq<seq<seq<Offset>>> := [
    // I
    [ [(0,0),(0,1),(0,2),(0,3)],
      [(0,0),(1,0),(2,0),(3,0)],
      [(0,0),(0,1),(0,2),(0,3)],
      [(0,0),(1,0),(2,0),(3,0)] ],
    // O
    [ [(0,0),(0,1),(1,0),(1,1)],
      [(0,0),(0,1),(1,0),(1,1)],
      [(0,0),(0,1),(1,0),(1,1)],
      [(0,0),(0,1),(1,0),(1,1)] ],
    // T
    [ [(0,1),(1,0),(1,1),(1,2)],
      [(0,0),(1,0),(1,1),(2,0)],
      [(0,0),(0,1),(0,2),(1,1)],
      [(0,1),(1,0),(1,1),(2,1)] ],
    // S
    [ [(0,1),(0,2),(1,0),(1,1)],
      [(0,0),(1,0),(1,1),(2,1)],
      [(0,1),(0,2),(1,0),(1,1)],
      [(0,0),(1,0),(1,1),(2,1)] ],
    // Z
    [ [(0,0),(0,1),(1,1),(1,2)],
      [(0,1),(1,0),(1,1),(2,0)],
      [(0,0),(0,1),(1,1),(1,2)],
      [(0,1),(1,0),(1,1),(2,0)] ],
    // J
    [ [(0,0),(1,0),(1,1),(1,2)],
      [(0,0),(0,1),(1,0),(2,0)],
      [(0,0),(0,1),(0,2),(1,2)],
      [(0,0),(1,0),(2,0),(2,-1)] ],
    // L
    [ [(0,2),(1,0),(1,1),(1,2)],
      [(0,0),(1,0),(2,0),(2,1)],
      [(0,0),(0,1),(0,2),(1,0)],
      [(0,0),(0,1),(1,1),(2,1)] ]
  ]

  /**
   * Kick offsets for every type but I, indexed by the rotation the piece
   * rotates FROM. Each entry is written as in the source's table and is read
   * there as `[kc, kr]`: the candidate position is (row - kr, col + kc).
   */
  const WALL_KICKS: seq<seq<Offset>> := [
    [(0,0),(-1,0),(-1,1),(0,-2),(-1,-2)],
    [(0,0),(1,0),(1,-1),(0,2),(1,2)],
    [(0,0),(1,0),(1,1),(0,-2),(1,-2)],
    [(0,0),(-1,0),(-1,-1),(0,2),(-1,2)]
  ]

  /** Kick offsets for the I piece (type 0), same layout as WALL_KICKS. */
  const I_WALL_KICKS: seq<seq<Offset>> := [
    [(0,0),(-2,0),(1,0),(-2,-1),(1,2)],
    [(0,0),(-1,0),(2,0),(-1,2),(2,-1)],
    [(0,0),(2,0),(-1,0),(2,1),(-1,-2)],
    [(0,0),(1,0),(-2,0),(1,-2),(-2,1)]
  ]

  /** The kick list consulted when a piece of `kind` rotates from `rot`. */
  function KicksFor(kind: nat, rot: nat): (ks: seq<Offset>)
    requires rot < 4
    ensures |ks| == 5 && ks[0] == (0, 0)
    ensures kind == 0 ==> ks == I_WALL_KICKS[rot]
    ensures kind != 0 ==> ks == WALL_KICKS[rot]
  {
    if kind == 0 then I_WALL_KICKS[rot] else WALL_KICKS[rot]
  }

  /**
   * Every shape has four cells and its first cell lies on the piece's anchor
   * row, so a valid placement always has its anchor above the floor.
   */
  ghost predicate ShapeOk(shape: seq<Offset>) {
    |shape| == 4 && shape[0].0 == 0
  }

  lemma ShapesOk(kind: nat, rot: nat)
    requires kind < PIECE_KINDS && rot < 4
    ensures ShapeOk(SHAPES[kind][rot])
  {
  }

  // ---------------------------------------------------------------------------
  // Placement validity
  // ---------------------------------------------------------------------------

  /** What the validity test accepts for one board coordinate. */
  predicate CellFree(g: Grid, r: int, c: int)
    requires WellFormed(g)
  {
    0 <= c < COLS && r < ROWS && (r >= 0 ==> g[r][c] == Empty)
  }

  /**
   * `isValidPosition`: walks the shape's cells in order and rejects at the
   * first one that leaves the side walls or the floor, or that lands on an
   * occupied cell of a visible row. Rows above the board (r < 0) are free.
   */
  predicate IsValidPosition(g: Grid, row: int, col: int, shape: seq<Offset>)
    requires WellFormed(g)
  {
    if shape == [] then true
    else
      var r := row + shape[0].0;
      var c := col + shape[0].1;
      if c < 0 || c >= COLS || r >= ROWS then false
      else if r >= 0 && g[r][c] != Empty then false
      else IsValidPosition(g, row, col, shape[1..])
  }

  /**
   * A placement is rejected exactly when one of its cells is outside the
   * columns, at or below the floor, or on an occupied visible cell.
   */
  lemma {:induction false} ValidPositionIff(g: Grid, row: int, col: int, shape: seq<Offset>)
    requires WellFormed(g)
    ensures IsValidPosition(g, row, col, shape) <==>
            forall i :: 0 <= i < |shape| ==> CellFree(g, row + shape[i].0, col + shape[i].1)
  {
    if shape != [] {
      ValidPositionIff(g, row, col, shape[1..]);
      assert forall i :: 1 <= i < |shape| ==> shape[i] == shape[1..][i - 1];
    }
  }

  /** Cells above the visible board never collide: only the walls matter there. */
  lemma {:induction false} HiddenCellsNeverCollide(g: Grid, h: Grid, row: int, col: int, shape: seq<Offset>)
    requires WellFormed(g) && WellFormed(h)
    requires forall i :: 0 <= i < |shape| ==> row + shape[i].0 < 0
    ensures IsValidPosition(g, row, col, shape) == IsValidPosition(h, row, col, shape)
  {
    if shape != [] {
      assert forall i :: 0 <= i < |shape| - 1 ==> shape[1..][i] == shape[i + 1];
      HiddenCellsNeverCollide(g, h, row, col, shape[1..]);
    }
  }

  /** A valid placement of a well-formed shape has its anchor row above the floor. */
  lemma ValidAboveFloor(g: Grid, row: int, col: int, shape: seq<Offset>)
    requires WellFormed(g) && ShapeOk(shape)
    requires IsValidPosition(g, row, col, shape)
    ensures row < ROWS
  {
  }

  // ---------------------------------------------------------------------------
  // Landing row (the ghost-piece row and the hard-drop target)
  // ---------------------------------------------------------------------------

  /** The row reached by moving down one row at a time while the next row is valid. */
  function LandingRow(g: Grid, row: int, col: int, shape: seq<Offset>): int
    requires WellFormed(g) && ShapeOk(shape)
    decreases ROWS - row
  {
    if IsValidPosition(g, row + 1, col, shape) then LandingRow(g, row + 1, col, shape) else row
  }

  /**
   * The landing row is at or below the start, every row passed on the way
   * down is valid, and the row below it is not.
   */
  lemma {:induction false} LandingRowSpec(g: Grid, row: int, col: int, shape: seq<Offset>)
    requires WellFormed(g) && ShapeOk(shape)
    ensures row <= LandingRow(g, row, col, shape)
    ensures !IsValidPosition(g, LandingRow(g, row, col, shape) + 1, col, shape)
    ensures forall k :: row < k <= LandingRow(g, row, col, shape) ==> IsValidPosition(g, k, col, shape)
    decreases ROWS - row
  {
    if IsValidPosition(g, row + 1, col, shape) {
      LandingRowSpec(g, row + 1, col, shape);
    }
  }

  // ---------------------------------------------------------------------------
  // Scoring and speed
  // ---------------------------------------------------------------------------

  /**
   * `(lineScores[n] || SCORE_4_LINES)`: the table gives 100/300/500/800 for
   * one to four lines; a zero entry or a missing entry falls back to 800.
   */
  function BaseLineScore(n: nat): (s: int)
    ensures n == 1 ==> s == 100
    ensures n == 2 ==> s == 300
    ensures n == 3 ==> s == 500
    ensures n == 4 ==> s == 800
    ensures n == 0 || n > 4 ==> s == 800
  {
    var table := [0, SCORE_1_LINE, SCORE_2_LINES, SCORE_3_LINES, SCORE_4_LINES];
    if n < |table| && table[n] != 0 then table[n] else SCORE_4_LINES
  }

  /** `level = floor(totalLines / LINES_PER_LEVEL) + 1`. */
  function LevelFor(totalLines: nat): (lv: int)
    ensures lv >= 1
    ensures (lv - 1) * LINES_PER_LEVEL <= totalLines < lv * LINES_PER_LEVEL
  {
    totalLines / LINES_PER_LEVEL + 1
  }

  /** `getDropInterval`: 800 ms at level 1, 60 ms faster per level, never below 80 ms. */
  function DropInterval(level: int): (ms: int)
    ensures MIN_DROP_INTERVAL <= ms
    ensures level >= 1 ==> ms <= BASE_DROP_INTERVAL
    ensures level >= 13 ==> ms == MIN_DROP_INTERVAL
    ensures 1 <= level <= 13 ==> ms == BASE_DROP_INTERVAL - (level - 1) * SPEED_DECREASE_PER_LEVEL
  {
    Max(MIN_DROP_INTERVAL, BASE_DROP_INTERVAL - (level - 1) * SPEED_DECREASE_PER_LEVEL)
  }

  /** A higher level never drops more slowly. */
  lemma DropIntervalMonotone(a: int, b: int)
    requires a <= b
    ensures DropInterval(b) <= DropInterval(a)
  {
  }

  // ---------------------------------------------------------------------------
  // Full rows
  // ---------------------------------------------------------------------------

  /** The indices below `n` of the full rows of `g`, in increasing order. */
  function FullRowsBelow(g: Grid, n: nat): seq<int>
    requires n <= |g|
  {
    if n == 0 then [] else FullRowsBelow(g, n - 1) + (if IsFull(g[n - 1]) then [n - 1] else [])
  }

  function FullRows(g: Grid): (lines: seq<int>)
    ensures WellFormed(g) ==> RowsInRange(lines) && RowsInRange(Reverse(lines))
  {
    FullRowsBelowSpec(g, |g|);
    FullRowsBelow(g, |g|)
  }

  /** The scan lists exactly the full rows, each once, in increasing order. */
  lemma {:induction false} FullRowsBelowSpec(g: Grid, n: nat)
    requires n <= |g|
    ensures forall i :: 0 <= i < |FullRowsBelow(g, n)| ==> 0 <= FullRowsBelow(g, n)[i] < n
    ensures forall i, j :: 0 <= i < j < |FullRowsBelow(g, n)| ==> FullRowsBelow(g, n)[i] < FullRowsBelow(g, n)[j]
    ensures forall r :: 0 <= r < n ==> (r in FullRowsBelow(g, n) <==> IsFull(g[r]))
    ensures |FullRowsBelow(g, n)| <= n
  {
    if n > 0 {
      FullRowsBelowSpec(g, n - 1);
    }
  }

  // ---------------------------------------------------------------------------
  // Row removal
  // ---------------------------------------------------------------------------

  /** `grid.splice(r, 1); grid.unshift(emptyRow)`. */
  function RemoveRowAt(g: Grid, r: int): Grid
    requires 0 <= r < |g|
  {
    [EmptyRow()] + g[..r] + g[r + 1..]
  }

  /**
   * One splice-then-unshift: the new top row is empty, the rows above `r`
   * move down by one, the rows below `r` stay where they were, and the board
   * stays ROWS x COLS.
   */
  lemma RemoveRowAtSpec(g: Grid, r: int)
    requires WellFormed(g) && 0 <= r < ROWS
    ensures WellFormed(RemoveRowAt(g, r))
    ensures RemoveRowAt(g, r)[0] == EmptyRow()
    ensures forall k :: 0 <= k < r ==> RemoveRowAt(g, r)[k + 1] == g[k]
    ensures forall k :: r < k < ROWS ==> RemoveRowAt(g, r)[k] == g[k]
  {
  }

  predicate RowsInRange(rows: seq<int>) {
    forall i :: 0 <= i < |rows| ==> 0 <= rows[i] < ROWS
  }

  /**
   * The removal the source performs: for each index of `desc` in turn (the
   * cleared rows sorted in decreasing order), splice that index out of the
   * CURRENT board and unshift an empty row. After the first step every index
   * above the removed row refers to the row that used to be one higher.
   */
  function RemoveRowsAsWritten(g: Grid, desc: seq<int>): (r: Grid)
    requires WellFormed(g) && RowsInRange(desc)
    ensures WellFormed(r)
    decreases |desc|
  {
    if desc == [] then g
    else
      RemoveRowAtSpec(g, desc[0]);
      RemoveRowsAsWritten(RemoveRowAt(g, desc[0]), desc[1..])
  }

  /**
   * With two cleared rows a < b, the second splice removes the row that was
   * at a - 1 (or the fresh empty row when a = 0): the original row a, which
   * was full, survives one row lower.
   */
  lemma TwoRowRemovalKeepsFullRow(g: Grid, a: int, b: int)
    requires WellFormed(g) && 0 <= a < b < ROWS
    ensures RemoveRowsAsWritten(g, [b, a])[a + 1] == g[a]
  {
    RemoveRowAtSpec(g, b);
    var g1 := RemoveRowAt(g, b);
    assert g1[a + 1] == g[a];
    RemoveRowAtSpec(g1, a);
    var g2 := RemoveRowAt(g1, a);
    assert g2[a + 1] == g1[a + 1];
    assert [b, a][1..] == [a];
    assert RemoveRowsAsWritten(g1, [a]) == RemoveRowsAsWritten(g2, []);
  }

  /** The rows of `g` whose index is not in `rows`, in their original order. */
  function KeptRows(g: Grid, rows: seq<int>, n: nat): (kept: seq<Row>)
    requires n <= |g|
    ensures |kept| <= n
  {
    if n == 0 then [] else KeptRows(g, rows, n - 1) + (if n - 1 in rows then [] else [g[n - 1]])
  }

  /**
   * The removal the line clear evidently intends: drop every listed row and
   * put one empty row on top for each.
   */
  function RemoveRows(g: Grid, rows: seq<int>): Grid
  {
    var kept := KeptRows(g, rows, |g|);
    seq(|g| - |kept|, _ => EmptyRow()) + kept
  }

  /** A row survives the intended removal only when it is not listed. */
  lemma {:induction false} KeptRowsNotFull(g: Grid, rows: seq<int>, n: nat)
    requires WellFormed(g) && n <= |g|
    requires forall j :: 0 <= j < n && IsFull(g[j]) ==> j in rows
    ensures forall k :: 0 <= k < |KeptRows(g, rows, n)| ==>
              |KeptRows(g, rows, n)[k]| == COLS && !IsFull(KeptRows(g, rows, n)[k])
  {
    if n > 0 {
      KeptRowsNotFull(g, rows, n - 1);
    }
  }

  /**
   * After the intended removal of exactly the full rows, the board keeps its
   * size and no row of it is full.
   */
  lemma RemoveRowsClearsAll(g: Grid)
    requires WellFormed(g)
    ensures WellFormed(RemoveRows(g, FullRows(g)))
    ensures forall k :: 0 <= k < ROWS ==> !IsFull(RemoveRows(g, FullRows(g))[k])
  {
    FullRowsBelowSpec(g, |g|);
    forall k | 0 <= k < ROWS
      ensures |RemoveRows(g, FullRows(g))[k]| == COLS && !IsFull(RemoveRows(g, FullRows(g))[k])
    {
      RemoveRowsRow(g, FullRows(g), k);
    }
  }

  /** Row k after removing a list that names every full row: full width, and not full. */
  lemma RemoveRowsRow(g: Grid, rows: seq<int>, k: int)
    requires WellFormed(g) && 0 <= k < ROWS
    requires forall j :: 0 <= j < |g| && IsFull(g[j]) ==> j in rows
    ensures |RemoveRows(g, rows)| == ROWS
    ensures |RemoveRows(g, rows)[k]| == COLS && !IsFull(RemoveRows(g, rows)[k])
  {
    KeptRowsNotFull(g, rows, |g|);
    var kept := KeptRows(g, rows, |g|);
    var pad := |g| - |kept|;
    if k < pad {
      assert RemoveRows(g, rows)[k] == EmptyRow();
      assert EmptyRow()[0] == Empty;
    } else {
      assert RemoveRows(g, rows)[k] == kept[k - pad];
    }
  }

  /** For a single cleared row the source's removal is the intended one. */
  lemma SingleRowRemovalAgrees(g: Grid, r: int)
    requires WellFormed(g) && 0 <= r < ROWS
    ensures RemoveRowsAsWritten(g, [r]) == RemoveRows(g, [r])
  {
    RemoveRowAtSpec(g, r);
    assert RemoveRowsAsWritten(g, [r]) == RemoveRowsAsWritten(RemoveRowAt(g, r), []);
    var kept := KeptRows(g, [r], |g|);
    KeptRowsPrefix(g, r, |g|);
    assert kept == g[..r] + g[r + 1..];
  }

  /** Removing one index from the list of rows keeps all the others, in order. */
  lemma {:induction false} KeptRowsPrefix(g: Grid, r: int, n: nat)
    requires n <= |g| && 0 <= r < |g|
    ensures KeptRows(g, [r], n) == if n <= r then g[..n] else g[..r] + g[r + 1..n]
  {
    if n > 0 {
      KeptRowsPrefix(g, r, n - 1);
      var prev := KeptRows(g, [r], n - 1);
      assert (n - 1 in [r]) == (n - 1 == r);
      assert KeptRows(g, [r], n) == prev + (if n - 1 == r then [] else [g[n - 1]]);
      if n - 1 < r {
        SliceSnoc(g, 0, n);
      } else if n - 1 > r {
        SliceSnoc(g, r + 1, n);
        AppendAssoc(g[..r], g[r + 1..n - 1], [g[n - 1]]);
      } else {
        assert g[r + 1..n] == [];
      }
    }
  }

  /** Rows 18 and 19 full, every other row empty. */
  function TwoFullRowsExample(): (g: Grid)
    ensures WellFormed(g)
  {
    var full, empty := FullRow(), EmptyRow();
    seq(ROWS, r => if r >= 18 then full else empty)
  }

  function FullRow(): (row: Row)
    ensures |row| == COLS
  {
    seq(COLS, _ => Block(0))
  }

  /** The scan finds nothing below the first full row. */
  lemma {:induction false} NoFullRowsBelow(g: Grid, n: nat)
    requires n <= |g|
    requires forall r :: 0 <= r < n ==> !IsFull(g[r])
    ensures FullRowsBelow(g, n) == []
  {
    if n > 0 {
      NoFullRowsBelow(g, n - 1);
    }
  }

  /**
   * Counterexample for the source's removal: clearing the two full bottom
   * rows leaves a full row at the bottom, while the intended removal leaves
   * none.
   */
  lemma TwoFullRowsCounterexample()
    ensures FullRows(TwoFullRowsExample()) == [18, 19]
    ensures IsFull(RemoveRowsAsWritten(TwoFullRowsExample(), Reverse([18, 19]))[19])
    ensures !IsFull(RemoveRows(TwoFullRowsExample(), [18, 19])[19])
  {
    var g := TwoFullRowsExample();
    assert EmptyRow()[0] == Empty;
    forall r | 0 <= r < 18 ensures !IsFull(g[r]) {
      assert g[r] == EmptyRow();
    }
    assert g[18] == FullRow() && g[19] == FullRow();
    assert IsFull(g[18]) && IsFull(g[19]);
    NoFullRowsBelow(g, 18);
    assert FullRowsBelow(g, 19) == [18];
    assert FullRows(g) == [18, 19];
    assert Reverse([18, 19]) == [19, 18];
    TwoRowRemovalKeepsFullRow(g, 18, 19);
    RemoveRowsClearsAll(g);
  }
}
