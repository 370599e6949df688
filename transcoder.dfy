/**
 * The two grid conversions between the falling-block board (20 x 10 coarse
 * cells) and the brick-breaker board (40 x 20 bricks): the lossless 2 x 2
 * expansion with its brick count, the lossy reduction back, and the
 * per-column gravity that follows the reduction.
 */
module Transcoder {
  import opened Common
  import opened TetrisGrid

  const FINE_ROWS: int := 40
  const FINE_COLS: int := 20

  /** The source's power-up table, in table order. */
  datatype PowerUpKind = MultiBall | Wide | Fire | Slow | Bonus | Sticky

  /**
   * A brick of the breaker board. The source stores `{ color, emoji, powerup }`
   * copied from the coarse cell; `kind` stands for that colour and emoji.
   */
  datatype Brick = Vacant | Brick(kind: nat, powerup: Option<PowerUpKind>)

  type FineGrid = seq<seq<Brick>>

  /**
   * The outcome of the random power-up roll for each fine cell (the source
   * draws it with `Math.random() < POWERUP_CHANCE` and a second draw for the
   * type); a cell the oracle does not cover gets no power-up.
   */
  type Tags = seq<seq<Option<PowerUpKind>>>

  ghost predicate FineWellFormed(f: FineGrid) {
    |f| == FINE_ROWS && forall r :: 0 <= r < |f| ==> |f[r]| == FINE_COLS
  }

  function TagAt(tags: Tags, br: int, bc: int): Option<PowerUpKind> {
    if 0 <= br < |tags| && 0 <= bc < |tags[br]| then tags[br][bc] else None
  }

  /** The brick written for one fine cell of an occupied or empty coarse cell. */
  function Expand(cell: Cell, tag: Option<PowerUpKind>): Brick {
    match cell
    case Empty => Vacant
    case Block(k) => Brick(k, tag)
  }

  /** `convertToBreakerGrid`'s board: fine cell (br, bc) copies coarse cell (br / 2, bc / 2). */
  function ToFine(g: Grid, tags: Tags): (f: FineGrid)
    requires WellFormed(g)
    ensures FineWellFormed(f)
  {
    seq(FINE_ROWS, br => seq(FINE_COLS, bc => FineCell(g, tags, br, bc)))
  }

  /** Fine cell (br, bc) of the expansion: coarse cell (br / 2, bc / 2) with the cell's own power-up roll. */
  function FineCell(g: Grid, tags: Tags, br: int, bc: int): Brick {
    if 0 <= br / 2 < |g| && 0 <= bc / 2 < |g[br / 2]| then Expand(g[br / 2][bc / 2], TagAt(tags, br, bc)) else Vacant
  }

  /**
   * Each occupied coarse cell becomes a 2 x 2 block of bricks of the same
   * kind, each with its own power-up roll; each empty coarse cell becomes four
   * vacant cells.
   */
  lemma ToFineBlock(g: Grid, tags: Tags, r: int, c: int, dr: int, dc: int)
    requires WellFormed(g) && 0 <= r < ROWS && 0 <= c < COLS && 0 <= dr < 2 && 0 <= dc < 2
    ensures ToFine(g, tags)[2 * r + dr][2 * c + dc].Brick? <==> g[r][c] != Empty
    ensures g[r][c] != Empty ==>
              ToFine(g, tags)[2 * r + dr][2 * c + dc] == Brick(g[r][c].kind, TagAt(tags, 2 * r + dr, 2 * c + dc))
  {
    assert (2 * r + dr) / 2 == r && (2 * c + dc) / 2 == c;
  }

  // ---------------------------------------------------------------------------
  // Counting
  // ---------------------------------------------------------------------------

  function CountRow(row: Row): nat {
    if row == [] then 0 else CountRow(row[..|row| - 1]) + (if row[|row| - 1] != Empty then 1 else 0)
  }

  function CountGrid(g: Grid): nat {
    if g == [] then 0 else CountGrid(g[..|g| - 1]) + CountRow(g[|g| - 1])
  }

  function CountBrickRow(row: seq<Brick>): nat {
    if row == [] then 0 else CountBrickRow(row[..|row| - 1]) + (if row[|row| - 1].Brick? then 1 else 0)
  }

  function CountBricks(f: FineGrid): nat {
    if f == [] then 0 else CountBricks(f[..|f| - 1]) + CountBrickRow(f[|f| - 1])
  }

  lemma CountRowStep(row: Row, n: nat)
    requires n < |row|
    ensures CountRow(row[..n + 1]) == CountRow(row[..n]) + (if row[n] != Empty then 1 else 0)
  {
    assert row[..n + 1][..n] == row[..n];
  }

  lemma CountGridStep(g: Grid, n: nat)
    requires n < |g|
    ensures CountGrid(g[..n + 1]) == CountGrid(g[..n]) + CountRow(g[n])
  {
    assert g[..n + 1][..n] == g[..n];
  }

  lemma CountBrickRowStep(row: seq<Brick>, n: nat)
    requires n < |row|
    ensures CountBrickRow(row[..n + 1]) == CountBrickRow(row[..n]) + (if row[n].Brick? then 1 else 0)
  {
    assert row[..n + 1][..n] == row[..n];
  }

  lemma CountBricksStep(f: FineGrid, n: nat)
    requires n < |f|
    ensures CountBricks(f[..n + 1]) == CountBricks(f[..n]) + CountBrickRow(f[n])
  {
    assert f[..n + 1][..n] == f[..n];
  }

  /** Fine cells 2k and 2k + 1 of `row` hold a brick exactly when coarse cell k of `crow` is occupied. */
  ghost predicate Doubles(row: seq<Brick>, crow: Row, k: nat)
    requires 2 * k + 1 < |row| && k < |crow|
  {
    (row[2 * k].Brick? <==> crow[k] != Empty) && (row[2 * k + 1].Brick? <==> crow[k] != Empty)
  }

  /** A row that doubles the first c coarse cells holds twice their bricks in its first 2c cells. */
  lemma {:induction false} DoubledRowCount(row: seq<Brick>, crow: Row, c: nat)
    requires 2 * c <= |row| && c <= |crow|
    requires forall k :: 0 <= k < c ==> Doubles(row, crow, k)
    ensures CountBrickRow(row[..2 * c]) == 2 * CountRow(crow[..c])
  {
    if c > 0 {
      DoubledRowCount(row, crow, c - 1);
      assert Doubles(row, crow, c - 1);
      CountBrickRowStep(row, 2 * c - 2);
      CountBrickRowStep(row, 2 * c - 1);
      CountRowStep(crow, c - 1);
    }
  }

  /** A whole fine row of the expansion has twice the bricks of its coarse row. */
  lemma ToFineFullRowCount(g: Grid, tags: Tags, r: int, h: int)
    requires WellFormed(g) && 0 <= r < ROWS && 0 <= h < 2
    ensures CountBrickRow(ToFine(g, tags)[2 * r + h]) == 2 * CountRow(g[r])
  {
    var row := ToFine(g, tags)[2 * r + h];
    forall k | 0 <= k < COLS
      ensures Doubles(row, g[r], k)
    {
      ToFineBlock(g, tags, r, k, h, 0);
      ToFineBlock(g, tags, r, k, h, 1);
    }
    DoubledRowCount(row, g[r], COLS);
    assert row[..2 * COLS] == row;
    assert g[r][..COLS] == g[r];
  }

  /** The two fine rows of coarse row r together have four bricks per occupied cell. */
  lemma ToFinePairCount(g: Grid, tags: Tags, r: nat)
    requires WellFormed(g) && r < ROWS
    ensures CountBrickRow(ToFine(g, tags)[2 * r]) + CountBrickRow(ToFine(g, tags)[2 * r + 1]) == 4 * CountRow(g[r])
  {
    ToFineFullRowCount(g, tags, r, 0);
    ToFineFullRowCount(g, tags, r, 1);
  }

  /** The first 2r fine rows hold four bricks per occupied cell of the first r coarse rows. */
  lemma {:induction false} ToFinePrefixCount(g: Grid, tags: Tags, r: nat)
    requires WellFormed(g) && r <= ROWS
    ensures CountBricks(ToFine(g, tags)[..2 * r]) == 4 * CountGrid(g[..r])
  {
    if r > 0 {
      var f := ToFine(g, tags);
      var k := r - 1;
      ToFinePrefixCount(g, tags, k);
      CountBricksStep(f, 2 * k);
      CountBricksStep(f, 2 * k + 1);
      CountGridStep(g, k);
      ToFinePairCount(g, tags, k);
    }
  }

  /** `bricksRemaining` after the expansion is four per occupied coarse cell. */
  lemma ToFineCount(g: Grid, tags: Tags)
    requires WellFormed(g)
    ensures CountBricks(ToFine(g, tags)) == 4 * CountGrid(g)
  {
    ToFinePrefixCount(g, tags, ROWS);
    assert ToFine(g, tags)[..2 * ROWS] == ToFine(g, tags);
    assert g[..ROWS] == g;
  }

  /** Vacating one brick lowers the row's count by exactly one. */
  lemma {:induction false} CountBrickRowVacate(row: seq<Brick>, c: int)
    requires 0 <= c < |row| && row[c].Brick?
    ensures CountBrickRow(row[c := Vacant]) + 1 == CountBrickRow(row)
    decreases |row|
  {
    var last := |row| - 1;
    if c < last {
      CountBrickRowVacate(row[..last], c);
      assert row[c := Vacant][..last] == row[..last][c := Vacant];
    } else {
      assert row[c := Vacant][..last] == row[..last];
    }
  }

  /** Vacating one brick of the board lowers the board's count by exactly one. */
  lemma {:induction false} CountBricksVacate(f: FineGrid, r: int, c: int)
    requires 0 <= r < |f| && 0 <= c < |f[r]| && f[r][c].Brick?
    ensures CountBricks(f[r := f[r][c := Vacant]]) + 1 == CountBricks(f)
    decreases |f|
  {
    var last := |f| - 1;
    var f' := f[r := f[r][c := Vacant]];
    if r < last {
      CountBricksVacate(f[..last], r, c);
      assert f'[..last] == f[..last][r := f[r][c := Vacant]];
    } else {
      CountBrickRowVacate(f[r], c);
      assert f'[..last] == f[..last];
    }
  }

  /** A board with no brick counts zero, and a board counting zero has no brick. */
  /** No cell of the field holds a brick. */
  predicate NoBricks(f: FineGrid) {
    forall r, c :: 0 <= r < |f| && 0 <= c < |f[r]| ==> f[r][c] == Vacant
  }

  lemma {:induction false} CountBricksZero(f: FineGrid)
    ensures CountBricks(f) == 0 <==> NoBricks(f)
  {
    if f != [] {
      var last := |f| - 1;
      CountBricksZero(f[..last]);
      CountBrickRowZero(f[last]);
      assert forall r :: 0 <= r < last ==> f[..last][r] == f[r];
    }
  }

  lemma {:induction false} CountBrickRowZero(row: seq<Brick>)
    ensures CountBrickRow(row) == 0 <==> forall c :: 0 <= c < |row| ==> row[c] == Vacant
  {
    if row != [] {
      var last := |row| - 1;
      CountBrickRowZero(row[..last]);
      assert forall c :: 0 <= c < last ==> row[..last][c] == row[c];
    }
  }

  // ---------------------------------------------------------------------------
  // Fine -> coarse
  // ---------------------------------------------------------------------------

  /** The brick the reduction reads at (br, bc), behind the source's bounds guard. */
  function FineAt(f: FineGrid, br: int, bc: int): Brick {
    if 0 <= br < |f| && 0 <= bc < |f[br]| then f[br][bc] else Vacant
  }

  /** One step of the scan `if (cell) found = cell`. */
  function Later(found: Brick, b: Brick): Brick {
    if b.Brick? then b else found
  }

  /**
   * The scan of the 2 x 2 block of coarse cell (r, c) after its first k
   * cells, in (0,0),(0,1),(1,0),(1,1) order: the last brick seen so far.
   */
  function SurvivorUpTo(f: FineGrid, r: int, c: int, k: nat): Brick
    decreases k
  {
    if k == 0 then Vacant
    else
      var (dr, dc) := BlockStep(k - 1);
      Later(SurvivorUpTo(f, r, c, k - 1), FineAt(f, 2 * r + dr, 2 * c + dc))
  }

  /** The offset within the block of scan step j: the row `j / 2` and the column `j % 2`, for j < 4. */
  function BlockStep(j: nat): (o: (int, int))
    ensures j < 4 ==> o == (j / 2, j % 2)
  {
    if j < 2 then (0, j) else (1, j - 2)
  }

  /** The last surviving brick of the 2 x 2 block of coarse cell (r, c). */
  function LastSurvivor(f: FineGrid, r: int, c: int): Brick {
    SurvivorUpTo(f, r, c, 4)
  }

  /** The j-th fine cell of the block of coarse cell (r, c) in scan order: offset (j / 2, j % 2). */
  function BlockAt(f: FineGrid, r: int, c: int, j: nat): (b: Brick)
    ensures j < 4 ==> b == FineAt(f, 2 * r + j / 2, 2 * c + j % 2)
  {
    var (dr, dc) := BlockStep(j);
    FineAt(f, 2 * r + dr, 2 * c + dc)
  }

  function ReduceCell(f: FineGrid, r: int, c: int): Cell {
    var found := LastSurvivor(f, r, c);
    if found.Brick? then Block(found.kind) else Empty
  }

  /**
   * The lossy reduction: a coarse cell is occupied when ANY of its four fine
   * cells survives, and it takes the kind of the last survivor in scan order.
   */
  lemma ReduceCellSpec(f: FineGrid, r: int, c: int)
    ensures ReduceCell(f, r, c) != Empty <==>
              (FineAt(f, 2 * r, 2 * c).Brick? || FineAt(f, 2 * r, 2 * c + 1).Brick? ||
               FineAt(f, 2 * r + 1, 2 * c).Brick? || FineAt(f, 2 * r + 1, 2 * c + 1).Brick?)
    ensures FineAt(f, 2 * r + 1, 2 * c + 1).Brick? ==>
              ReduceCell(f, r, c) == Block(FineAt(f, 2 * r + 1, 2 * c + 1).kind)
    ensures FineAt(f, 2 * r, 2 * c).Brick? && !FineAt(f, 2 * r, 2 * c + 1).Brick? &&
            !FineAt(f, 2 * r + 1, 2 * c).Brick? && !FineAt(f, 2 * r + 1, 2 * c + 1).Brick? ==>
              ReduceCell(f, r, c) == Block(FineAt(f, 2 * r, 2 * c).kind)
    ensures forall j ::
              (0 <= j < 4 && BlockAt(f, r, c, j).Brick? && forall j' :: j < j' < 4 ==> !BlockAt(f, r, c, j').Brick?)
              ==> ReduceCell(f, r, c) == Block(BlockAt(f, r, c, j).kind)
  {
    assert forall j :: 0 <= j < 4 ==> BlockAt(f, r, c, j) == FineAt(f, 2 * r + BlockStep(j).0, 2 * c + BlockStep(j).1);
  }

  function ToCoarse(f: FineGrid): (g: Grid)
    ensures WellFormed(g)
  {
    seq(ROWS, r => seq(COLS, c => ReduceCell(f, r, c)))
  }

  /** Expanding and reducing again, with no brick destroyed in between, gives back the board. */
  lemma RoundTrip(g: Grid, tags: Tags)
    requires WellFormed(g)
    ensures ToCoarse(ToFine(g, tags)) == g
  {
    var f := ToFine(g, tags);
    forall r | 0 <= r < ROWS
      ensures ToCoarse(f)[r] == g[r]
    {
      forall c | 0 <= c < COLS
        ensures ToCoarse(f)[r][c] == g[r][c]
      {
        RoundTripCell(g, tags, r, c);
      }
    }
  }

  /** One coarse cell survives the expansion and the reduction unchanged. */
  lemma RoundTripCell(g: Grid, tags: Tags, r: int, c: int)
    requires WellFormed(g) && 0 <= r < ROWS && 0 <= c < COLS
    ensures ReduceCell(ToFine(g, tags), r, c) == g[r][c]
  {
    var f := ToFine(g, tags);
    ToFineBlock(g, tags, r, c, 1, 1);
    ToFineBlock(g, tags, r, c, 0, 0);
    ToFineBlock(g, tags, r, c, 0, 1);
    ToFineBlock(g, tags, r, c, 1, 0);
    ReduceCellSpec(f, r, c);
  }

  // ---------------------------------------------------------------------------
  // Column gravity
  // ---------------------------------------------------------------------------

  function Column(g: Grid, c: int): (col: seq<Cell>)
    requires WellFormed(g) && 0 <= c < COLS
    ensures |col| == ROWS
  {
    seq(ROWS, r requires 0 <= r < ROWS => g[r][c])
  }

  /** The occupied cells of a column, top to bottom. */
  function Blocks(col: seq<Cell>): (b: seq<Cell>)
    ensures |b| <= |col|
  {
    if col == [] then [] else (if col[0] != Empty then [col[0]] else []) + Blocks(col[1..])
  }

  function Empties(n: nat): seq<Cell> { seq(n, _ => Empty) }

  /** A column after gravity: its occupied cells, in order, resting on the floor. */
  function Settle(col: seq<Cell>): seq<Cell> {
    Empties(|col| - |Blocks(col)|) + Blocks(col)
  }

  /** `convertBreakerBackToTetris`'s gravity pass, column by column. */
  function Gravity(g: Grid): (h: Grid)
    requires WellFormed(g)
    ensures WellFormed(h)
  {
    seq(ROWS, r requires 0 <= r < ROWS =>
      seq(COLS, c requires 0 <= c < COLS => Settle(Column(g, c))[r]))
  }

  lemma {:induction false} BlocksAppend(a: seq<Cell>, b: seq<Cell>)
    ensures Blocks(a + b) == Blocks(a) + Blocks(b)
  {
    if a != [] {
      BlocksAppend(a[1..], b);
      assert (a + b)[1..] == a[1..] + b;
    } else {
      assert a + b == b;
    }
  }

  lemma {:induction false} BlocksOfEmpties(n: nat)
    ensures Blocks(Empties(n)) == []
  {
    if n > 0 {
      BlocksOfEmpties(n - 1);
      assert Empties(n)[1..] == Empties(n - 1);
    }
  }

  lemma {:induction false} BlocksAreBlocks(col: seq<Cell>)
    ensures forall i :: 0 <= i < |Blocks(col)| ==> Blocks(col)[i] != Empty
    ensures Blocks(Blocks(col)) == Blocks(col)
  {
    if col != [] {
      BlocksAreBlocks(col[1..]);
      var head := if col[0] != Empty then [col[0]] else [];
      BlocksAppend(head, Blocks(col[1..]));
      if col[0] != Empty {
        assert Blocks(head) == head by {
          assert head[1..] == [];
        }
      }
    }
  }

  /**
   * Gravity keeps every column's occupied cells, in order and in number,
   * leaves no empty cell under an occupied one, and changes nothing a
   * second time.
   */
  lemma SettleSpec(col: seq<Cell>)
    ensures |Settle(col)| == |col|
    ensures Blocks(Settle(col)) == Blocks(col)
    ensures forall i, j :: 0 <= i < j < |col| && Settle(col)[i] != Empty ==> Settle(col)[j] != Empty
    ensures Settle(Settle(col)) == Settle(col)
  {
    var b := Blocks(col);
    var pad := |col| - |b|;
    BlocksAppend(Empties(pad), b);
    BlocksOfEmpties(pad);
    BlocksAreBlocks(col);
    assert Blocks(Settle(col)) == b;
  }

  lemma GravityColumn(g: Grid, c: int)
    requires WellFormed(g) && 0 <= c < COLS
    ensures Column(Gravity(g), c) == Settle(Column(g, c))
  {
    SettleSpec(Column(g, c));
  }

  /** Gravity applied twice is gravity applied once. */
  lemma GravityIdempotent(g: Grid)
    requires WellFormed(g)
    ensures Gravity(Gravity(g)) == Gravity(g)
  {
    var h := Gravity(g);
    forall r | 0 <= r < ROWS
      ensures Gravity(h)[r] == h[r]
    {
      forall c | 0 <= c < COLS
        ensures Gravity(h)[r][c] == h[r][c]
      {
        GravityColumn(g, c);
        SettleSpec(Column(g, c));
        assert Gravity(h)[r][c] == Settle(Column(h, c))[r];
      }
    }
  }

  /**
   * Placing the bottom-up list of a column's blocks from the floor upwards,
   * as the source does (`grid[ROWS - 1 - i][c] = cells[i]`), yields the
   * settled column.
   */
  lemma PlaceBottomUp(col: seq<Cell>, p: int)
    requires 0 <= p < |col|
    ensures Settle(col)[p] ==
              (if p >= |col| - |Blocks(col)| then Reverse(Blocks(col))[|col| - 1 - p] else Empty)
  {
  }

  /** Step of the bottom-up collection loop. */
  lemma CollectStep(col: seq<Cell>, r: int)
    requires 0 <= r < |col|
    ensures Reverse(Blocks(col[r..])) ==
              Reverse(Blocks(col[r + 1..])) + (if col[r] != Empty then [col[r]] else [])
  {
    var head := if col[r] != Empty then [col[r]] else [];
    assert col[r..][1..] == col[r + 1..];
    ReverseAppend(head, Blocks(col[r + 1..]));
  }

  lemma ReverseAppend<T>(a: seq<T>, b: seq<T>)
    ensures Reverse(a + b) == Reverse(b) + Reverse(a)
  {
  }
}
