/**
 * Pure placement rules of the falling-block mode: the active piece, where a
 * new piece appears, which wall kick a rotation takes, what locking writes
 * into the board, and the board-level facts the line clear relies on.
 */
module TetrisPlacement {
  import opened Common
  import opened TetrisGrid
  import opened Transcoder

  /**
   * `currentPiece`. The source also caches `shape`, which is always
   * SHAPES[type][rotation]; here it is derived.
   */
  datatype Piece = Piece(kind: nat, rotation: nat, row: int, col: int)

  ghost predicate PieceOk(p: Piece) {
    p.kind < PIECE_KINDS && p.rotation < 4
  }

  function ShapeOf(p: Piece): (shape: seq<Offset>)
    requires PieceOk(p)
    ensures ShapeOk(shape)
  {
    ShapesOk(p.kind, p.rotation);
    SHAPES[p.kind][p.rotation]
  }

  // ---------------------------------------------------------------------------
  // Spawn position
  // ---------------------------------------------------------------------------

  /** The running minimum of the column offsets, starting from 99. */
  function MinCol(shape: seq<Offset>): int {
    if shape == [] then 99
    else
      var m := MinCol(shape[..|shape| - 1]);
      var c := shape[|shape| - 1].1;
      if c < m then c else m
  }

  /** The running maximum of the column offsets, starting from -1. */
  function MaxCol(shape: seq<Offset>): int {
    if shape == [] then -1
    else
      var m := MaxCol(shape[..|shape| - 1]);
      var c := shape[|shape| - 1].1;
      if c > m then c else m
  }

  /** For a shape whose offsets lie in [0, 99), the running extremes are its true extremes. */
  lemma {:induction false} ColumnExtremes(shape: seq<Offset>)
    requires shape != []
    requires forall i :: 0 <= i < |shape| ==> 0 <= shape[i].1 < 99
    ensures forall i :: 0 <= i < |shape| ==> MinCol(shape) <= shape[i].1 <= MaxCol(shape)
    ensures exists i :: 0 <= i < |shape| && shape[i].1 == MinCol(shape)
    ensures exists i :: 0 <= i < |shape| && shape[i].1 == MaxCol(shape)
  {
    var last := |shape| - 1;
    var init := shape[..last];
    if init != [] {
      ColumnExtremes(init);
      assert forall i :: 0 <= i < last ==> init[i] == shape[i];
      var a :| 0 <= a < |init| && init[a].1 == MinCol(init);
      var b :| 0 <= b < |init| && init[b].1 == MaxCol(init);
      assert shape[a].1 == MinCol(init) && shape[b].1 == MaxCol(init);
    } else {
      assert shape[0].1 == MinCol(shape);
    }
  }

  /** `Math.floor((COLS - pieceWidth) / 2) - minC`. */
  function SpawnCol(shape: seq<Offset>): int {
    (COLS - (MaxCol(shape) - MinCol(shape) + 1)) / 2 - MinCol(shape)
  }

  /** Where `spawnPiece` puts a piece of `kind`: rotation 0 at row 0, or row -1 when row 0 is blocked. */
  function SpawnedAt(g: Grid, kind: nat): Piece
    requires WellFormed(g) && kind < PIECE_KINDS
  {
    var shape := SHAPES[kind][0];
    var col := SpawnCol(shape);
    Piece(kind, 0, if IsValidPosition(g, 0, col, shape) then 0 else -1, col)
  }

  /** Both spawn rows are blocked: the game is over. */
  predicate SpawnBlocked(g: Grid, kind: nat)
    requires WellFormed(g) && kind < PIECE_KINDS
  {
    var shape := SHAPES[kind][0];
    !IsValidPosition(g, 0, SpawnCol(shape), shape) && !IsValidPosition(g, -1, SpawnCol(shape), shape)
  }

  /** The spawn rotation of every piece has its column offsets in 0..2 (0..3 for I). */
  lemma SpawnColumnsSmall(kind: nat)
    requires kind < PIECE_KINDS
    ensures forall i :: 0 <= i < |SHAPES[kind][0]| ==> 0 <= SHAPES[kind][0][i].1 <= 3
  {
  }

  /**
   * A spawned piece is horizontally centred: its free columns on the left
   * and on the right differ by at most one (the odd column goes right), so
   * every cell lies between the walls.
   */
  lemma SpawnCentred(kind: nat)
    requires kind < PIECE_KINDS
    ensures var shape := SHAPES[kind][0];
            var left := SpawnCol(shape) + MinCol(shape);
            var right := COLS - 1 - (SpawnCol(shape) + MaxCol(shape));
            0 <= left <= right <= left + 1
    ensures forall i :: 0 <= i < |SHAPES[kind][0]| ==> 0 <= SpawnCol(SHAPES[kind][0]) + SHAPES[kind][0][i].1 < COLS
  {
    var shape := SHAPES[kind][0];
    SpawnColumnsSmall(kind);
    ColumnExtremes(shape);
  }

  /** On an empty board a new piece always fits at row 0. */
  lemma SpawnOnEmptyBoard(kind: nat)
    requires kind < PIECE_KINDS
    ensures SpawnedAt(EmptyGrid(), kind).row == 0
    ensures !SpawnBlocked(EmptyGrid(), kind)
  {
    var shape := SHAPES[kind][0];
    SpawnCentred(kind);
    ShapesOk(kind, 0);
    ShapeRowsSmall(kind, 0);
    ValidPositionIff(EmptyGrid(), 0, SpawnCol(shape), shape);
  }

  lemma ShapeRowsSmall(kind: nat, rot: nat)
    requires kind < PIECE_KINDS && rot < 4
    ensures forall i :: 0 <= i < |SHAPES[kind][rot]| ==> 0 <= SHAPES[kind][rot][i].0 <= 3
  {
  }

  // ---------------------------------------------------------------------------
  // Rotation
  // ---------------------------------------------------------------------------

  /** The candidate tried with kick i: the next rotation at (row - kr, col + kc). */
  function KickTarget(p: Piece, i: nat): Piece
    requires PieceOk(p) && i < 5
  {
    var kick := KicksFor(p.kind, p.rotation)[i];
    Piece(p.kind, (p.rotation + 1) % 4, p.row - kick.1, p.col + kick.0)
  }

  /** The first kick from i on whose candidate is valid, or 5 when none is. */
  function FirstKick(g: Grid, p: Piece, i: nat): (k: nat)
    requires WellFormed(g) && PieceOk(p) && i <= 5
    ensures i <= k <= 5
    decreases 5 - i
  {
    if i == 5 then 5
    else
      var q := KickTarget(p, i);
      if IsValidPosition(g, q.row, q.col, ShapeOf(q)) then i else FirstKick(g, p, i + 1)
  }

  /** The kick search takes the first valid candidate in table order. */
  lemma {:induction false} FirstKickSpec(g: Grid, p: Piece, i: nat)
    requires WellFormed(g) && PieceOk(p) && i <= 5
    ensures FirstKick(g, p, i) < 5 ==>
              IsValidPosition(g, KickTarget(p, FirstKick(g, p, i)).row, KickTarget(p, FirstKick(g, p, i)).col,
                              ShapeOf(KickTarget(p, FirstKick(g, p, i))))
    ensures forall j :: i <= j < FirstKick(g, p, i) ==>
              !IsValidPosition(g, KickTarget(p, j).row, KickTarget(p, j).col, ShapeOf(KickTarget(p, j)))
    decreases 5 - i
  {
    if i < 5 {
      var q := KickTarget(p, i);
      if !IsValidPosition(g, q.row, q.col, ShapeOf(q)) {
        FirstKickSpec(g, p, i + 1);
      }
    }
  }

  /** `rotatePiece`'s outcome: the first valid kick's candidate, or nothing. */
  function Rotated(g: Grid, p: Piece): Option<Piece>
    requires WellFormed(g) && PieceOk(p)
  {
    var k := FirstKick(g, p, 0);
    if k < 5 then Some(KickTarget(p, k)) else None
  }

  /**
   * A rotation that succeeds lands in a valid position with rotation
   * (r + 1) mod 4 and the unkicked target is preferred whenever it is
   * valid; a rotation fails exactly when none of the five candidates fits.
   */
  lemma RotatedSpec(g: Grid, p: Piece)
    requires WellFormed(g) && PieceOk(p)
    ensures Rotated(g, p).Some? ==>
              var q := Rotated(g, p).value;
              q.kind == p.kind && q.rotation == (p.rotation + 1) % 4 && IsValidPosition(g, q.row, q.col, ShapeOf(q))
    ensures Rotated(g, p).None? <==>
              forall j :: 0 <= j < 5 ==> !IsValidPosition(g, KickTarget(p, j).row, KickTarget(p, j).col, ShapeOf(KickTarget(p, j)))
    ensures IsValidPosition(g, p.row, p.col, SHAPES[p.kind][(p.rotation + 1) % 4]) ==>
              Rotated(g, p) == Some(Piece(p.kind, (p.rotation + 1) % 4, p.row, p.col))
  {
    FirstKickSpec(g, p, 0);
  }

  // ---------------------------------------------------------------------------
  // Locking
  // ---------------------------------------------------------------------------

  /**
   * `lockPiece`'s writes: each cell of the shape that falls inside the
   * board becomes a block of the piece's kind, in shape order.
   */
  function Stamp(g: Grid, kind: nat, row: int, col: int, shape: seq<Offset>): (h: Grid)
    requires WellFormed(g)
    ensures WellFormed(h)
    decreases |shape|
  {
    if shape == [] then g
    else
      var r := row + shape[0].0;
      var c := col + shape[0].1;
      var g' := if 0 <= r < ROWS && 0 <= c < COLS then g[r := g[r][c := Block(kind)]] else g;
      Stamp(g', kind, row, col, shape[1..])
  }

  /** Stamping a shape is writing its first cell, then stamping the rest. */
  lemma StampStep(g: Grid, kind: nat, row: int, col: int, shape: seq<Offset>, i: nat)
    requires WellFormed(g) && i < |shape|
    ensures var r := row + shape[i].0;
            var c := col + shape[i].1;
            var g' := if 0 <= r < ROWS && 0 <= c < COLS then g[r := g[r][c := Block(kind)]] else g;
            Stamp(g, kind, row, col, shape[i..]) == Stamp(g', kind, row, col, shape[i + 1..])
  {
    assert shape[i..][0] == shape[i] && shape[i..][1..] == shape[i + 1..];
  }

  /** Some cell of the shape anchored at (row, col) is (r, c). */
  ghost predicate Covers(row: int, col: int, shape: seq<Offset>, r: int, c: int) {
    exists i :: 0 <= i < |shape| && row + shape[i].0 == r && col + shape[i].1 == c
  }

  /**
   * Locking changes exactly the covered board cells, each to the piece's
   * kind; every other cell, and every shape cell outside the board, is
   * left alone.
   */
  lemma {:induction false} StampSpec(g: Grid, kind: nat, row: int, col: int, shape: seq<Offset>, r: int, c: int)
    requires WellFormed(g) && 0 <= r < ROWS && 0 <= c < COLS
    ensures Stamp(g, kind, row, col, shape)[r][c] == if Covers(row, col, shape, r, c) then Block(kind) else g[r][c]
    decreases |shape|
  {
    if shape != [] {
      var r0 := row + shape[0].0;
      var c0 := col + shape[0].1;
      var g' := if 0 <= r0 < ROWS && 0 <= c0 < COLS then g[r0 := g[r0][c0 := Block(kind)]] else g;
      StampSpec(g', kind, row, col, shape[1..], r, c);
      if Covers(row, col, shape[1..], r, c) {
        var i :| 0 <= i < |shape[1..]| && row + shape[1..][i].0 == r && col + shape[1..][i].1 == c;
        assert row + shape[i + 1].0 == r && col + shape[i + 1].1 == c;
      }
      if Covers(row, col, shape, r, c) && !(r0 == r && c0 == c) {
        var i :| 0 <= i < |shape| && row + shape[i].0 == r && col + shape[i].1 == c;
        assert i != 0;
        assert row + shape[1..][i - 1].0 == r && col + shape[1..][i - 1].1 == c;
      }
    }
  }

  // ---------------------------------------------------------------------------
  // Board facts used by the line clear and the mode switch
  // ---------------------------------------------------------------------------

  /** `hasBlocksOnGrid`. */
  ghost predicate HasBlocks(g: Grid)
    requires WellFormed(g)
  {
    exists r, c :: 0 <= r < ROWS && 0 <= c < COLS && g[r][c] != Empty
  }

  lemma {:induction false} CountRowPositive(row: Row)
    ensures CountRow(row) > 0 <==> exists c :: 0 <= c < |row| && row[c] != Empty
  {
    if row != [] {
      var last := |row| - 1;
      CountRowPositive(row[..last]);
      assert forall c :: 0 <= c < last ==> row[..last][c] == row[c];
    }
  }

  lemma {:induction false} CountGridPositive(g: Grid)
    ensures CountGrid(g) > 0 <==> exists r, c :: 0 <= r < |g| && 0 <= c < |g[r]| && g[r][c] != Empty
  {
    if g != [] {
      var last := |g| - 1;
      CountGridPositive(g[..last]);
      CountRowPositive(g[last]);
      assert forall r :: 0 <= r < last ==> g[..last][r] == g[r];
      if CountGrid(g) > 0 && CountRow(g[last]) > 0 {
        var c :| 0 <= c < |g[last]| && g[last][c] != Empty;
      }
      if exists r, c :: 0 <= r < |g| && 0 <= c < |g[r]| && g[r][c] != Empty {
        var r, c :| 0 <= r < |g| && 0 <= c < |g[r]| && g[r][c] != Empty;
        if r < last {
          assert g[..last][r][c] != Empty;
        }
      }
    }
  }

  /**
   * The board holds a block exactly when its expansion holds a brick: a
   * flip to the breaker only ever starts with bricks to break.
   */
  lemma HasBlocksIffBricks(g: Grid, tags: Tags)
    requires WellFormed(g)
    ensures HasBlocks(g) <==> CountGrid(g) > 0
    ensures HasBlocks(g) <==> CountBricks(ToFine(g, tags)) > 0
  {
    CountGridPositive(g);
    ToFineCount(g, tags);
  }

  /** The empty board has no blocks and no full row. */
  lemma EmptyBoard()
    ensures WellFormed(EmptyGrid())
    ensures !HasBlocks(EmptyGrid())
    ensures FullRows(EmptyGrid()) == []
  {
    var g := EmptyGrid();
    forall r | 0 <= r < ROWS
      ensures g[r] == EmptyRow() && !IsFull(g[r])
    {
      assert g[r][0] == Empty;
    }
    assert !HasBlocks(g);
    NoFullRowsBelow(g, ROWS);
  }

  /** Removing the rows of `d` and then row x is removing the rows of d + [x]. */
  lemma {:induction false} RemoveRowsAsWrittenSnoc(g: Grid, d: seq<int>, x: int)
    requires WellFormed(g) && RowsInRange(d) && 0 <= x < ROWS
    ensures RowsInRange(d + [x])
    ensures RemoveRowsAsWritten(g, d + [x]) == RemoveRowAt(RemoveRowsAsWritten(g, d), x)
    decreases |d|
  {
    if d == [] {
      assert [x][1..] == [];
      RemoveRowAtSpec(g, x);
    } else {
      RemoveRowAtSpec(g, d[0]);
      RemoveRowsAsWrittenSnoc(RemoveRowAt(g, d[0]), d[1..], x);
      assert (d + [x])[1..] == d[1..] + [x];
    }
  }

  /**
   * The cleared rows are listed in increasing order, so sorting them in
   * decreasing order (`lines.sort((a, b) => b - a)`) is reversing them.
   */
  lemma IncreasingReversed(lines: seq<int>)
    requires forall i, j :: 0 <= i < j < |lines| ==> lines[i] < lines[j]
    ensures forall i, j :: 0 <= i < j < |lines| ==> Reverse(lines)[i] > Reverse(lines)[j]
    ensures multiset(Reverse(lines)) == multiset(lines)
  {
    ReverseMultiset(lines);
  }

  lemma {:induction false} ReverseMultiset<T>(s: seq<T>)
    ensures multiset(Reverse(s)) == multiset(s)
  {
    if s != [] {
      ReverseMultiset(s[1..]);
      assert s == [s[0]] + s[1..];
    }
  }
}
