/**
 * The tile rules of the maze-chase game: the maze template and its tile
 * codes, the player's passability test, tile-centre steering and tunnel
 * wrap as functions of the player's position, the ghosts' direction filter
 * and choice, and dot counting.
 *
 * Positions are pixels. The player moves 4 px per tick on a 24 px grid, so
 * its coordinates stay whole numbers and are modelled as `int`; JavaScript's
 * `Math.floor(x / 24)` is Dafny's `x / 24`, which rounds toward minus
 * infinity for a positive divisor.
 */
module PacmanMaze {
  import opened Common

  const TILE_SIZE: int := 24
  const HALF_TILE: int := 12
  const PLAYER_SPEED: int := 4
  /** How far ahead of the player the ambushing ghost aims, in tiles. */
  const AMBUSH_LEAD: int := 4

  // Tile codes of the maze.
  const WALL: int := 0
  const DOT: int := 1
  const EMPTY: int := 2
  const PELLET: int := 3
  const HOUSE: int := 4

  const MAZE_TEMPLATE: seq<seq<int>> := [
    [0, 0, 0, 0, 0, 0, 0, 0, 0, 0, 0, 0, 0, 0, 0, 0, 0, 0, 0],
    [0, 1, 1, 1, 1, 1, 1, 1, 1, 0, 1, 1, 1, 1, 1, 1, 1, 1, 0],
    [0, 3, 0, 0, 1, 0, 0, 0, 1, 0, 1, 0, 0, 0, 1, 0, 0, 3, 0],
    [0, 1, 1, 1, 1, 1, 1, 1, 1, 1, 1, 1, 1, 1, 1, 1, 1, 1, 0],
    [0, 1, 0, 0, 1, 0, 1, 0, 0, 0, 0, 0, 1, 0, 1, 0, 0, 1, 0],
    [0, 1, 1, 1, 1, 0, 1, 1, 1, 0, 1, 1, 1, 0, 1, 1, 1, 1, 0],
    [0, 0, 0, 0, 1, 0, 0, 0, 1, 0, 1, 0, 0, 0, 1, 0, 0, 0, 0],
    [2, 2, 2, 0, 1, 0, 1, 1, 1, 1, 1, 1, 1, 0, 1, 0, 2, 2, 2],
    [0, 0, 0, 0, 1, 0, 1, 0, 0, 4, 0, 0, 1, 0, 1, 0, 0, 0, 0],
    [1, 1, 1, 1, 1, 1, 1, 0, 4, 4, 4, 0, 1, 1, 1, 1, 1, 1, 1],
    [0, 0, 0, 0, 1, 0, 1, 0, 0, 0, 0, 0, 1, 0, 1, 0, 0, 0, 0],
    [2, 2, 2, 0, 1, 0, 1, 1, 1, 1, 1, 1, 1, 0, 1, 0, 2, 2, 2],
    [0, 0, 0, 0, 1, 0, 1, 0, 0, 0, 0, 0, 1, 0, 1, 0, 0, 0, 0],
    [0, 1, 1, 1, 1, 1, 1, 1, 1, 0, 1, 1, 1, 1, 1, 1, 1, 1, 0],
    [0, 1, 0, 0, 1, 0, 0, 0, 1, 0, 1, 0, 0, 0, 1, 0, 0, 1, 0],
    [0, 3, 1, 0, 1, 1, 1, 1, 1, 1, 1, 1, 1, 1, 1, 0, 1, 3, 0],
    [0, 0, 1, 0, 1, 0, 1, 0, 0, 0, 0, 0, 1, 0, 1, 0, 1, 0, 0],
    [0, 1, 1, 1, 1, 0, 1, 1, 1, 0, 1, 1, 1, 0, 1, 1, 1, 1, 0],
    [0, 1, 0, 0, 0, 0, 0, 0, 1, 0, 1, 0, 0, 0, 0, 0, 0, 1, 0],
    [0, 1, 1, 1, 1, 1, 1, 1, 1, 1, 1, 1, 1, 1, 1, 1, 1, 1, 0],
    [0, 0, 0, 0, 0, 0, 0, 0, 0, 0, 0, 0, 0, 0, 0, 0, 0, 0, 0]
  ]

  /** A maze with at least one row and column, all rows as long as the first. */
  predicate Rectangular(maze: seq<seq<int>>) {
    |maze| > 0 && |maze[0]| > 0 && forall r :: 0 <= r < |maze| ==> |maze[r]| == |maze[0]|
  }

  /** A tile the player may stand on: neither wall nor ghost house. */
  predicate Passable(t: int) { t != WALL && t != HOUSE }

  /** A tile that counts towards the level: a dot or a power pellet. */
  predicate IsDot(t: int) { t == DOT || t == PELLET }

  /**
   * The two ends of every row agree on passability, so the tunnel wraps
   * the player from one open end to the other.
   */
  predicate TunnelOpen(maze: seq<seq<int>>)
    requires Rectangular(maze)
  {
    forall r :: 0 <= r < |maze| ==> (Passable(maze[r][0]) <==> Passable(maze[r][|maze[0]| - 1]))
  }

  /** The player's start tile. */
  const START_TILE_X: int := 9
  const START_TILE_Y: int := 15

  /**
   * A maze the game can be played on: 21 rows of 19 tiles, matching tunnel
   * ends and an open start tile.
   */
  predicate Playable(maze: seq<seq<int>>) {
    Rectangular(maze) && |maze| == 21 && |maze[0]| == 19 && TunnelOpen(maze) &&
    Passable(maze[START_TILE_Y][START_TILE_X])
  }

  /** `layout` with some of its dots and pellets eaten, and nothing else changed. */
  ghost predicate Derived(maze: seq<seq<int>>, layout: seq<seq<int>>) {
    |maze| == |layout| &&
    forall r :: 0 <= r < |maze| ==>
      |maze[r]| == |layout[r]| &&
      forall c :: 0 <= c < |maze[r]| ==>
        maze[r][c] == layout[r][c] || (IsDot(layout[r][c]) && maze[r][c] == EMPTY)
  }

  /** The template is a maze the game can be played on. */
  lemma TemplatePlayable()
    ensures Playable(MAZE_TEMPLATE)
  {
  }

  /** A maze that only lost dots keeps the shape and the walls of its layout, so it stays playable. */
  lemma DerivedPlayable(maze: seq<seq<int>>, layout: seq<seq<int>>)
    requires Derived(maze, layout) && Playable(layout)
    ensures Playable(maze)
    ensures forall r, c :: 0 <= r < |maze| && 0 <= c < |maze[r]| ==> (Passable(maze[r][c]) <==> Passable(layout[r][c]))
  {
  }

  /** Eating one dot or pellet keeps a maze derived from its layout. */
  lemma EatKeepsDerived(maze: seq<seq<int>>, layout: seq<seq<int>>, r: int, c: int)
    requires Derived(maze, layout) && 0 <= r < |maze| && 0 <= c < |maze[r]| && IsDot(maze[r][c])
    ensures Derived(maze[r := maze[r][c := EMPTY]], layout)
  {
  }

  // ---------------------------------------------------------------------
  // Dot counting

  /** The dots and pellets in one row. */
  function RowDots(row: seq<int>): nat {
    if row == [] then 0 else RowDots(row[..|row| - 1]) + (if IsDot(row[|row| - 1]) then 1 else 0)
  }

  /** The dots and pellets in the whole maze, row by row as the counting loop visits them. */
  function CountDots(maze: seq<seq<int>>): nat {
    if maze == [] then 0 else CountDots(maze[..|maze| - 1]) + RowDots(maze[|maze| - 1])
  }

  /** A row counts no dots exactly when none of its tiles is a dot or a pellet. */
  lemma {:induction false} RowDotsZero(row: seq<int>)
    ensures RowDots(row) == 0 <==> forall c :: 0 <= c < |row| ==> !IsDot(row[c])
  {
    if row != [] {
      var n := |row| - 1;
      RowDotsZero(row[..n]);
      assert forall c :: 0 <= c < n ==> row[..n][c] == row[c];
    }
  }

  /** The level is cleared exactly when no dot or pellet is left anywhere in the maze. */
  lemma {:induction false} CountDotsZero(maze: seq<seq<int>>)
    ensures CountDots(maze) == 0 <==> forall r, c :: 0 <= r < |maze| && 0 <= c < |maze[r]| ==> !IsDot(maze[r][c])
  {
    if maze != [] {
      var n := |maze| - 1;
      CountDotsZero(maze[..n]);
      RowDotsZero(maze[n]);
      assert forall r :: 0 <= r < n ==> maze[..n][r] == maze[r];
    }
  }

  /** Eating a dot or pellet lowers its row's count by exactly one. */
  lemma {:induction false} RowDotsEat(row: seq<int>, c: int)
    requires 0 <= c < |row| && IsDot(row[c])
    ensures RowDots(row[c := EMPTY]) == RowDots(row) - 1
  {
    var n := |row| - 1;
    var eaten := row[c := EMPTY];
    if c == n {
      assert eaten[..n] == row[..n];
    } else {
      RowDotsEat(row[..n], c);
      assert eaten[..n] == row[..n][c := EMPTY];
    }
  }

  /** Eating a dot or pellet lowers the maze's count by exactly one. */
  lemma {:induction false} CountDotsEat(maze: seq<seq<int>>, r: int, c: int)
    requires 0 <= r < |maze| && 0 <= c < |maze[r]| && IsDot(maze[r][c])
    ensures CountDots(maze[r := maze[r][c := EMPTY]]) == CountDots(maze) - 1
  {
    var n := |maze| - 1;
    var eaten := maze[r := maze[r][c := EMPTY]];
    if r == n {
      assert eaten[..n] == maze[..n];
      RowDotsEat(maze[r], c);
    } else {
      CountDotsEat(maze[..n], r, c);
      assert eaten[..n] == maze[..n][r := maze[r][c := EMPTY]];
    }
  }

  // ---------------------------------------------------------------------
  // The player's movement

  /** A direction `{x, y}` of the source: each component -1, 0 or 1. */
  datatype Dir = Dir(dx: int, dy: int)

  const STILL: Dir := Dir(0, 0)
  const UP: Dir := Dir(0, -1)
  const DOWN: Dir := Dir(0, 1)
  const LEFT: Dir := Dir(-1, 0)
  const RIGHT: Dir := Dir(1, 0)

  /** The four headings, in the order the ghosts try them. */
  const HEADINGS: seq<Dir> := [UP, DOWN, LEFT, RIGHT]

  function Opposite(d: Dir): Dir { Dir(-d.dx, -d.dy) }

  function Abs(a: int): int { if a < 0 then -a else a }

  /** The pixel coordinate of the centre of tile t, on either axis. */
  function Centre(t: int): int { t * TILE_SIZE + HALF_TILE }

  /** The tile whose centre is at or just before pixel p. */
  function Below(p: int): int { (p - HALF_TILE) / TILE_SIZE }

  /**
   * Where the player may step from a tile: any column outside the maze is
   * the tunnel; inside the columns the row must exist and the tile must be
   * passable.
   */
  predicate Open(maze: seq<seq<int>>, c: int, r: int)
    requires Rectangular(maze)
  {
    c < 0 || c >= |maze[0]| || (0 <= r < |maze| && Passable(maze[r][c]))
  }

  /** `canMove`: whether the player on tile (tileX, tileY) may head in direction d. */
  function CanMove(maze: seq<seq<int>>, tileX: int, tileY: int, d: Dir): (ok: bool)
    requires Rectangular(maze)
    ensures ok <==> Open(maze, tileX + d.dx, tileY + d.dy)
    ensures tileX + d.dx < 0 || tileX + d.dx >= |maze[0]| ==> ok
    ensures 0 <= tileX + d.dx < |maze[0]| && !(0 <= tileY + d.dy < |maze|) ==> !ok
  {
    var nextX := tileX + d.dx;
    var nextY := tileY + d.dy;
    if nextX < 0 then true
    else if nextX >= |maze[0]| then true
    else if nextY < 0 || nextY >= |maze| then false
    else maze[nextY][nextX] != WALL && maze[nextY][nextX] != HOUSE
  }

  /** The player's position, tile and heading. */
  datatype Motion = Motion(x: int, y: int, tileX: int, tileY: int, dir: Dir)

  /** The tolerance test of `update`: within one step of the current tile's centre on both axes. */
  predicate AtCentre(m: Motion) {
    Abs(m.x - Centre(m.tileX)) < PLAYER_SPEED && Abs(m.y - Centre(m.tileY)) < PLAYER_SPEED
  }

  /**
   * The heading chosen at a tile centre: the queued direction if there is
   * one and it can be taken, else the current one, and a stop if that is
   * blocked.
   */
  function Steer(maze: seq<seq<int>>, tileX: int, tileY: int, dir: Dir, next: Dir): (d: Dir)
    requires Rectangular(maze)
    ensures d == next || d == dir || d == STILL
    ensures next != STILL && CanMove(maze, tileX, tileY, next) ==> d == next
    ensures d == STILL || CanMove(maze, tileX, tileY, d)
    ensures d == STILL <==> !(next != STILL && CanMove(maze, tileX, tileY, next)) && (dir == STILL || !CanMove(maze, tileX, tileY, dir))
  {
    var d := if next != STILL && CanMove(maze, tileX, tileY, next) then next else dir;
    if CanMove(maze, tileX, tileY, d) then d else STILL
  }

  /** The move part of `update`: one step along the heading, the tile by floor division, and the tunnel wrap. */
  function Advance(maze: seq<seq<int>>, m: Motion): (r: Motion)
    requires Rectangular(maze)
    ensures r.dir == m.dir
    ensures m.dir == STILL ==> r == m
    ensures m.dir != STILL && m.x + m.dir.dx * PLAYER_SPEED < 0 ==> r.x == |maze[0]| * TILE_SIZE && r.tileX == |maze[0]| - 1
    ensures m.dir != STILL && m.x + m.dir.dx * PLAYER_SPEED > |maze[0]| * TILE_SIZE ==> r.x == 0 && r.tileX == 0
  {
    if m.dir == STILL then m
    else
      var x := m.x + m.dir.dx * PLAYER_SPEED;
      var y := m.y + m.dir.dy * PLAYER_SPEED;
      var width := |maze[0]| * TILE_SIZE;
      if x < 0 then Motion(width, y, |maze[0]| - 1, y / TILE_SIZE, m.dir)
      else if x > width then Motion(0, y, 0, y / TILE_SIZE, m.dir)
      else Motion(x, y, x / TILE_SIZE, y / TILE_SIZE, m.dir)
  }

  /** The position part of one `update` tick: snap and steer at a tile centre, then move. */
  function Step(maze: seq<seq<int>>, m: Motion, next: Dir): Motion
    requires Rectangular(maze)
  {
    var steered :=
      if AtCentre(m) then Motion(Centre(m.tileX), Centre(m.tileY), m.tileX, m.tileY, Steer(maze, m.tileX, m.tileY, m.dir, next))
      else m;
    Advance(maze, steered)
  }

  /**
   * The player is on track: on the 4 px lattice inside the maze's width,
   * its tile the floor of its position (or the last column just after a
   * wrap), its heading one of the four or none, centred across its
   * heading, and every tile it overlaps open.
   */
  ghost predicate Track(maze: seq<seq<int>>, m: Motion)
    requires Rectangular(maze)
  {
    var lx := Below(m.x);
    var ly := Below(m.y);
    m.x % PLAYER_SPEED == 0 && m.y % PLAYER_SPEED == 0 && 0 <= m.x <= |maze[0]| * TILE_SIZE &&
    (m.tileX == m.x / TILE_SIZE || (m.x == |maze[0]| * TILE_SIZE && m.tileX == |maze[0]| - 1)) &&
    m.tileY == m.y / TILE_SIZE &&
    (m.dir == STILL || m.dir in HEADINGS) &&
    (m.dir.dy == 0 ==> m.y == Centre(ly)) &&
    (m.dir.dx == 0 ==> m.x == Centre(lx)) &&
    Open(maze, lx, ly) &&
    (m.x != Centre(lx) ==> Open(maze, lx + 1, ly)) &&
    (m.y != Centre(ly) ==> Open(maze, lx, ly + 1))
  }

  /** Pixel p lies on the 4 px lattice. */
  lemma OnLattice(p: int, k: int)
    requires p == PLAYER_SPEED * k
    ensures p % PLAYER_SPEED == 0
  {
  }

  /** A pixel from one tile centre up to the next belongs, for `Below`, to the first. */
  lemma BelowOf(p: int, q: int)
    requires Centre(q) <= p < Centre(q + 1)
    ensures Below(p) == q
  {
    assert TILE_SIZE * q <= p - HALF_TILE < TILE_SIZE * q + TILE_SIZE;
  }

  /** On the 4 px lattice the tolerance test is an exact test for a tile centre. */
  lemma CentreTest(p: int)
    requires p % PLAYER_SPEED == 0
    ensures Abs(p - Centre(p / TILE_SIZE)) < PLAYER_SPEED <==> p == Centre(Below(p))
    ensures p == Centre(Below(p)) ==> p / TILE_SIZE == Below(p)
    ensures p != Centre(Below(p)) ==> Centre(Below(p)) + PLAYER_SPEED <= p <= Centre(Below(p) + 1) - PLAYER_SPEED
    ensures Below(p) <= p / TILE_SIZE <= Below(p) + 1
  {
    var q := p / TILE_SIZE;
    var k := p / PLAYER_SPEED;
    assert p == PLAYER_SPEED * k;
    var j := k - 6 * q;
    assert p == TILE_SIZE * q + PLAYER_SPEED * j && 0 <= j < 6;
    if j >= 3 {
      BelowOf(p, q);
    } else {
      BelowOf(p, q - 1);
    }
  }

  /** On track, the player's tile row is inside the maze, and its tile is passable whenever its column is. */
  lemma TrackedTileOpen(maze: seq<seq<int>>, m: Motion)
    requires Rectangular(maze) && Track(maze, m)
    ensures 0 <= m.tileY < |maze| && 0 <= m.tileX <= |maze[0]|
    ensures 0 <= m.tileX < |maze[0]| ==> Passable(maze[m.tileY][m.tileX])
  {
    CentreTest(m.x);
    CentreTest(m.y);
  }

  /** One step from pixel p on the lattice, seen from the tile centres on either side. */
  lemma LatticeStep(p: int, s: int)
    requires p % PLAYER_SPEED == 0 && (s == PLAYER_SPEED || s == -PLAYER_SPEED)
    ensures (p + s) % PLAYER_SPEED == 0
    ensures p == Centre(Below(p)) && s > 0 ==> Below(p + s) == Below(p) && p + s != Centre(Below(p))
    ensures p == Centre(Below(p)) && s < 0 ==> Below(p + s) == Below(p) - 1 && p + s != Centre(Below(p) - 1)
    ensures p != Centre(Below(p)) && s > 0 ==>
      (Below(p + s) == Below(p) && p + s != Centre(Below(p))) || (Below(p + s) == Below(p) + 1 && p + s == Centre(Below(p) + 1))
    ensures p != Centre(Below(p)) && s < 0 ==> Below(p + s) == Below(p)
  {
    OnLattice(p + s, p / PLAYER_SPEED + s / PLAYER_SPEED);
    CentreTest(p);
    var q := Below(p);
    if p == Centre(q) {
      if s > 0 { BelowOf(p + s, q); } else { BelowOf(p + s, q - 1); }
    } else if s > 0 && p + s == Centre(q + 1) {
      BelowOf(p + s, q + 1);
    } else {
      BelowOf(p + s, q);
    }
  }

  /** Leaving a tile centre on a heading `canMove` allows, or standing still, keeps the player on track. */
  lemma FromCentre(maze: seq<seq<int>>, m: Motion)
    requires Rectangular(maze)
    requires m.x == Centre(m.tileX) && m.y == Centre(m.tileY)
    requires 0 <= m.tileX < |maze[0]| && 0 <= m.tileY < |maze| && Passable(maze[m.tileY][m.tileX])
    requires m.dir == STILL || (m.dir in HEADINGS && CanMove(maze, m.tileX, m.tileY, m.dir))
    ensures Track(maze, Advance(maze, m))
  {
    BelowOf(m.x, m.tileX);
    BelowOf(m.y, m.tileY);
    OnLattice(m.x, 6 * m.tileX + 3);
    OnLattice(m.y, 6 * m.tileY + 3);
    if m.dir == STILL {
      CentreTest(m.x);
      CentreTest(m.y);
    } else if m.dir == LEFT || m.dir == RIGHT {
      LatticeStep(m.x, m.dir.dx * PLAYER_SPEED);
    } else {
      LatticeStep(m.y, m.dir.dy * PLAYER_SPEED);
    }
  }

  /** The player as `reset` leaves it: standing on the centre of its start tile. */
  const START: Motion := Motion(Centre(START_TILE_X), Centre(START_TILE_Y), START_TILE_X, START_TILE_Y, STILL)

  /** In a playable maze the player starts on track. */
  lemma StartOnTrack(maze: seq<seq<int>>)
    requires Playable(maze)
    ensures Track(maze, START)
  {
    FromCentre(maze, START);
  }

  /** Eating a dot or pellet opens no wall and closes no passage, so the player stays on track. */
  lemma EatKeepsTrack(maze: seq<seq<int>>, r: int, c: int, m: Motion)
    requires Rectangular(maze) && Track(maze, m)
    requires 0 <= r < |maze| && 0 <= c < |maze[r]| && IsDot(maze[r][c])
    ensures Rectangular(maze[r := maze[r][c := EMPTY]]) && Track(maze[r := maze[r][c := EMPTY]], m)
  {
    var eaten := maze[r := maze[r][c := EMPTY]];
    assert Rectangular(eaten);
    forall a, b ensures Open(eaten, a, b) == Open(maze, a, b) {
    }
  }

  /** Between two tile centres on a row, one step keeps the player on track, through the tunnel too. */
  lemma BetweenColumns(maze: seq<seq<int>>, m: Motion)
    requires Rectangular(maze) && TunnelOpen(maze) && Track(maze, m)
    requires m.x != Centre(Below(m.x)) && (m.dir == LEFT || m.dir == RIGHT)
    ensures Track(maze, Advance(maze, m))
  {
    var w := |maze[0]|;
    var lx, ly := Below(m.x), Below(m.y);
    LatticeStep(m.x, m.dir.dx * PLAYER_SPEED);
    if m.x == w * TILE_SIZE && m.dir == RIGHT {
      BelowOf(m.x, w - 1);
      BelowOf(0, -1);
      assert Passable(maze[ly][w - 1]);
      assert Open(maze, 0, ly);
    } else if m.x == 0 && m.dir == LEFT {
      BelowOf(0, -1);
      BelowOf(w * TILE_SIZE, w - 1);
      OnLattice(w * TILE_SIZE, 6 * w);
      assert Passable(maze[ly][0]);
      assert Open(maze, w - 1, ly);
    }
  }

  /** Between two tile centres in a column, one step keeps the player on track. */
  lemma BetweenRows(maze: seq<seq<int>>, m: Motion)
    requires Rectangular(maze) && Track(maze, m)
    requires m.y != Centre(Below(m.y)) && (m.dir == UP || m.dir == DOWN)
    ensures Track(maze, Advance(maze, m))
  {
    LatticeStep(m.y, m.dir.dy * PLAYER_SPEED);
  }

  /**
   * The movement part of `update` keeps the player on track, whatever
   * direction is queued: `canMove` is what keeps it out of walls and the
   * ghost house, and a matching tunnel keeps the wrap safe.
   */
  lemma StepKeepsTrack(maze: seq<seq<int>>, m: Motion, next: Dir)
    requires Rectangular(maze) && TunnelOpen(maze) && Track(maze, m)
    requires next == STILL || next in HEADINGS
    ensures Track(maze, Step(maze, m, next))
  {
    if AtCentre(m) {
      CentreTest(m.x);
      CentreTest(m.y);
      TrackedTileOpen(maze, m);
      var d := Steer(maze, m.tileX, m.tileY, m.dir, next);
      FromCentre(maze, Motion(Centre(m.tileX), Centre(m.tileY), m.tileX, m.tileY, d));
    } else {
      CentreTest(m.x);
      CentreTest(m.y);
      if m.dir == LEFT || m.dir == RIGHT {
        BetweenColumns(maze, m);
      } else {
        BetweenRows(maze, m);
      }
    }
  }

  // ---------------------------------------------------------------------
  // The ghosts' choice of direction

  /** The four ghosts' personalities. */
  datatype Behavior = Chase | Ambush | RandomWalk | Patrol

  /** A tile a ghost may head for: the tunnel, or a non-wall tile of an existing row. The ghost house is allowed. */
  predicate GhostOpen(maze: seq<seq<int>>, c: int, r: int)
    requires Rectangular(maze)
  {
    c < 0 || c >= |maze[0]| || (0 <= r < |maze| && maze[r][c] != WALL)
  }

  /** The filter of `chooseDirection`: not the exact reverse of the current heading, and not into a wall. */
  predicate Allowed(maze: seq<seq<int>>, tileX: int, tileY: int, facing: Dir, d: Dir)
    requires Rectangular(maze)
  {
    d != Opposite(facing) && GhostOpen(maze, tileX + d.dx, tileY + d.dy)
  }

  /** The place of a heading in the order up, down, left, right. */
  function Rank(d: Dir): nat {
    if d == UP then 0 else if d == DOWN then 1 else if d == LEFT then 2 else 3
  }

  /** Directions listed in the order up, down, left, right. */
  predicate InOrder(ds: seq<Dir>) {
    forall i, j :: 0 <= i < j < |ds| ==> Rank(ds[i]) < Rank(ds[j])
  }

  /** The allowed directions among ds, in the order of ds. */
  function Candidates(maze: seq<seq<int>>, tileX: int, tileY: int, facing: Dir, ds: seq<Dir>): (c: seq<Dir>)
    requires Rectangular(maze)
    ensures forall d :: d in c <==> d in ds && Allowed(maze, tileX, tileY, facing, d)
  {
    if ds == [] then []
    else
      var d := ds[|ds| - 1];
      assert ds == ds[..|ds| - 1] + [d];
      var rest := Candidates(maze, tileX, tileY, facing, ds[..|ds| - 1]);
      if Allowed(maze, tileX, tileY, facing, d) then rest + [d] else rest
  }

  /** Filtering keeps the order up, down, left, right. */
  lemma {:induction false} CandidatesInOrder(maze: seq<seq<int>>, tileX: int, tileY: int, facing: Dir, ds: seq<Dir>)
    requires Rectangular(maze) && InOrder(ds)
    ensures InOrder(Candidates(maze, tileX, tileY, facing, ds))
  {
    if ds != [] {
      var n := |ds| - 1;
      var rest := Candidates(maze, tileX, tileY, facing, ds[..n]);
      assert InOrder(ds[..n]);
      CandidatesInOrder(maze, tileX, tileY, facing, ds[..n]);
      if Allowed(maze, tileX, tileY, facing, ds[n]) {
        var c := rest + [ds[n]];
        forall i, j | 0 <= i < j < |c|
          ensures Rank(c[i]) < Rank(c[j])
        {
          if j < |rest| {
            assert c[i] == rest[i] && c[j] == rest[j];
          } else {
            assert c[i] in ds[..n];
            var k :| 0 <= k < n && ds[..n][k] == c[i];
            assert ds[k] == c[i];
          }
        }
      }
    }
  }

  /** The squared distance from the tile one step along d to the target tile. */
  function Dist2(tileX: int, tileY: int, d: Dir, targetX: int, targetY: int): int {
    var dx := targetX - (tileX + d.dx);
    var dy := targetY - (tileY + d.dy);
    dx * dx + dy * dy
  }

  /** The squared distance to the target after each of the directions. */
  function Distances(ds: seq<Dir>, tileX: int, tileY: int, targetX: int, targetY: int): (keys: seq<int>)
    ensures |keys| == |ds|
    ensures forall i :: 0 <= i < |ds| ==> keys[i] == Dist2(tileX, tileY, ds[i], targetX, targetY)
  {
    if ds == [] then []
    else Distances(ds[..|ds| - 1], tileX, tileY, targetX, targetY) + [Dist2(tileX, tileY, ds[|ds| - 1], targetX, targetY)]
  }

  /**
   * The first element of an ascending stable sort: the first index holding
   * the least key. Sorting by `Math.sqrt` of squared distances orders as
   * the squared distances do, since the square root is monotone.
   */
  function FirstMin(keys: seq<int>): (i: nat)
    requires |keys| > 0
    ensures i < |keys|
    ensures forall j :: 0 <= j < |keys| ==> keys[i] <= keys[j]
    ensures forall j :: 0 <= j < i ==> keys[j] > keys[i]
  {
    if |keys| == 1 then 0
    else
      var k := FirstMin(keys[..|keys| - 1]);
      if keys[|keys| - 1] < keys[k] then |keys| - 1 else k
  }

  /** The first element of a descending stable sort: the first index holding the greatest key. */
  function FirstMax(keys: seq<int>): (i: nat)
    requires |keys| > 0
    ensures i < |keys|
    ensures forall j :: 0 <= j < |keys| ==> keys[i] >= keys[j]
    ensures forall j :: 0 <= j < i ==> keys[j] < keys[i]
  {
    if |keys| == 1 then 0
    else
      var k := FirstMax(keys[..|keys| - 1]);
      if keys[|keys| - 1] > keys[k] then |keys| - 1 else k
  }

  /** The ambusher's target coordinate: four tiles ahead of the player along its heading. */
  function Ahead(p: int, step: int): int { p + step * AMBUSH_LEAD }

  /** `chooseDirection`: where a ghost at a tile centre heads next. `pick` is the random draw, taken modulo the number of candidates. */
  function Choice(maze: seq<seq<int>>, tileX: int, tileY: int, facing: Dir, scared: bool, behavior: Behavior,
                  playerX: int, playerY: int, playerDir: Dir, pick: nat): Dir
    requires Rectangular(maze)
  {
    var c := Candidates(maze, tileX, tileY, facing, HEADINGS);
    if c == [] then Opposite(facing)
    else if scared then c[FirstMax(Distances(c, tileX, tileY, playerX, playerY))]
    else match behavior
      case Chase => c[FirstMin(Distances(c, tileX, tileY, playerX, playerY))]
      case Ambush =>
        c[FirstMin(Distances(c, tileX, tileY, Ahead(playerX, playerDir.dx), Ahead(playerY, playerDir.dy)))]
      case _ => c[pick % |c|]
  }

  /** d is the allowed heading nearest the target, and the first in the order up, down, left, right among the nearest. */
  ghost predicate NearestAllowed(maze: seq<seq<int>>, tileX: int, tileY: int, facing: Dir, d: Dir, targetX: int, targetY: int)
    requires Rectangular(maze)
  {
    forall h :: h in HEADINGS && Allowed(maze, tileX, tileY, facing, h) ==>
      Dist2(tileX, tileY, d, targetX, targetY) <= Dist2(tileX, tileY, h, targetX, targetY) &&
      (Rank(h) < Rank(d) ==> Dist2(tileX, tileY, h, targetX, targetY) > Dist2(tileX, tileY, d, targetX, targetY))
  }

  /** d is the allowed heading farthest from the target, and the first in the order up, down, left, right among the farthest. */
  ghost predicate FarthestAllowed(maze: seq<seq<int>>, tileX: int, tileY: int, facing: Dir, d: Dir, targetX: int, targetY: int)
    requires Rectangular(maze)
  {
    forall h :: h in HEADINGS && Allowed(maze, tileX, tileY, facing, h) ==>
      Dist2(tileX, tileY, d, targetX, targetY) >= Dist2(tileX, tileY, h, targetX, targetY) &&
      (Rank(h) < Rank(d) ==> Dist2(tileX, tileY, h, targetX, targetY) < Dist2(tileX, tileY, d, targetX, targetY))
  }

  /** Sorting the candidates by distance and taking the first gives the nearest allowed heading, ties to the earliest. */
  lemma SortedNearest(maze: seq<seq<int>>, tileX: int, tileY: int, facing: Dir, targetX: int, targetY: int)
    requires Rectangular(maze)
    requires Candidates(maze, tileX, tileY, facing, HEADINGS) != []
    ensures var c := Candidates(maze, tileX, tileY, facing, HEADINGS);
      NearestAllowed(maze, tileX, tileY, facing, c[FirstMin(Distances(c, tileX, tileY, targetX, targetY))], targetX, targetY)
  {
    var c := Candidates(maze, tileX, tileY, facing, HEADINGS);
    var keys := Distances(c, tileX, tileY, targetX, targetY);
    var i := FirstMin(keys);
    CandidatesInOrder(maze, tileX, tileY, facing, HEADINGS);
    forall h | h in HEADINGS && Allowed(maze, tileX, tileY, facing, h)
      ensures Dist2(tileX, tileY, c[i], targetX, targetY) <= Dist2(tileX, tileY, h, targetX, targetY)
      ensures Rank(h) < Rank(c[i]) ==> Dist2(tileX, tileY, h, targetX, targetY) > Dist2(tileX, tileY, c[i], targetX, targetY)
    {
      var j :| 0 <= j < |c| && c[j] == h;
      assert keys[j] == Dist2(tileX, tileY, h, targetX, targetY);
      if Rank(h) < Rank(c[i]) {
        assert j < i;
      }
    }
  }

  /** Sorting the candidates by distance, farthest first, gives the farthest allowed heading, ties to the earliest. */
  lemma SortedFarthest(maze: seq<seq<int>>, tileX: int, tileY: int, facing: Dir, targetX: int, targetY: int)
    requires Rectangular(maze)
    requires Candidates(maze, tileX, tileY, facing, HEADINGS) != []
    ensures var c := Candidates(maze, tileX, tileY, facing, HEADINGS);
      FarthestAllowed(maze, tileX, tileY, facing, c[FirstMax(Distances(c, tileX, tileY, targetX, targetY))], targetX, targetY)
  {
    var c := Candidates(maze, tileX, tileY, facing, HEADINGS);
    var keys := Distances(c, tileX, tileY, targetX, targetY);
    var i := FirstMax(keys);
    CandidatesInOrder(maze, tileX, tileY, facing, HEADINGS);
    forall h | h in HEADINGS && Allowed(maze, tileX, tileY, facing, h)
      ensures Dist2(tileX, tileY, c[i], targetX, targetY) >= Dist2(tileX, tileY, h, targetX, targetY)
      ensures Rank(h) < Rank(c[i]) ==> Dist2(tileX, tileY, h, targetX, targetY) < Dist2(tileX, tileY, c[i], targetX, targetY)
    {
      var j :| 0 <= j < |c| && c[j] == h;
      assert keys[j] == Dist2(tileX, tileY, h, targetX, targetY);
      if Rank(h) < Rank(c[i]) {
        assert j < i;
      }
    }
  }

  /**
   * What `chooseDirection` promises: with no candidate the ghost reverses;
   * otherwise it takes an allowed heading (never the reverse, never into a
   * wall), running from the player when scared, chasing the player's tile
   * or the tile four ahead of the player by behaviour, ties to the earliest
   * of up, down, left, right.
   */
  lemma ChoiceSpec(maze: seq<seq<int>>, tileX: int, tileY: int, facing: Dir, scared: bool, behavior: Behavior,
                   playerX: int, playerY: int, playerDir: Dir, pick: nat)
    requires Rectangular(maze)
    ensures var d := Choice(maze, tileX, tileY, facing, scared, behavior, playerX, playerY, playerDir, pick);
      var stuck := forall h :: h in HEADINGS ==> !Allowed(maze, tileX, tileY, facing, h);
      (stuck ==> d == Opposite(facing)) &&
      (!stuck ==> d in HEADINGS && Allowed(maze, tileX, tileY, facing, d)) &&
      (!stuck && scared ==> FarthestAllowed(maze, tileX, tileY, facing, d, playerX, playerY)) &&
      (!stuck && !scared && behavior == Chase ==> NearestAllowed(maze, tileX, tileY, facing, d, playerX, playerY)) &&
      (!stuck && !scared && behavior == Ambush ==>
        NearestAllowed(maze, tileX, tileY, facing, d, Ahead(playerX, playerDir.dx), Ahead(playerY, playerDir.dy)))
  {
    var c := Candidates(maze, tileX, tileY, facing, HEADINGS);
    var d := Choice(maze, tileX, tileY, facing, scared, behavior, playerX, playerY, playerDir, pick);
    if c != [] {
      var i: nat;
      if scared {
        i := FirstMax(Distances(c, tileX, tileY, playerX, playerY));
        SortedFarthest(maze, tileX, tileY, facing, playerX, playerY);
      } else if behavior == Chase {
        i := FirstMin(Distances(c, tileX, tileY, playerX, playerY));
        SortedNearest(maze, tileX, tileY, facing, playerX, playerY);
      } else if behavior == Ambush {
        i := FirstMin(Distances(c, tileX, tileY, Ahead(playerX, playerDir.dx), Ahead(playerY, playerDir.dy)));
        SortedNearest(maze, tileX, tileY, facing, Ahead(playerX, playerDir.dx), Ahead(playerY, playerDir.dy));
      } else {
        i := pick % |c|;
      }
      assert d == c[i] && c[i] in c;
    }
  }
}
