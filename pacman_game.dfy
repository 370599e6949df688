/**
 * The maze-chase game's objects: the player, the four ghosts and the game
 * that owns the maze, the score and the lives. Each source method that
 * updates fields becomes a method with a field frame; the frame time, the
 * random draw of the wandering ghosts and the distance test between the
 * player and a ghost become parameters.
 */
module PacmanGame {
  import opened Common
  import opened PacmanMaze

  const POWER_DURATION: int := 8000
  const GHOST_COUNT: int := 4
  const START_LIVES: int := 3
  const DOT_POINTS: int := 10
  const PELLET_POINTS: int := 50
  const GHOST_POINTS: int := 200
  /** Each ghost waits this much longer than the one before it to leave the house. */
  const EXIT_STAGGER: int := 2000
  const HOUSE_TILE_Y: int := 9
  /** The row a ghost jumps to when it leaves the house. */
  const EXIT_TILE_Y: int := 7

  /** `maze[tileY]?.[tileX]`: the tile, or -1 for JavaScript's `undefined` off the maze. */
  function TileAt(maze: seq<seq<int>>, x: int, y: int): int {
    if 0 <= y < |maze| && 0 <= x < |maze[y]| then maze[y][x] else -1
  }

  class Player {
    var x: int
    var y: int
    var tileX: int
    var tileY: int
    var dir: Dir
    var nextDir: Dir
    var powered: bool
    var powerTimer: int

    /** Position, tile and heading as one value. */
    function Pose(): Motion
      reads this`x, this`y, this`tileX, this`tileY, this`dir
    {
      Motion(x, y, tileX, tileY, dir)
    }

    /** As `reset` leaves the player: still, on its start tile, nothing queued, no power. */
    predicate AtStart()
      reads this`x, this`y, this`tileX, this`tileY, this`dir, this`nextDir, this`powered, this`powerTimer
    {
      Pose() == START && nextDir == STILL && !powered && powerTimer == 0
    }

    constructor()
      ensures AtStart()
    {
      tileX, tileY := START_TILE_X, START_TILE_Y;
      x, y := Centre(START_TILE_X), Centre(START_TILE_Y);
      dir, nextDir := STILL, STILL;
      powered, powerTimer := false, 0;
    }

    method Reset()
      modifies this
      ensures AtStart()
    {
      tileX, tileY := START_TILE_X, START_TILE_Y;
      x, y := Centre(START_TILE_X), Centre(START_TILE_Y);
      dir, nextDir := STILL, STILL;
      powered, powerTimer := false, 0;
    }

    /** `setDirection`: queue a heading; it is taken at the next tile centre that allows it. */
    method SetDirection(d: Dir)
      requires d in HEADINGS
      modifies this`nextDir
      ensures nextDir == d
    {
      nextDir := d;
    }

    /** The pellet's effect on the player: powered for the full power time. */
    method PowerUp()
      modifies this`powered, this`powerTimer
      ensures powered && powerTimer == POWER_DURATION
    {
      powered, powerTimer := true, POWER_DURATION;
    }

    /**
     * `update` without the mouth animation: the power countdown, then the
     * movement: snap and steer at a tile centre, move one step, wrap
     * through the tunnel.
     */
    method Update(maze: seq<seq<int>>, dt: int)
      requires Rectangular(maze)
      modifies this
      ensures Pose() == Step(maze, old(Pose()), old(nextDir))
      ensures nextDir == old(nextDir)
      ensures old(powered) ==> powerTimer == old(powerTimer) - dt && powered == (powerTimer > 0)
      ensures !old(powered) ==> !powered && powerTimer == old(powerTimer)
    {
      if powered {
        powerTimer := powerTimer - dt;
        if powerTimer <= 0 {
          powered := false;
        }
      }
      SnapAndSteer(maze);
      Move(maze);
    }

    /** At a tile centre: snap onto it, take the queued heading if `canMove` allows it, stop if the heading is blocked. */
    method SnapAndSteer(maze: seq<seq<int>>)
      requires Rectangular(maze)
      modifies this`x, this`y, this`dir
      ensures AtCentre(old(Pose())) ==>
        Pose() == Motion(Centre(tileX), Centre(tileY), tileX, tileY, Steer(maze, tileX, tileY, old(dir), nextDir))
      ensures !AtCentre(old(Pose())) ==> Pose() == old(Pose())
    {
      var centreX := Centre(tileX);
      var centreY := Centre(tileY);
      if Abs(x - centreX) < PLAYER_SPEED && Abs(y - centreY) < PLAYER_SPEED {
        x, y := centreX, centreY;
        if nextDir.dx != 0 || nextDir.dy != 0 {
          if CanMove(maze, tileX, tileY, nextDir) {
            dir := nextDir;
          }
        }
        if !CanMove(maze, tileX, tileY, dir) {
          dir := STILL;
        }
      }
    }

    /** One step along the heading, the tile by floor division, and the tunnel wrap. */
    method Move(maze: seq<seq<int>>)
      requires Rectangular(maze)
      modifies this`x, this`y, this`tileX, this`tileY
      ensures Pose() == Advance(maze, old(Pose()))
    {
      if dir.dx != 0 || dir.dy != 0 {
        x := x + dir.dx * PLAYER_SPEED;
        y := y + dir.dy * PLAYER_SPEED;
        tileX := x / TILE_SIZE;
        tileY := y / TILE_SIZE;
        if x < 0 {
          x := |maze[0]| * TILE_SIZE;
          tileX := |maze[0]| - 1;
        }
        if x > |maze[0]| * TILE_SIZE {
          x := 0;
          tileX := 0;
        }
      }
    }
  }

  /** A ghost's fields as one value. */
  datatype GhostView = GhostView(tileX: int, tileY: int, dir: Dir, scared: bool, scaredTimer: int,
                                 eaten: bool, exitDelay: int, exited: bool)

  /** A ghost as the power pellet leaves it: scared for the full power time. */
  function Scare(v: GhostView): GhostView {
    v.(scared := true, scaredTimer := POWER_DURATION)
  }

  /**
   * The timers of `Ghost.update`: a ghost still in the house counts down
   * its exit delay and, once it runs out, jumps to the exit row and does
   * nothing else that tick; a ghost outside counts down its fright.
   */
  function Ticked(v: GhostView, dt: int): (r: GhostView)
    ensures r.tileX == v.tileX && r.dir == v.dir && r.eaten == v.eaten
    ensures !v.exited ==>
      r.exitDelay == v.exitDelay - dt && r.exited == (r.exitDelay <= 0) &&
      r.tileY == (if r.exited then EXIT_TILE_Y else v.tileY) &&
      r.scared == v.scared && r.scaredTimer == v.scaredTimer
    ensures v.exited ==>
      r.exited && r.exitDelay == v.exitDelay && r.tileY == v.tileY &&
      (v.scared ==> r.scaredTimer == v.scaredTimer - dt && r.scared == (r.scaredTimer > 0)) &&
      (!v.scared ==> !r.scared && r.scaredTimer == v.scaredTimer)
  {
    if !v.exited then
      var delay := v.exitDelay - dt;
      if delay <= 0 then v.(exitDelay := delay, exited := true, tileY := EXIT_TILE_Y) else v.(exitDelay := delay)
    else if v.scared then
      var timer := v.scaredTimer - dt;
      v.(scaredTimer := timer, scared := timer > 0)
    else v
  }

  /** The time covered by a run of frames. */
  function Elapsed(dts: seq<int>): int
    decreases |dts|
  {
    if dts == [] then 0 else dts[0] + Elapsed(dts[1..])
  }

  /** The timers of a ghost after a run of frames. */
  function TickedRun(v: GhostView, dts: seq<int>): GhostView
    decreases |dts|
  {
    if dts == [] then v else TickedRun(Ticked(v, dts[0]), dts[1..])
  }

  /** Frames of non-negative length add up to a non-negative time. */
  lemma {:induction false} ElapsedNonNegative(dts: seq<int>)
    requires forall i :: 0 <= i < |dts| ==> dts[i] >= 0
    ensures Elapsed(dts) >= 0
    decreases |dts|
  {
    if dts != [] {
      ElapsedNonNegative(dts[1..]);
    }
  }

  /** A ghost out of the house stays out, on its row, with its exit delay left alone. */
  lemma {:induction false} StaysOut(v: GhostView, dts: seq<int>)
    requires v.exited
    ensures var r := TickedRun(v, dts);
            r.exited && r.tileX == v.tileX && r.tileY == v.tileY && r.exitDelay == v.exitDelay
    decreases |dts|
  {
    if dts != [] {
      StaysOut(Ticked(v, dts[0]), dts[1..]);
    }
  }

  /** A ghost out of the house and not scared has timers that no frame changes. */
  lemma {:induction false} CalmStaysCalm(v: GhostView, dts: seq<int>)
    requires v.exited && !v.scared
    ensures TickedRun(v, dts) == v
    decreases |dts|
  {
    if dts != [] {
      CalmStaysCalm(Ticked(v, dts[0]), dts[1..]);
    }
  }

  /**
   * A ghost in the house leaves it once the frames add up to its exit
   * delay, and not before; it then stands on the exit row. Until then its
   * delay holds what is left and its fright is left alone.
   */
  lemma {:induction false} ExitAfterDelay(v: GhostView, dts: seq<int>)
    requires !v.exited && forall i :: 0 <= i < |dts| ==> dts[i] >= 0
    ensures var r := TickedRun(v, dts);
            (r.exited <==> |dts| > 0 && Elapsed(dts) >= v.exitDelay)
            && (r.exited ==> r.tileY == EXIT_TILE_Y)
            && (!r.exited ==> r.exitDelay == v.exitDelay - Elapsed(dts) && r.tileY == v.tileY
                              && r.scared == v.scared && r.scaredTimer == v.scaredTimer)
    decreases |dts|
  {
    if dts != [] {
      var rest := dts[1..];
      assert forall i :: 0 <= i < |rest| ==> rest[i] == dts[i + 1];
      ElapsedNonNegative(rest);
      var v1 := Ticked(v, dts[0]);
      if v1.exited {
        StaysOut(v1, rest);
      } else {
        ExitAfterDelay(v1, rest);
      }
    }
  }

  /**
   * A scared ghost out of the house stays scared exactly while the frames
   * add up to less than its fright timer, and while scared the timer holds
   * what is left.
   */
  lemma {:induction false} FrightLasts(v: GhostView, dts: seq<int>)
    requires v.exited && v.scared && v.scaredTimer > 0 && forall i :: 0 <= i < |dts| ==> dts[i] >= 0
    ensures var r := TickedRun(v, dts);
            r.exited && (r.scared <==> Elapsed(dts) < v.scaredTimer)
            && (r.scared ==> r.scaredTimer == v.scaredTimer - Elapsed(dts))
    decreases |dts|
  {
    if dts != [] {
      var rest := dts[1..];
      assert forall i :: 0 <= i < |rest| ==> rest[i] == dts[i + 1];
      ElapsedNonNegative(rest);
      var v1 := Ticked(v, dts[0]);
      if v1.scared {
        FrightLasts(v1, rest);
      } else {
        CalmStaysCalm(v1, rest);
      }
    }
  }

  class Ghost {
    const index: nat
    const behavior: Behavior
    var tileX: int
    var tileY: int
    var dir: Dir
    var scared: bool
    var scaredTimer: int
    var eaten: bool
    var exitDelay: int
    var exited: bool

    function View(): GhostView
      reads this`tileX, this`tileY, this`dir, this`scared, this`scaredTimer, this`eaten, this`exitDelay, this`exited
    {
      GhostView(tileX, tileY, dir, scared, scaredTimer, eaten, exitDelay, exited)
    }

    /** As `reset` leaves the ghost: in the house, facing up, calm, waiting its turn to leave. */
    predicate AtHome()
      reads this`tileX, this`tileY, this`dir, this`scared, this`scaredTimer, this`eaten, this`exitDelay, this`exited
    {
      View() == GhostView(HOUSE_TILE_X + index % 2 - 1, HOUSE_TILE_Y, UP, false, 0, false, index * EXIT_STAGGER, false)
    }

    constructor(index: nat, behavior: Behavior)
      ensures this.index == index && this.behavior == behavior && AtHome()
    {
      this.index := index;
      this.behavior := behavior;
      tileX, tileY := HOUSE_TILE_X + index % 2 - 1, HOUSE_TILE_Y;
      dir := UP;
      scared, scaredTimer := false, 0;
      eaten := false;
      exitDelay, exited := index * EXIT_STAGGER, false;
    }

    method Reset()
      modifies this
      ensures AtHome()
    {
      tileX, tileY := HOUSE_TILE_X + index % 2 - 1, HOUSE_TILE_Y;
      dir := UP;
      scared, scaredTimer := false, 0;
      eaten := false;
      exitDelay, exited := index * EXIT_STAGGER, false;
    }

    /** The timers of `update`, as `Ticked` says. */
    method Tick(dt: int)
      modifies this
      ensures View() == Ticked(old(View()), dt)
    {
      if !exited {
        exitDelay := exitDelay - dt;
        if exitDelay <= 0 {
          exited := true;
          tileY := EXIT_TILE_Y;
        }
        return;
      }
      if scared {
        scaredTimer := scaredTimer - dt;
        if scaredTimer <= 0 {
          scared := false;
        }
      }
    }

    /** `chooseDirection`, run at a tile centre; `pick` is the random draw of the wandering ghosts. */
    method ChooseDirection(maze: seq<seq<int>>, playerTileX: int, playerTileY: int, playerDir: Dir, pick: nat)
      requires Rectangular(maze)
      modifies this`dir
      ensures dir == Choice(maze, tileX, tileY, old(dir), scared, behavior, playerTileX, playerTileY, playerDir, pick)
    {
      dir := Choice(maze, tileX, tileY, dir, scared, behavior, playerTileX, playerTileY, playerDir, pick);
    }
  }

  const HOUSE_TILE_X: int := 9

  /** The personalities in ghost order. */
  const BEHAVIORS: seq<Behavior> := [Chase, Ambush, RandomWalk, Patrol]

  /** The views of a list of ghosts. */
  function Views(gs: seq<Ghost>): (vs: seq<GhostView>)
    reads set g | g in gs
    ensures |vs| == |gs|
    ensures forall i :: 0 <= i < |gs| ==> vs[i] == gs[i].View()
  {
    if gs == [] then [] else Views(gs[..|gs| - 1]) + [gs[|gs| - 1].View()]
  }

  /** Ghost i takes part in `checkCollisions`: it has left the house, is not eaten, and touches the player. */
  predicate Contact(v: GhostView, i: int, touching: set<int>) {
    i in touching && v.exited && !v.eaten
  }

  /** A ghost after a contact: eaten if it was scared. */
  function Contacted(v: GhostView, i: int, touching: set<int>): GhostView {
    if Contact(v, i, touching) && v.scared then v.(eaten := true) else v
  }

  /** The first ghost before n whose contact costs a life. */
  function Threat(vs: seq<GhostView>, touching: set<int>, n: nat): (k: Option<nat>)
    requires n <= |vs|
    ensures k.Some? ==> k.value < n
  {
    if n == 0 then None
    else match Threat(vs, touching, n - 1)
      case Some(k) => Some(k)
      case None => if Contact(vs[n - 1], n - 1, touching) && !vs[n - 1].scared then Some(n - 1) else None
  }

  /** Threat finds the first contact with a ghost that is not scared, and finds none only when there is none. */
  lemma {:induction false} ThreatIsFirst(vs: seq<GhostView>, touching: set<int>, n: nat)
    requires n <= |vs|
    ensures var k := Threat(vs, touching, n);
      (k.Some? ==> (Contact(vs[k.value], k.value, touching) && !vs[k.value].scared &&
        forall j :: 0 <= j < k.value ==> !(Contact(vs[j], j, touching) && !vs[j].scared))) &&
      (k.None? <==> forall j :: 0 <= j < n ==> !(Contact(vs[j], j, touching) && !vs[j].scared))
  {
    if n > 0 {
      ThreatIsFirst(vs, touching, n - 1);
    }
  }

  /** The ghosts after the first n have been met: those in contact and scared are eaten. */
  function Swept(vs: seq<GhostView>, touching: set<int>, n: nat): (ws: seq<GhostView>)
    requires n <= |vs|
    ensures |ws| == |vs|
  {
    if n == 0 then vs else Swept(vs, touching, n - 1)[n - 1 := Contacted(vs[n - 1], n - 1, touching)]
  }

  /** Exactly the first n ghosts have been met. */
  lemma {:induction false} SweptMeetsFirst(vs: seq<GhostView>, touching: set<int>, n: nat)
    requires n <= |vs|
    ensures forall j :: 0 <= j < |vs| ==> Swept(vs, touching, n)[j] == if j < n then Contacted(vs[j], j, touching) else vs[j]
  {
    if n > 0 {
      SweptMeetsFirst(vs, touching, n - 1);
    }
  }

  /** A ghost not yet met is as it was. */
  lemma {:induction false} SweptNotYet(vs: seq<GhostView>, touching: set<int>, n: nat, j: nat)
    requires n <= j < |vs|
    ensures Swept(vs, touching, n)[j] == vs[j]
  {
    if n > 0 {
      SweptNotYet(vs, touching, n - 1, j);
    }
  }

  /** How many of the first n ghosts are scared and in contact, each worth 200 points. */
  function Feasts(vs: seq<GhostView>, touching: set<int>, n: nat): nat
    requires n <= |vs|
  {
    if n == 0 then 0
    else Feasts(vs, touching, n - 1) + (if Contact(vs[n - 1], n - 1, touching) && vs[n - 1].scared then 1 else 0)
  }

  /** `state`. */
  datatype Mode = Menu | Playing | LevelComplete | Over

  /**
   * The level-complete test of `Game.update` as written: it runs after
   * the collision check even when that check has just ended the game.
   */
  function LevelCheckAsWritten(m: Mode, dotsCollected: int, totalDots: int): Mode {
    if dotsCollected >= totalDots then LevelComplete else m
  }

  /** The level-complete test applied only while play goes on. */
  function LevelCheck(m: Mode, dotsCollected: int, totalDots: int): (r: Mode)
    ensures m != Playing ==> r == m
    ensures m == Playing ==> (r == LevelComplete <==> dotsCollected >= totalDots) && (r == Playing || r == LevelComplete)
  {
    if m == Playing && dotsCollected >= totalDots then LevelComplete else m
  }

  /**
   * As written, losing the last life on the tick that eats the last dot
   * turns the ended game into a completed level, from which the level
   * timers resume play with no lives left.
   */
  lemma GameOverOverwritten()
    ensures LevelCheckAsWritten(Over, 185, 185) == LevelComplete
    ensures LevelCheck(Over, 185, 185) == Over
  {
  }

  class Game {
    var mode: Mode
    var score: int
    var highScore: int
    var lives: int
    var level: int
    var maze: seq<seq<int>>
    var dotsCollected: int
    var totalDots: int
    var player: Player
    var ghosts: seq<Ghost>
    /** The layout every level starts from: the module's maze template, fixed when the game is built. */
    const layout: seq<seq<int>>

    /**
     * Once a game has started, the maze is the layout less the dots eaten,
     * and the dots collected and the dots left add up to the level's total.
     */
    ghost predicate MazeOk()
      reads this`mode, this`maze, this`dotsCollected, this`totalDots
    {
      Playable(layout) &&
      (mode != Menu ==> Derived(maze, layout) && Playable(maze) && dotsCollected + CountDots(maze) == totalDots)
    }

    /** Once a game has started, the player is on track, with a heading or nothing queued. */
    ghost predicate PlayerOk()
      reads this`mode, this`maze, this`player, player`x, player`y, player`tileX, player`tileY, player`dir, player`nextDir
    {
      mode != Menu ==>
        Rectangular(maze) && TunnelOpen(maze) && Track(maze, player.Pose()) &&
        (player.nextDir == STILL || player.nextDir in HEADINGS)
    }

    /** Once a game has started, there are four distinct ghosts, numbered in order. */
    ghost predicate GhostsOk()
      reads this`mode, this`ghosts
    {
      mode != Menu ==> |ghosts| == GHOST_COUNT && forall i :: 0 <= i < |ghosts| ==> ghosts[i].index == i
    }

    /**
     * An ended game has no life left. (A game in play may have none either:
     * the level test of `update` can turn an ended game into a completed
     * level, and the level timers then resume play with no lives.)
     */
    ghost predicate LivesOk()
      reads this`mode, this`lives
    {
      mode == Over ==> lives <= 0
    }

    ghost predicate Valid()
      reads this`mode, this`maze, this`dotsCollected, this`totalDots, this`lives, this`ghosts, this`player
      reads player`x, player`y, player`tileX, player`tileY, player`dir, player`nextDir
    {
      MazeOk() && PlayerOk() && GhostsOk() && LivesOk()
    }

    /** The level is complete exactly when no dot or pellet is left in the maze. */
    lemma LevelCompleteIffCleared()
      requires Valid() && mode != Menu
      ensures dotsCollected >= totalDots <==>
        forall r, c :: 0 <= r < |maze| && 0 <= c < |maze[r]| ==> !IsDot(maze[r][c])
    {
      CountDotsZero(maze);
    }

    constructor(storedHighScore: int)
      ensures Valid() && mode == Menu && score == 0 && highScore == storedHighScore
      ensures lives == START_LIVES && level == 1 && ghosts == [] && layout == MAZE_TEMPLATE
    {
      layout := MAZE_TEMPLATE;
      TemplatePlayable();
      mode := Menu;
      score := 0;
      highScore := storedHighScore;
      lives := START_LIVES;
      level := 1;
      maze := [];
      player := new Player();
      ghosts := [];
      dotsCollected := 0;
      totalDots := 0;
    }

    /** `initMaze`: copy the layout and count its dots and pellets. */
    method InitMaze()
      modifies this`maze, this`dotsCollected, this`totalDots
      ensures maze == layout && dotsCollected == 0 && totalDots == CountDots(maze)
    {
      maze := layout;
      dotsCollected := 0;
      totalDots := 0;
      var y := 0;
      while y < |maze|
        invariant 0 <= y <= |maze| && maze == layout && dotsCollected == 0
        invariant totalDots == CountDots(maze[..y])
      {
        var x := 0;
        while x < |maze[y]|
          invariant 0 <= y < |maze| && maze == layout && dotsCollected == 0
          invariant 0 <= x <= |maze[y]|
          invariant totalDots == CountDots(maze[..y]) + RowDots(maze[y][..x])
        {
          if maze[y][x] == DOT || maze[y][x] == PELLET {
            totalDots := totalDots + 1;
          }
          assert maze[y][..x + 1][..x] == maze[y][..x];
          x := x + 1;
        }
        assert maze[y][..x] == maze[y];
        assert maze[..y + 1][..y] == maze[..y];
        y := y + 1;
      }
      assert maze[..y] == maze;
    }

    /** Put every ghost back in the house. */
    method ResetGhosts()
      requires forall i :: 0 <= i < |ghosts| ==> ghosts[i].index == i
      modifies ghosts
      ensures forall i :: 0 <= i < |ghosts| ==> ghosts[i].AtHome()
    {
      for i := 0 to |ghosts|
        invariant forall j :: 0 <= j < i ==> ghosts[j].AtHome()
      {
        ghosts[i].Reset();
      }
    }

    /** `startGame`: a fresh maze, player and ghosts, three lives, level 1, score 0. */
    method StartGame()
      requires Valid()
      modifies this
      ensures Valid() && mode == Playing && score == 0 && lives == START_LIVES && level == 1 && highScore == old(highScore)
      ensures maze == layout && dotsCollected == 0 && totalDots == CountDots(maze)
      ensures fresh(player) && player.AtStart()
      ensures |ghosts| == GHOST_COUNT
      ensures forall i :: 0 <= i < |ghosts| ==> fresh(ghosts[i]) && ghosts[i].AtHome() && ghosts[i].behavior == BEHAVIORS[i]
    {
      NewRun();
      InitMaze();
      NewActors();
      StartOnTrack(maze);
    }

    /** The run's counters as `startGame` sets them. */
    method NewRun()
      modifies this`mode, this`score, this`lives, this`level
      ensures mode == Playing && score == 0 && lives == START_LIVES && level == 1
    {
      mode, score, lives, level := Playing, 0, START_LIVES, 1;
    }

    /** The player and the four ghosts of `startGame`, each ghost with its number and its behaviour. */
    method NewActors()
      modifies this`player, this`ghosts
      ensures fresh(player) && player.AtStart()
      ensures |ghosts| == GHOST_COUNT
      ensures forall i :: 0 <= i < |ghosts| ==> fresh(ghosts[i]) && ghosts[i].index == i && ghosts[i].behavior == BEHAVIORS[i] && ghosts[i].AtHome()
    {
      player := new Player();
      ghosts := NewGhosts();
    }

    /** The four ghosts, each with its number and its behaviour. */
    static method NewGhosts() returns (gs: seq<Ghost>)
      ensures |gs| == GHOST_COUNT
      ensures forall i :: 0 <= i < |gs| ==> fresh(gs[i]) && gs[i].index == i && gs[i].behavior == BEHAVIORS[i] && gs[i].AtHome()
    {
      var red := new Ghost(0, Chase);
      var pink := new Ghost(1, Ambush);
      var cyan := new Ghost(2, RandomWalk);
      var orange := new Ghost(3, Patrol);
      gs := [red, pink, cyan, orange];
    }

    /** `collectDot`: eat the dot or pellet under the player, if any. */
    method CollectDot()
      requires Valid() && mode != Menu
      modifies this`maze, this`score, this`dotsCollected, player`powered, player`powerTimer, ghosts
      ensures Valid()
      ensures var tile := TileAt(old(maze), player.tileX, player.tileY);
        (IsDot(tile) ==>
          maze == old(maze)[player.tileY := old(maze)[player.tileY][player.tileX := EMPTY]] &&
          dotsCollected == old(dotsCollected) + 1 &&
          score == old(score) + (if tile == DOT then DOT_POINTS else PELLET_POINTS)) &&
        (tile == PELLET ==>
          player.powered && player.powerTimer == POWER_DURATION &&
          forall i :: 0 <= i < |ghosts| ==> ghosts[i].View() == Scare(old(ghosts[i].View()))) &&
        (tile != PELLET ==>
          player.powered == old(player.powered) && player.powerTimer == old(player.powerTimer) &&
          forall i :: 0 <= i < |ghosts| ==> unchanged(ghosts[i])) &&
        (!IsDot(tile) ==> maze == old(maze) && score == old(score) && dotsCollected == old(dotsCollected))
      ensures !IsDot(TileAt(maze, player.tileX, player.tileY))
    {
      var tx, ty := player.tileX, player.tileY;
      var tile := TileAt(maze, tx, ty);
      if tile == DOT {
        EatAt(tx, ty, DOT_POINTS);
      } else if tile == PELLET {
        EatPellet(tx, ty);
      }
    }

    /** The pellet branch of `collectDot`: eat it, power the player up, scare every ghost. */
    method EatPellet(tx: int, ty: int)
      requires Valid() && mode != Menu
      requires 0 <= ty < |maze| && 0 <= tx < |maze[ty]| && maze[ty][tx] == PELLET
      modifies this`maze, this`score, this`dotsCollected, player`powered, player`powerTimer, ghosts
      ensures Valid()
      ensures maze == old(maze)[ty := old(maze)[ty][tx := EMPTY]] && dotsCollected == old(dotsCollected) + 1
      ensures score == old(score) + PELLET_POINTS && player.powered && player.powerTimer == POWER_DURATION
      ensures forall i :: 0 <= i < |ghosts| ==> ghosts[i].View() == Scare(old(ghosts[i].View()))
    {
      EatAt(tx, ty, PELLET_POINTS);
      player.PowerUp();
      ScareGhosts();
    }

    /** What `collectDot` does to the game for either kind of dot: the tile becomes empty, the points, one more dot collected. */
    method EatAt(tx: int, ty: int, points: int)
      requires MazeOk() && PlayerOk() && mode != Menu
      requires 0 <= ty < |maze| && 0 <= tx < |maze[ty]| && IsDot(maze[ty][tx])
      modifies this`maze, this`dotsCollected, this`score
      ensures MazeOk() && PlayerOk()
      ensures maze == old(maze)[ty := old(maze)[ty][tx := EMPTY]] && dotsCollected == old(dotsCollected) + 1
      ensures score == old(score) + points
    {
      CountDotsEat(maze, ty, tx);
      EatKeepsDerived(maze, layout, ty, tx);
      EatKeepsTrack(maze, ty, tx, player.Pose());
      DerivedPlayable(maze[ty := maze[ty][tx := EMPTY]], layout);
      maze, dotsCollected, score := maze[ty := maze[ty][tx := EMPTY]], dotsCollected + 1, score + points;
    }

    /** The pellet's `forEach`: every ghost scared for the full power time. */
    method ScareGhosts()
      requires forall i :: 0 <= i < |ghosts| ==> ghosts[i].index == i
      modifies ghosts
      ensures forall i :: 0 <= i < |ghosts| ==> ghosts[i].View() == Scare(old(ghosts[i].View()))
    {
      for i := 0 to |ghosts|
        invariant forall j :: 0 <= j < |ghosts| ==>
          ghosts[j].View() == (if j < i then Scare(old(ghosts[j].View())) else old(ghosts[j].View()))
      {
        ghosts[i].scared := true;
        ghosts[i].scaredTimer := POWER_DURATION;
      }
    }

    /** `gameOver`: the game ends and the high score keeps the better of the two. */
    method GameOver()
      modifies this`mode, this`highScore
      ensures mode == Over && highScore == Max(old(highScore), score)
    {
      mode := Over;
      if score > highScore {
        highScore := score;
      }
    }

    /** `loseLife`: one life fewer; the game ends at none, otherwise player and ghosts go back to the start. */
    method LoseLife()
      requires Valid() && mode == Playing
      modifies this`mode, this`lives, this`highScore, player, ghosts
      ensures Valid() && lives == old(lives) - 1
      ensures lives <= 0 ==> (mode == Over && highScore == Max(old(highScore), score) && unchanged(player) &&
        forall i :: 0 <= i < |ghosts| ==> ghosts[i].View() == old(ghosts[i].View()))
      ensures lives > 0 ==> (mode == Playing && highScore == old(highScore) && player.AtStart() &&
        forall i :: 0 <= i < |ghosts| ==> ghosts[i].AtHome())
    {
      lives := lives - 1;
      if lives <= 0 {
        GameOver();
      } else {
        Respawn();
      }
    }

    /** The other branch of `loseLife`: player and ghosts back at the start of the level. */
    method Respawn()
      requires Valid() && mode == Playing
      modifies player, ghosts
      ensures Valid() && player.AtStart() && forall i :: 0 <= i < |ghosts| ==> ghosts[i].AtHome()
    {
      player.Reset();
      ResetGhosts();
      StartOnTrack(maze);
    }

    /**
     * `checkCollisions`: the ghosts in order; each one outside the house,
     * not eaten and touching the player (`touching` holds the indices the
     * distance test picks) is eaten for 200 points if scared, and
     * otherwise costs a life and ends the check.
     */
    method CheckCollisions(touching: set<int>) returns (threat: Option<nat>)
      requires Valid() && mode == Playing
      modifies this`mode, this`lives, this`highScore, this`score, player, ghosts
      ensures Valid()
      ensures threat == Threat(old(Views(ghosts)), touching, |ghosts|)
      ensures threat.None? ==> (mode == Playing && lives == old(lives) && unchanged(player) &&
        score == old(score) + GHOST_POINTS * Feasts(old(Views(ghosts)), touching, |ghosts|) &&
        forall i :: 0 <= i < |ghosts| ==> ghosts[i].View() == Swept(old(Views(ghosts)), touching, |ghosts|)[i])
      ensures threat.Some? ==> (lives == old(lives) - 1 && threat.value < |ghosts| &&
        score == old(score) + GHOST_POINTS * Feasts(old(Views(ghosts)), touching, threat.value))
      ensures threat.Some? && lives > 0 ==>
        (mode == Playing && player.AtStart() && forall i :: 0 <= i < |ghosts| ==> ghosts[i].AtHome())
      ensures threat.Some? && lives <= 0 ==> (mode == Over && unchanged(player) &&
        forall i :: 0 <= i < |ghosts| ==> ghosts[i].View() == Swept(old(Views(ghosts)), touching, threat.value)[i])
    {
      threat := FeastUntilThreat(touching);
      if threat.Some? {
        LoseLife();
      }
    }

    /**
     * The loop of `checkCollisions` up to its first fatal contact: every
     * scared ghost in contact before it is eaten for 200 points; the
     * result is the index of that contact, if any.
     */
    method FeastUntilThreat(touching: set<int>) returns (threat: Option<nat>)
      requires forall i :: 0 <= i < |ghosts| ==> ghosts[i].index == i
      modifies this`score, ghosts
      ensures var vs := old(Views(ghosts));
        var stop := if threat.Some? then threat.value else |vs|;
        threat == Threat(vs, touching, |vs|) && stop <= |vs| &&
        score == old(score) + GHOST_POINTS * Feasts(vs, touching, stop) &&
        forall i :: 0 <= i < |ghosts| ==> ghosts[i].View() == Swept(vs, touching, stop)[i]
    {
      ghost var vs := Views(ghosts);
      var i := 0;
      while i < |ghosts|
        invariant 0 <= i <= |ghosts|
        invariant Threat(vs, touching, i) == None
        invariant score == old(score) + GHOST_POINTS * Feasts(vs, touching, i)
        invariant forall j :: 0 <= j < |ghosts| ==> ghosts[j].View() == Swept(vs, touching, i)[j]
      {
        SweptNotYet(vs, touching, i, i);
        var g := ghosts[i];
        assert g.View() == vs[i];
        if !g.eaten && g.exited && i in touching {
          if g.scared {
            CatchGhost(g, i, vs, touching);
          } else {
            assert Threat(vs, touching, i + 1) == Some(i);
            ThreatFound(vs, touching, i, |vs|);
            return Some(i);
          }
        } else {
          assert Swept(vs, touching, i + 1) == Swept(vs, touching, i);
        }
        i := i + 1;
      }
      return None;
    }

    /** Ghost i, scared and in contact, is eaten: the sweep moves past it. */
    method CatchGhost(g: Ghost, i: nat, ghost vs: seq<GhostView>, touching: set<int>)
      requires forall j :: 0 <= j < |ghosts| ==> ghosts[j].index == j
      requires i < |ghosts| == |vs| && g == ghosts[i] && Contact(vs[i], i, touching) && vs[i].scared
      requires forall j :: 0 <= j < |ghosts| ==> ghosts[j].View() == Swept(vs, touching, i)[j]
      modifies this`score, g`eaten
      ensures score == old(score) + GHOST_POINTS
      ensures forall j :: 0 <= j < |ghosts| ==> ghosts[j].View() == Swept(vs, touching, i + 1)[j]
    {
      SweptNotYet(vs, touching, i, i);
      EatGhost(g);
      forall j | 0 <= j < |ghosts|
        ensures ghosts[j].View() == Swept(vs, touching, i + 1)[j]
      {
        if j != i {
          assert ghosts[j].index != g.index;
        }
      }
    }

    /** A scared ghost caught: it is eaten, for 200 points. */
    method EatGhost(g: Ghost)
      modifies g`eaten, this`score
      ensures g.eaten && score == old(score) + GHOST_POINTS
    {
      g.eaten := true;
      score := score + GHOST_POINTS;
    }

    /** The first threat before some bound stays the first threat over the whole list. */
    static lemma {:induction false} ThreatFound(vs: seq<GhostView>, touching: set<int>, k: nat, n: nat)
      requires k < n <= |vs| && Threat(vs, touching, k) == None && Contact(vs[k], k, touching) && !vs[k].scared
      ensures Threat(vs, touching, n) == Some(k)
    {
      if n > k + 1 {
        ThreatFound(vs, touching, k, n - 1);
      }
    }

    /**
     * `update`: while in play, move the player and eat, run the ghosts'
     * timers, check collisions, then test for a completed level. As in
     * the source, the level test also runs when the collision check has
     * just ended the game, and then overrides the game over.
     */
    method Update(dt: int, touching: set<int>)
      requires Valid()
      modifies this`maze, this`score, this`dotsCollected, this`mode, this`lives, this`highScore, player, ghosts
      ensures Valid()
      ensures old(mode) != Playing ==> unchanged(this) && unchanged(player) && forall i :: 0 <= i < |ghosts| ==> unchanged(ghosts[i])
      ensures old(mode) == Playing ==> mode == Playing || mode == LevelComplete || mode == Over
      ensures old(mode) == Playing ==> (mode == LevelComplete <==> dotsCollected >= totalDots)
      ensures old(mode) == Playing && mode == Over ==> lives <= 0 && dotsCollected < totalDots
    {
      if mode != Playing {
        return;
      }
      MovePlayer(dt);
      TickGhosts(dt);
      var _ := CheckCollisions(touching);
      CheckLevel();
    }

    /**
     * The last test of `update`, as written: once every dot is eaten the
     * level is complete, whatever mode the collision check left.
     */
    method CheckLevel()
      requires Valid() && (mode == Playing || mode == Over)
      modifies this`mode
      ensures Valid() && mode == LevelCheckAsWritten(old(mode), dotsCollected, totalDots)
      ensures mode == LevelComplete <==> dotsCollected >= totalDots
      ensures mode != LevelComplete ==> mode == old(mode)
    {
      if dotsCollected >= totalDots {
        mode := LevelComplete;
      }
    }

    /** The player's part of `update`: one step of movement, then `collectDot` on the tile reached. */
    method MovePlayer(dt: int)
      requires Valid() && mode == Playing
      modifies this`maze, this`score, this`dotsCollected, player, ghosts
      ensures Valid()
      ensures player.Pose() == Step(old(maze), old(player.Pose()), old(player.nextDir))
      ensures var tx, ty := player.tileX, player.tileY;
              var tile := TileAt(old(maze), tx, ty);
        (IsDot(tile) ==>
          maze == old(maze)[ty := old(maze)[ty][tx := EMPTY]] &&
          dotsCollected == old(dotsCollected) + 1 &&
          score == old(score) + (if tile == DOT then DOT_POINTS else PELLET_POINTS)) &&
        (!IsDot(tile) ==> maze == old(maze) && score == old(score) && dotsCollected == old(dotsCollected)) &&
        (tile == PELLET ==>
          player.powered && player.powerTimer == POWER_DURATION &&
          forall i :: 0 <= i < |ghosts| ==> ghosts[i].View() == Scare(old(ghosts[i].View()))) &&
        (tile != PELLET ==>
          (old(player.powered) ==> player.powerTimer == old(player.powerTimer) - dt && player.powered == (player.powerTimer > 0)) &&
          (!old(player.powered) ==> !player.powered && player.powerTimer == old(player.powerTimer)) &&
          forall i :: 0 <= i < |ghosts| ==> ghosts[i].View() == old(ghosts[i].View()))
    {
      StepPlayer(dt);
      CollectDot();
    }

    /** `player.update` inside the game: one step of movement and the power timer's tick, the game still valid. */
    method StepPlayer(dt: int)
      requires Valid() && mode == Playing
      modifies player
      ensures Valid()
      ensures player.Pose() == Step(old(maze), old(player.Pose()), old(player.nextDir))
      ensures old(player.powered) ==> player.powerTimer == old(player.powerTimer) - dt && player.powered == (player.powerTimer > 0)
      ensures !old(player.powered) ==> !player.powered && player.powerTimer == old(player.powerTimer)
    {
      StepKeepsTrack(maze, player.Pose(), player.nextDir);
      player.Update(maze, dt);
    }

    /** The ghosts' timers in `update`, ghost by ghost. */
    method TickGhosts(dt: int)
      requires forall i :: 0 <= i < |ghosts| ==> ghosts[i].index == i
      modifies ghosts
      ensures forall i :: 0 <= i < |ghosts| ==> ghosts[i].View() == Ticked(old(ghosts[i].View()), dt)
    {
      for i := 0 to |ghosts|
        invariant forall j :: 0 <= j < |ghosts| ==>
          ghosts[j].View() == (if j < i then Ticked(old(ghosts[j].View()), dt) else old(ghosts[j].View()))
      {
        ghosts[i].Tick(dt);
      }
    }

    /** The level timer's `nextLevel`: next level number, a fresh maze, player and ghosts back at the start. */
    method NextLevel()
      requires Valid() && mode == LevelComplete
      modifies this`level, this`maze, this`dotsCollected, this`totalDots, player, ghosts
      ensures Valid() && level == old(level) + 1
      ensures maze == layout && dotsCollected == 0 && totalDots == CountDots(maze)
      ensures player.AtStart() && forall i :: 0 <= i < |ghosts| ==> ghosts[i].AtHome()
    {
      level := level + 1;
      InitMaze();
      player.Reset();
      ResetGhosts();
      StartOnTrack(maze);
    }

    /** The second timer: play resumes on the new level. */
    method ResumePlay()
      requires Valid() && mode == LevelComplete
      modifies this`mode
      ensures Valid() && mode == Playing
    {
      mode := Playing;
    }
  }
}
