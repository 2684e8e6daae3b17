/**
 * How the solver and the game fit together. The interface loads one level,
 * hands it to the solver, and replays the actions of the solution it gets
 * back through `SokobanGame.move`, one per step. The solver works on states
 * (player and boxes, with the level's walls fixed); the game works on the
 * character grid. This module states when a grid shows a state and proves
 * that a replayed solution keeps the two in step and ends on a completed
 * board.
 */
module Replay {
  import opened Board
  import opened Problem
  import opened Game

  /** Every cell holds one of the six level characters. */
  ghost predicate WellFormed(h: Grid)
  {
    forall q {:trigger At(h, q)} :: InGrid(h, q) ==> At(h, q) in {'#', ' ', '@', '$', '.', '*'}
  }

  /** The grid shows the state: '@' exactly on the player, a box character exactly on the boxes. */
  ghost predicate Shows(h: Grid, s: State)
  {
    InGrid(h, s.player) &&
    forall q {:trigger At(h, q)} :: InGrid(h, q) ==>
      (At(h, q) == '@' <==> q == s.player) && (At(h, q) in BoxChars <==> q in s.boxes)
  }

  /** A '.' cell is a recorded target, and a recorded target shows '.', '*' or '@'. */
  ghost predicate Marked(h: Grid, targets: seq<Pos>)
  {
    (forall q {:trigger At(h, q)} :: InGrid(h, q) && At(h, q) == '.' ==> q in targets) &&
    (forall t :: t in targets ==> InGrid(h, t) && At(h, t) in {'.', '*', '@'})
  }

  /** The game's grid `h` is the solver's level `g` in state `s`, with `targets` recorded. */
  ghost predicate Mirrors(g: Grid, h: Grid, targets: seq<Pos>, s: State)
  {
    SameLayout(g, h) && WellFormed(h) && Shows(h, s) && Marked(h, targets)
  }

  /** A grid showing a valid solver state has its player and boxes walled in. */
  lemma MirroredPiecesEnclosed(g: Grid, h: Grid, targets: seq<Pos>, s: State)
    requires ValidState(g, s) && Mirrors(g, h, targets, s)
    ensures PiecesEnclosed(h)
  {
    forall q | InGrid(h, q) && At(h, q) in {'@', '$', '*'} ensures Enclosed(h, q) {
      assert q == s.player || q in s.boxes;
      assert Enclosed(g, q);
      LayoutKeepsEnclosed(g, h, q);
    }
  }

  /** The game finds the solver's player. */
  lemma PlayerFound(g: Grid, h: Grid, targets: seq<Pos>, s: State)
    requires Mirrors(g, h, targets, s)
    ensures FirstPlayer(h) == Some(s.player)
  {
    assert At(h, s.player) == '@';
  }

  /** The cell-level effect of a walk keeps the grid showing the walked-to state. */
  lemma WalkedGridShows(h: Grid, h2: Grid, targets: seq<Pos>, p: Pos, next: Pos, boxes: seq<Pos>)
    requires WellFormed(h) && Shows(h, State(p, boxes)) && Marked(h, targets) && SameShape(h, h2)
    requires InGrid(h, next) && p != next && next !in boxes
    requires At(h2, p) == Vacated(targets, p) && At(h2, next) == '@'
    requires forall q :: InGrid(h, q) && q != p && q != next ==> At(h2, q) == At(h, q)
    ensures WellFormed(h2) && Shows(h2, State(next, boxes)) && Marked(h2, targets)
  {
    forall q | InGrid(h2, q)
      ensures At(h2, q) in {'#', ' ', '@', '$', '.', '*'}
      ensures (At(h2, q) == '@' <==> q == next) && (At(h2, q) in BoxChars <==> q in boxes)
      ensures At(h2, q) == '.' ==> q in targets
    {
      assert InGrid(h, q);
      if q == p {
        assert At(h, q) == '@' && q !in boxes;
      } else if q != next {
        assert At(h2, q) == At(h, q);
      }
    }
    forall t | t in targets ensures InGrid(h2, t) && At(h2, t) in {'.', '*', '@'} {
      assert InGrid(h, t);
      if t != p && t != next {
        assert At(h2, t) == At(h, t);
      }
    }
  }

  /** A walk the solver offers is a walk in the game, and the grids stay in step. */
  lemma ReplayWalk(g: Grid, h: Grid, targets: seq<Pos>, s: State, dx: int, dy: int)
    requires ValidState(g, s) && UnitStep(dx, dy) && Mirrors(g, h, targets, s)
    requires !IsWall(g, Step(s.player, dx, dy)) && Step(s.player, dx, dy) !in s.boxes
    ensures PiecesEnclosed(h)
    ensures GameMove(h, targets, dx, dy).1
    ensures Mirrors(g, GameMove(h, targets, dx, dy).0, targets, State(Step(s.player, dx, dy), s.boxes))
  {
    MirroredPiecesEnclosed(g, h, targets, s);
    PlayerFound(g, h, targets, s);
    var p := s.player;
    var next := Step(p, dx, dy);
    EnclosedStep(g, p, dx, dy);
    UnitStepMoves(p, dx, dy);
    assert InGrid(h, next) && At(h, next) != '#' && At(h, next) !in BoxChars;
    GameWalk(h, targets, dx, dy, p);
    GameMoveKeepsLayout(h, targets, dx, dy);
    var h2 := GameMove(h, targets, dx, dy).0;
    SameLayoutTrans(g, h, h2);
    assert s == State(p, s.boxes);
    WalkedGridShows(h, h2, targets, p, next, s.boxes);
  }

  /** The cell-level effect of a push keeps the grid showing the pushed state. */
  lemma PushedGridShows(h: Grid, h2: Grid, targets: seq<Pos>, p: Pos, next: Pos, beyond: Pos,
                        boxes: seq<Pos>, boxes2: seq<Pos>)
    requires WellFormed(h) && Shows(h, State(p, boxes)) && Marked(h, targets) && SameShape(h, h2)
    requires InGrid(h, next) && InGrid(h, beyond) && p != next && p != beyond && next != beyond
    requires At(h, next) in BoxChars && (At(h, beyond) == ' ' || At(h, beyond) == '.')
    requires At(h2, p) == Vacated(targets, p) && At(h2, next) == '@'
    requires At(h2, beyond) == if At(h, beyond) == ' ' then '$' else '*'
    requires forall q :: InGrid(h, q) && q != p && q != next && q != beyond ==> At(h2, q) == At(h, q)
    requires forall b :: b in boxes2 <==> (b in boxes && b != next) || b == beyond
    ensures WellFormed(h2) && Shows(h2, State(next, boxes2)) && Marked(h2, targets)
  {
    forall q | InGrid(h2, q)
      ensures At(h2, q) in {'#', ' ', '@', '$', '.', '*'}
      ensures (At(h2, q) == '@' <==> q == next) && (At(h2, q) in BoxChars <==> q in boxes2)
      ensures At(h2, q) == '.' ==> q in targets
    {
      assert InGrid(h, q);
      if q == p {
        assert At(h, q) == '@' && q !in boxes;
      } else if q != next && q != beyond {
        assert At(h2, q) == At(h, q);
      }
    }
    forall t | t in targets ensures InGrid(h2, t) && At(h2, t) in {'.', '*', '@'} {
      assert InGrid(h, t);
      if t != p && t != next && t != beyond {
        assert At(h2, t) == At(h, t);
      }
    }
  }

  /** A push the solver offers is a push in the game, and the grids stay in step. */
  lemma ReplayPush(g: Grid, h: Grid, targets: seq<Pos>, s: State, dx: int, dy: int)
    requires ValidState(g, s) && UnitStep(dx, dy) && Mirrors(g, h, targets, s)
    requires Step(s.player, dx, dy) in s.boxes && !Blocked(g, s, dx, dy)
    ensures PiecesEnclosed(h)
    ensures GameMove(h, targets, dx, dy).1
    ensures Mirrors(g, GameMove(h, targets, dx, dy).0, targets, UpdateValidMove(g, s, dx, dy))
  {
    MirroredPiecesEnclosed(g, h, targets, s);
    PlayerFound(g, h, targets, s);
    var p := s.player;
    var next := Step(p, dx, dy);
    var beyond := Step(next, dx, dy);
    EnclosedStep(g, p, dx, dy);
    EnclosedStep(g, next, dx, dy);
    UnitStepMoves(p, dx, dy);
    assert InGrid(h, next) && At(h, next) in BoxChars;
    assert InGrid(h, beyond) && At(h, beyond) != '#';
    assert At(h, beyond) == ' ' || At(h, beyond) == '.';
    GamePush(h, targets, dx, dy, p);
    GameMoveKeepsLayout(h, targets, dx, dy);
    var h2 := GameMove(h, targets, dx, dy).0;
    SameLayoutTrans(g, h, h2);
    PushMove(g, s, dx, dy);
    var s2 := UpdateValidMove(g, s, dx, dy);
    assert s == State(p, s.boxes);
    PushedGridShows(h, h2, targets, p, next, beyond, s.boxes, s2.boxes);
    assert s2 == State(next, s2.boxes);
  }

  /**
   * Every action the solver offers moves the game's player too, and the
   * game's grid then shows the solver's next state.
   */
  lemma ReplayStep(g: Grid, h: Grid, targets: seq<Pos>, s: State, a: Direction)
    requires ValidState(g, s) && Mirrors(g, h, targets, s)
    requires a in LegalActions(g, s)
    ensures PiecesEnclosed(h)
    ensures GameMove(h, targets, Delta(a).0, Delta(a).1).1
    ensures Mirrors(g, GameMove(h, targets, Delta(a).0, Delta(a).1).0, targets, Result(g, s, a))
  {
    var (dx, dy) := Delta(a);
    var next := Step(s.player, dx, dy);
    if next in s.boxes {
      ReplayPush(g, h, targets, s, dx, dy);
    } else {
      WalkMove(g, s, dx, dy);
      ReplayWalk(g, h, targets, s, dx, dy);
    }
  }

  /** The grid after the game makes the moves of `path` one after another. */
  function GameRun(h: Grid, targets: seq<Pos>, path: seq<Direction>): (r: Grid)
    requires PiecesEnclosed(h)
    ensures PiecesEnclosed(r) && SameLayout(h, r)
    decreases |path|
  {
    if |path| == 0 then h
    else
      var (dx, dy) := Delta(path[0]);
      GameMoveKeepsLayout(h, targets, dx, dy);
      GameMoveKeepsEnclosed(h, targets, dx, dy);
      var h1 := GameMove(h, targets, dx, dy).0;
      var r := GameRun(h1, targets, path[1..]);
      SameLayoutTrans(h, h1, r);
      r
  }

  /** Replaying any sequence of offered actions keeps the grid showing the solver's state. */
  lemma {:induction false} ReplayPath(g: Grid, h: Grid, targets: seq<Pos>, s: State, path: seq<Direction>)
    requires ValidState(g, s) && Mirrors(g, h, targets, s)
    requires Offered(g, s, path)
    ensures PiecesEnclosed(h)
    ensures Mirrors(g, GameRun(h, targets, path), targets, Run(g, s, path))
    decreases |path|
  {
    MirroredPiecesEnclosed(g, h, targets, s);
    if |path| > 0 {
      ReplayStep(g, h, targets, s, path[0]);
      var (dx, dy) := Delta(path[0]);
      ReplayPath(g, GameMove(h, targets, dx, dy).0, targets, Result(g, s, path[0]), path[1..]);
    }
  }

  /**
   * The last action of a replayed offered path: the game's grid before it is
   * the replay of the actions before it, and it moves the game's player.
   */
  lemma LastStepMoves(g: Grid, h: Grid, targets: seq<Pos>, s: State, path: seq<Direction>)
    requires ValidState(g, s) && Mirrors(g, h, targets, s)
    requires Offered(g, s, path) && |path| > 0
    ensures PiecesEnclosed(h)
    ensures var d := Delta(path[|path| - 1]);
            GameMove(GameRun(h, targets, path[..|path| - 1]), targets, d.0, d.1) == (GameRun(h, targets, path), true)
  {
    var front := path[..|path| - 1];
    OfferedLast(g, s, path);
    ReplayPath(g, h, targets, s, front);
    ReplayStep(g, GameRun(h, targets, front), targets, Run(g, s, front), path[|path| - 1]);
    GameRunLast(h, targets, path);
  }

  /** Replaying a non-empty path is replaying all but its last action, then making that move. */
  lemma {:induction false} GameRunLast(h: Grid, targets: seq<Pos>, path: seq<Direction>)
    requires PiecesEnclosed(h) && |path| > 0
    ensures var d := Delta(path[|path| - 1]);
            GameRun(h, targets, path) == GameMove(GameRun(h, targets, path[..|path| - 1]), targets, d.0, d.1).0
    decreases |path|
  {
    if |path| > 1 {
      var (dx, dy) := Delta(path[0]);
      GameMoveKeepsEnclosed(h, targets, dx, dy);
      var h1 := GameMove(h, targets, dx, dy).0;
      var rest := path[1..];
      GameRunLast(h1, targets, rest);
      var front := path[..|path| - 1];
      assert front[0] == path[0] && front[1..] == rest[..|rest| - 1];
      assert path[|path| - 1] == rest[|rest| - 1];
    }
  }

  /**
   * Replaying a solution whose goal is the game's recorded targets fills every
   * target with '*'. The last action of a non-empty solution is a move, so
   * the banner after it is the success banner.
   */
  lemma SolutionCompletesGame(g: Grid, h: Grid, targets: seq<Pos>, s: State, path: seq<Direction>)
    requires ValidState(g, s) && Mirrors(g, h, targets, s)
    requires Solves(g, targets, s, path)
    ensures PiecesEnclosed(h)
    ensures AllTargetsBoxed(GameRun(h, targets, path), targets)
    ensures |path| > 0 ==>
              var d := Delta(path[|path| - 1]);
              var last := GameMove(GameRun(h, targets, path[..|path| - 1]), targets, d.0, d.1);
              last.0 == GameRun(h, targets, path) && BannerAfter(last.0, targets, last.1) == Solved
  {
    ReplayPath(g, h, targets, s, path);
    GoalTargetsBoxed(GameRun(h, targets, path), targets, Run(g, s, path));
    if |path| > 0 {
      LastStepMoves(g, h, targets, s, path);
    }
  }

  /** A grid showing a goal state has '*' on every recorded target. */
  lemma GoalTargetsBoxed(h: Grid, targets: seq<Pos>, s: State)
    requires Shows(h, s) && Marked(h, targets) && IsGoal(targets, s)
    ensures AllTargetsBoxed(h, targets)
  {
    forall i | 0 <= i < |targets| ensures InGrid(h, targets[i]) && At(h, targets[i]) == '*' {
      var t := targets[i];
      assert t in s.boxes;
      assert InGrid(h, t) && At(h, t) in {'.', '*', '@'};
    }
  }

  /**
   * A loaded level with a single player is shown by the solver's initial
   * state, with the game's recorded targets being the '.' cells.
   */
  lemma LoadedLevelMirrors(level: Grid)
    requires WellFormed(level) && InitialState(level).Some?
    requires |CellsOf(level, {'@'})| == 1
    ensures Mirrors(level, level, CellsOf(level, {'.'}), InitialState(level).value)
  {
    var s := InitialState(level).value;
    InitialStateValid(level);
    var players := CellsOf(level, {'@'});
    assert s.player == players[0];
    forall q | InGrid(level, q)
      ensures (At(level, q) == '@' <==> q == s.player)
      ensures At(level, q) == '.' ==> q in CellsOf(level, {'.'})
    {
      CellsOfMember(level, {'@'}, q);
      CellsOfMember(level, {'.'}, q);
    }
    forall t | t in CellsOf(level, {'.'}) ensures InGrid(level, t) && At(level, t) in {'.', '*', '@'} {
      CellsOfMember(level, {'.'}, t);
    }
  }

  /**
   * The whole pipeline: on a single-player level whose player and boxes are
   * walled in, replaying a solution the solver accepts completes the game.
   */
  lemma SolverSolutionCompletesLevel(level: Grid, path: seq<Direction>)
    requires PiecesEnclosed(level) && WellFormed(level) && InitialState(level).Some?
    requires |CellsOf(level, {'@'})| == 1
    ensures ValidState(level, InitialState(level).value)
    ensures Solves(level, CellsOf(level, {'.'}), InitialState(level).value, path) ==>
              AllTargetsBoxed(GameRun(level, CellsOf(level, {'.'}), path), CellsOf(level, {'.'}))
  {
    InitialStateValid(level);
    LoadedLevelMirrors(level);
    if Solves(level, CellsOf(level, {'.'}), InitialState(level).value, path) {
      SolutionCompletesGame(level, level, CellsOf(level, {'.'}), InitialState(level).value, path);
    }
  }

  /** The game finds the corridor's player on its only '@'. */
  lemma CorridorPlayer()
    ensures FirstPlayer(Corridor) == Some(Pos(1, 1))
  {
    assert Corridor[1] == "#@$.#";
    assert At(Corridor, Pos(1, 1)) == '@';
    var v := FirstPlayer(Corridor).value;
    CorridorOpenCells(v);
  }

  /** The corridor's only '.' cell, which the game records as its target. */
  lemma CorridorTarget(p: Pos)
    ensures p in CellsOf(Corridor, {'.'}) <==> p == Pos(1, 3)
  {
    CellsOfMember(Corridor, {'.'}, p);
    assert Corridor[1] == "#@$.#";
    if InGrid(Corridor, p) && At(Corridor, p) == '.' {
      CorridorOpenCells(p);
    }
  }

  /**
   * Where the two halves disagree: on the corridor level the solver offers no
   * action, because its corner test ignores targets, yet the game pushes the
   * box right onto the target in the corner and completes the level.
   */
  lemma GamePushesIntoCorner()
    ensures PiecesEnclosed(Corridor) && ValidState(Corridor, CorridorStart) && Pos(1, 3) in CellsOf(Corridor, {'.'})
    ensures LegalActions(Corridor, CorridorStart) == []
    ensures GameMove(Corridor, [Pos(1, 3)], 0, 1).1
    ensures AllTargetsBoxed(GameMove(Corridor, [Pos(1, 3)], 0, 1).0, [Pos(1, 3)])
  {
    CornerTargetUnsolvable();
    CorridorWalledIn();
    CorridorTarget(Pos(1, 3));
    CorridorPlayer();
    assert Corridor[1] == "#@$.#";
    GamePush(Corridor, [Pos(1, 3)], 0, 1, Pos(1, 1));
  }
}
