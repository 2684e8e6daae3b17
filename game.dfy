/**
 * The playable board (`SokobanGame`): the level's character grid, which each
 * move edits in place, and the target cells recorded when the level was
 * loaded. The interface replays solver paths through `Move`.
 */
module Game {
  import opened Board

  /** Same number of rows, and each row of the same length. */
  predicate SameShape(g: Grid, h: Grid)
  {
    |g| == |h| && forall i :: 0 <= i < |g| ==> |g[i]| == |h[i]|
  }

  /** Same shape and the same wall cells. */
  ghost predicate SameLayout(g: Grid, h: Grid)
  {
    SameShape(g, h) && forall p {:trigger At(g, p)} {:trigger At(h, p)} :: InGrid(g, p) ==> (At(g, p) == '#' <==> At(h, p) == '#')
  }

  /** Whether a cell is walled in depends on the layout alone. */
  lemma LayoutKeepsEnclosed(g: Grid, h: Grid, q: Pos)
    requires SameLayout(g, h) && Enclosed(g, q)
    ensures Enclosed(h, q)
  {
    var region :| WalledIn(g, region) && q in region;
    forall p | p in region
      ensures InGrid(h, p) && At(h, p) != '#' && NeighboursInGrid(h, p) && OpenNeighboursIn(h, p, region)
    {
      assert OpenNeighboursIn(g, p, region) && NeighboursInGrid(g, p);
      assert IsWall(g, Step(p, -1, 0)) == IsWall(h, Step(p, -1, 0));
      assert IsWall(g, Step(p, 1, 0)) == IsWall(h, Step(p, 1, 0));
      assert IsWall(g, Step(p, 0, -1)) == IsWall(h, Step(p, 0, -1));
      assert IsWall(g, Step(p, 0, 1)) == IsWall(h, Step(p, 0, 1));
    }
    assert WalledIn(h, region);
  }

  /**
   * An edit that keeps the layout and puts the player or a box only where
   * one stood before or on a walled-in cell keeps every piece walled in.
   */
  lemma PiecesStayEnclosed(g: Grid, h: Grid)
    requires SameLayout(g, h) && PiecesEnclosed(g)
    requires forall q {:trigger At(h, q)} :: InGrid(h, q) && At(h, q) in {'@', '$', '*'} ==>
               At(g, q) == At(h, q) || Enclosed(g, q)
    ensures PiecesEnclosed(h)
  {
    forall q | InGrid(h, q) && At(h, q) in {'@', '$', '*'} ensures Enclosed(h, q) {
      assert InGrid(g, q);
      LayoutKeepsEnclosed(g, h, q);
    }
  }

  /** One cell of the grid overwritten. */
  function Write(g: Grid, p: Pos, c: char): (h: Grid)
    requires InGrid(g, p)
    ensures SameShape(g, h)
    ensures InGrid(h, p) && At(h, p) == c
    ensures forall i, j :: 0 <= i < |g| && 0 <= j < |g[i]| && (i != p.row || j != p.col) ==> h[i][j] == g[i][j]
  {
    g[p.row := g[p.row][p.col := c]]
  }

  /** What a cell shows once the player leaves it: '.' on a recorded target, ' ' elsewhere. */
  function Vacated(targets: seq<Pos>, p: Pos): char
  {
    if p in targets then '.' else ' '
  }

  /**
   * The grid after `update_position(from, to, symbol)`: `from` blanked,
   * `symbol` written at `to`, then `from` restored to '.' or ' '.
   */
  function Relocated(g: Grid, targets: seq<Pos>, from: Pos, to: Pos, symbol: char): Grid
    requires InGrid(g, from) && InGrid(g, to)
  {
    Write(Write(Write(g, from, ' '), to, symbol), from, Vacated(targets, from))
  }

  /** `canMove`: the player may step onto any cell that is neither a wall nor a box. */
  predicate Free(g: Grid, p: Pos)
    requires InGrid(g, p)
    ensures Free(g, p) <==> !IsWall(g, p) && At(g, p) !in BoxChars
  {
    At(g, p) != '#' && At(g, p) != '$' && At(g, p) != '*'
  }

  /**
   * The player's cell as `get_player_positions` finds it: the first '@' in
   * row-major order, or None when there is none.
   */
  function FirstPlayer(g: Grid): (r: Option<Pos>)
    ensures r.None? <==> forall q {:trigger At(g, q)} :: InGrid(g, q) ==> At(g, q) != '@'
    ensures r.Some? ==> InGrid(g, r.value) && At(g, r.value) == '@'
    ensures r.Some? ==> forall q {:trigger At(g, q)} :: InGrid(g, q) && At(g, q) == '@' ==> q == r.value || Before(r.value, q)
  {
    var ps := CellsOf(g, {'@'});
    assert forall q :: q in ps <==> InGrid(g, q) && At(g, q) == '@' by {
      forall q ensures q in ps <==> InGrid(g, q) && At(g, q) == '@' {
        CellsOfMember(g, {'@'}, q);
      }
    }
    if |ps| == 0 then None else Some(ps[0])
  }

  /** The pushed box lands on `p`: '$' over ' ', '*' over '.', anything else left alone. */
  function Placed(h: Grid, p: Pos): Grid
    requires InGrid(h, p)
  {
    if At(h, p) == ' ' then Write(h, p, '$')
    else if At(h, p) == '.' then Write(h, p, '*')
    else h
  }

  /**
   * `move_player_and_box`'s effect on the grid, and whether it moved: walk
   * onto a free cell; push a box ('$' or '*') whose far cell is free, writing
   * '$' there over ' ' and '*' over '.'; otherwise change nothing. There is
   * no deadlock test. Without a player the source fails before touching the
   * grid, which here leaves it unchanged.
   */
  function GameMove(g: Grid, targets: seq<Pos>, dx: int, dy: int): (r: (Grid, bool))
    requires PiecesEnclosed(g) && UnitStep(dx, dy)
    ensures SameShape(g, r.0)
    ensures r.1 <==> r.0 != g
  {
    match FirstPlayer(g)
    case None => (g, false)
    case Some(p) =>
      EnclosedStep(g, p, dx, dy);
      var next := Step(p, dx, dy);
      if Free(g, next) then
        (Relocated(g, targets, p, next, '@'), true)
      else if At(g, next) in BoxChars then
        EnclosedStep(g, next, dx, dy);
        var beyond := Step(next, dx, dy);
        if Free(g, beyond) then
          (Placed(Relocated(g, targets, p, next, '@'), beyond), true)
        else
          (g, false)
      else
        (g, false)
  }

  /** GameMove case by case, once the player is known. */
  lemma GameMoveByCase(g: Grid, targets: seq<Pos>, dx: int, dy: int, p: Pos)
    requires PiecesEnclosed(g) && UnitStep(dx, dy) && FirstPlayer(g) == Some(p)
    ensures InGrid(g, Step(p, dx, dy))
    ensures Free(g, Step(p, dx, dy)) ==>
              GameMove(g, targets, dx, dy) == (Relocated(g, targets, p, Step(p, dx, dy), '@'), true)
    ensures !Free(g, Step(p, dx, dy)) && At(g, Step(p, dx, dy)) !in BoxChars ==>
              GameMove(g, targets, dx, dy) == (g, false)
    ensures !Free(g, Step(p, dx, dy)) && At(g, Step(p, dx, dy)) in BoxChars ==>
              InGrid(g, Step(Step(p, dx, dy), dx, dy)) &&
              GameMove(g, targets, dx, dy) ==
                if Free(g, Step(Step(p, dx, dy), dx, dy))
                then (Placed(Relocated(g, targets, p, Step(p, dx, dy), '@'), Step(Step(p, dx, dy), dx, dy)), true)
                else (g, false)
  {
    EnclosedStep(g, p, dx, dy);
    if At(g, Step(p, dx, dy)) in BoxChars {
      EnclosedStep(g, Step(p, dx, dy), dx, dy);
    }
  }

  lemma UnitStepMoves(p: Pos, dx: int, dy: int)
    requires UnitStep(dx, dy)
    ensures Step(p, dx, dy) != p && Step(Step(p, dx, dy), dx, dy) != p
  {
  }

  /** Overwriting a non-wall cell with a non-wall character keeps the layout. */
  lemma WriteKeepsLayout(g: Grid, p: Pos, c: char)
    requires InGrid(g, p) && At(g, p) != '#' && c != '#'
    ensures SameLayout(g, Write(g, p, c))
  {
  }

  lemma SameLayoutTrans(g: Grid, h: Grid, k: Grid)
    requires SameLayout(g, h) && SameLayout(h, k)
    ensures SameLayout(g, k)
  {
    forall p | InGrid(g, p) ensures At(g, p) == '#' <==> At(k, p) == '#' {
      assert InGrid(h, p);
    }
  }

  /** Relocating between non-wall cells, with a non-wall symbol, keeps the layout. */
  lemma RelocatedKeepsLayout(g: Grid, targets: seq<Pos>, from: Pos, to: Pos, symbol: char)
    requires InGrid(g, from) && InGrid(g, to) && At(g, from) != '#' && At(g, to) != '#' && symbol != '#'
    ensures SameLayout(g, Relocated(g, targets, from, to, symbol))
  {
    var g1 := Write(g, from, ' ');
    WriteKeepsLayout(g, from, ' ');
    var g2 := Write(g1, to, symbol);
    WriteKeepsLayout(g1, to, symbol);
    SameLayoutTrans(g, g1, g2);
    WriteKeepsLayout(g2, from, Vacated(targets, from));
    SameLayoutTrans(g, g2, Write(g2, from, Vacated(targets, from)));
  }

  /** A move never changes the grid's shape or its walls. */
  lemma GameMoveKeepsLayout(g: Grid, targets: seq<Pos>, dx: int, dy: int)
    requires PiecesEnclosed(g) && UnitStep(dx, dy)
    ensures SameLayout(g, GameMove(g, targets, dx, dy).0)
  {
    var h := GameMove(g, targets, dx, dy).0;
    match FirstPlayer(g)
    case None =>
    case Some(p) =>
      EnclosedStep(g, p, dx, dy);
      var next := Step(p, dx, dy);
      if Free(g, next) {
        RelocatedKeepsLayout(g, targets, p, next, '@');
      } else if At(g, next) in BoxChars {
        EnclosedStep(g, next, dx, dy);
        var beyond := Step(next, dx, dy);
        if Free(g, beyond) {
          UnitStepMoves(p, dx, dy);
          var h1 := Relocated(g, targets, p, next, '@');
          RelocatedKeepsLayout(g, targets, p, next, '@');
          assert InGrid(h1, beyond) && At(h1, beyond) == At(g, beyond);
          assert h == Placed(h1, beyond);
          if At(h1, beyond) == ' ' {
            WriteKeepsLayout(h1, beyond, '$');
            SameLayoutTrans(g, h1, h);
          } else if At(h1, beyond) == '.' {
            WriteKeepsLayout(h1, beyond, '*');
            SameLayoutTrans(g, h1, h);
          }
        }
      }
  }

  /**
   * A move puts the player and a pushed box only on cells walled in with the
   * player, so every piece stays walled in and later moves index only
   * existing cells.
   */
  lemma GameMoveKeepsEnclosed(g: Grid, targets: seq<Pos>, dx: int, dy: int)
    requires PiecesEnclosed(g) && UnitStep(dx, dy)
    ensures PiecesEnclosed(GameMove(g, targets, dx, dy).0)
  {
    var h := GameMove(g, targets, dx, dy).0;
    GameMoveKeepsLayout(g, targets, dx, dy);
    match FirstPlayer(g)
    case None =>
    case Some(p) =>
      EnclosedStep(g, p, dx, dy);
      var next := Step(p, dx, dy);
      if Free(g, next) {
        GameWalk(g, targets, dx, dy, p);
        PiecesStayEnclosed(g, h);
      } else if At(g, next) in BoxChars {
        EnclosedStep(g, next, dx, dy);
        var beyond := Step(next, dx, dy);
        if Free(g, beyond) {
          GamePush(g, targets, dx, dy, p);
          PiecesStayEnclosed(g, h);
        } else {
          GameBlocked(g, targets, dx, dy, p);
        }
      } else {
        GameBlocked(g, targets, dx, dy, p);
      }
  }

  lemma ShapeKeepsCells(g: Grid, h: Grid, cells: seq<Pos>)
    requires SameShape(g, h) && forall i :: 0 <= i < |cells| ==> InGrid(g, cells[i])
    ensures forall i :: 0 <= i < |cells| ==> InGrid(h, cells[i])
  {
  }

  /** A walk: the player's new cell shows '@', the old one is restored, nothing else changes. */
  lemma GameWalk(g: Grid, targets: seq<Pos>, dx: int, dy: int, p: Pos)
    requires PiecesEnclosed(g) && UnitStep(dx, dy) && FirstPlayer(g) == Some(p)
    requires InGrid(g, Step(p, dx, dy)) && Free(g, Step(p, dx, dy))
    ensures GameMove(g, targets, dx, dy).1
    ensures SameShape(g, GameMove(g, targets, dx, dy).0)
    ensures At(GameMove(g, targets, dx, dy).0, Step(p, dx, dy)) == '@'
    ensures At(GameMove(g, targets, dx, dy).0, p) == Vacated(targets, p)
    ensures forall q :: InGrid(g, q) && q != p && q != Step(p, dx, dy) ==>
              At(GameMove(g, targets, dx, dy).0, q) == At(g, q)
  {
    UnitStepMoves(p, dx, dy);
  }

  /**
   * A push: the box's old cell shows '@', the player's old cell is restored,
   * the far cell gains '$' over ' ' or '*' over '.', nothing else changes.
   */
  lemma GamePush(g: Grid, targets: seq<Pos>, dx: int, dy: int, p: Pos)
    requires PiecesEnclosed(g) && UnitStep(dx, dy) && FirstPlayer(g) == Some(p)
    requires InGrid(g, Step(p, dx, dy)) && At(g, Step(p, dx, dy)) in BoxChars
    requires InGrid(g, Step(Step(p, dx, dy), dx, dy)) && Free(g, Step(Step(p, dx, dy), dx, dy))
    ensures GameMove(g, targets, dx, dy).1
    ensures SameShape(g, GameMove(g, targets, dx, dy).0)
    ensures At(GameMove(g, targets, dx, dy).0, Step(p, dx, dy)) == '@'
    ensures At(GameMove(g, targets, dx, dy).0, p) == Vacated(targets, p)
    ensures At(GameMove(g, targets, dx, dy).0, Step(Step(p, dx, dy), dx, dy)) ==
              match At(g, Step(Step(p, dx, dy), dx, dy))
              case ' ' => '$'
              case '.' => '*'
              case c => c
    ensures forall q :: InGrid(g, q) && q != p && q != Step(p, dx, dy) && q != Step(Step(p, dx, dy), dx, dy) ==>
              At(GameMove(g, targets, dx, dy).0, q) == At(g, q)
  {
    UnitStepMoves(p, dx, dy);
  }

  /** A wall ahead, or a box whose far cell is a wall or a box: nothing changes. */
  lemma GameBlocked(g: Grid, targets: seq<Pos>, dx: int, dy: int, p: Pos)
    requires PiecesEnclosed(g) && UnitStep(dx, dy) && FirstPlayer(g) == Some(p)
    requires InGrid(g, Step(p, dx, dy)) && !Free(g, Step(p, dx, dy))
    requires At(g, Step(p, dx, dy)) in BoxChars ==>
               InGrid(g, Step(Step(p, dx, dy), dx, dy)) && !Free(g, Step(Step(p, dx, dy), dx, dy))
    ensures GameMove(g, targets, dx, dy) == (g, false)
  {
  }

  /** The message the interface shows after a move. */
  datatype Banner = NoBanner | Solved | Deadlocked

  /** `is_Completed`'s verdict: every recorded target cell holds a box. */
  ghost predicate AllTargetsBoxed(g: Grid, targets: seq<Pos>)
  {
    forall i :: 0 <= i < |targets| ==> InGrid(g, targets[i]) && At(g, targets[i]) == '*'
  }

  /** `check_all_boxes_for_deadlock`'s verdict: some '$' cell (never a '*' one) passes the corner test. */
  ghost predicate SomeBoxCornered(g: Grid)
  {
    exists p :: InGrid(g, p) && At(g, p) == '$' && CornerDeadlock(g, p)
  }

  /** The banner shown after a move: none unless something moved, success first, then deadlock. */
  ghost function BannerAfter(g: Grid, targets: seq<Pos>, moved: bool): (b: Banner)
    ensures b == Solved <==> moved && AllTargetsBoxed(g, targets)
    ensures b == Deadlocked <==> moved && !AllTargetsBoxed(g, targets) && SomeBoxCornered(g)
  {
    if !moved then NoBanner
    else if AllTargetsBoxed(g, targets) then Solved
    else if SomeBoxCornered(g) then Deadlocked
    else NoBanner
  }

  class SokobanGame {
    var data: Grid
    var targets: seq<Pos>

    /** The player and every box are walled in, and the recorded targets are cells of the level. */
    ghost predicate Valid()
      reads this
    {
      PiecesEnclosed(data) && forall i :: 0 <= i < |targets| ==> InGrid(data, targets[i])
    }

    /** Start on a loaded level, recording its '.' cells as the targets. */
    constructor (level: Grid)
      requires PiecesEnclosed(level)
      ensures Valid() && data == level && targets == CellsOf(level, {'.'})
    {
      var found := GetTargetsPositions(level);
      data := level;
      targets := found;
    }

    /** `check_all_boxes_for_deadlock`: scan for a '$' cell in a walled corner. */
    method CheckAllBoxesForDeadlock() returns (found: bool)
      requires Valid()
      ensures found <==> SomeBoxCornered(data)
    {
      for i := 0 to |data|
        invariant forall p :: InGrid(data, p) && p.row < i && At(data, p) == '$' ==> !CornerDeadlock(data, p)
      {
        for j := 0 to |data[i]|
          invariant forall p :: InGrid(data, p) && (p.row < i || (p.row == i && p.col < j)) && At(data, p) == '$' ==>
                      !CornerDeadlock(data, p)
        {
          if data[i][j] == '$' && CornerDeadlock(data, Pos(i, j)) {
            assert InGrid(data, Pos(i, j));
            return true;
          }
        }
      }
      return false;
    }

    /** `get_player_positions`: the first '@' in row-major order. */
    method GetPlayerPositions() returns (pos: Option<Pos>)
      ensures pos == FirstPlayer(data)
    {
      for i := 0 to |data|
        invariant CellsOf(data[..i], {'@'}) == []
      {
        for j := 0 to |data[i]|
          invariant RowCells(i, data[i][..j], {'@'}) == []
        {
          RowCellsNextCol(i, data[i], j, {'@'});
          if data[i][j] == '@' {
            CellsOfNextRow(data, i, {'@'});
            RowCellsPrefix(i, data[i], j + 1, {'@'});
            CellsOfPrefix(data, i + 1, {'@'});
            assert CellsOf(data[..i + 1], {'@'})[0] == Pos(i, j);
            return Some(Pos(i, j));
          }
        }
        assert data[i][..|data[i]|] == data[i];
        CellsOfNextRow(data, i, {'@'});
      }
      assert data[..|data|] == data;
      return None;
    }

    /** `is_Completed`: every recorded target cell holds '*'. */
    method IsCompleted() returns (done: bool)
      requires Valid()
      ensures done <==> AllTargetsBoxed(data, targets)
    {
      for k := 0 to |targets|
        invariant forall i :: 0 <= i < k ==> At(data, targets[i]) == '*'
      {
        if data[targets[k].row][targets[k].col] != '*' {
          return false;
        }
      }
      return true;
    }

    /** `update_position`: move `symbol` from one cell to another, restoring a vacated target. */
    method UpdatePosition(from: Pos, to: Pos, symbol: char)
      requires InGrid(data, from) && InGrid(data, to)
      modifies this
      ensures data == Relocated(old(data), targets, from, to, symbol)
      ensures targets == old(targets)
    {
      data := Write(data, from, ' ');
      data := Write(data, to, symbol);
      if from in targets {
        data := Write(data, from, '.');
      } else {
        data := Write(data, from, ' ');
      }
    }

    /** The pushed box written onto its new cell. */
    method PlaceBox(p: Pos)
      requires InGrid(data, p)
      modifies this
      ensures data == Placed(old(data), p) && targets == old(targets)
    {
      if data[p.row][p.col] == ' ' {
        data := Write(data, p, '$');
      } else if data[p.row][p.col] == '.' {
        data := Write(data, p, '*');
      }
    }

    /**
     * The grid half of `move_player_and_box`: find the player, then walk onto
     * a free cell or push a box whose far cell is free.
     */
    method Advance(dx: int, dy: int) returns (moved: bool)
      requires Valid() && UnitStep(dx, dy)
      modifies this
      ensures targets == old(targets)
      ensures (data, moved) == GameMove(old(data), targets, dx, dy)
    {
      var cur := GetPlayerPositions();
      if cur.None? {
        return false;
      }
      var p := cur.value;
      GameMoveByCase(data, targets, dx, dy, p);
      var next := Step(p, dx, dy);
      if Free(data, next) {
        UpdatePosition(p, next, '@');
        return true;
      }
      if data[next.row][next.col] != '$' && data[next.row][next.col] != '*' {
        return false;
      }
      var beyond := Step(next, dx, dy);
      if !Free(data, beyond) {
        return false;
      }
      UnitStepMoves(p, dx, dy);
      UpdatePosition(p, next, '@');
      PlaceBox(beyond);
      return true;
    }

    /**
     * `move_player_and_box`: one move on the grid, then, if anything moved,
     * the completion check and, failing that, the deadlock check.
     */
    method MovePlayerAndBox(dx: int, dy: int) returns (banner: Banner)
      requires Valid() && UnitStep(dx, dy)
      modifies this
      ensures Valid() && targets == old(targets)
      ensures data == GameMove(old(data), targets, dx, dy).0
      ensures banner == BannerAfter(data, targets, GameMove(old(data), targets, dx, dy).1)
    {
      ghost var before := data;
      GameMoveKeepsEnclosed(before, targets, dx, dy);
      var moved := Advance(dx, dy);
      ShapeKeepsCells(before, data, targets);
      banner := NoBanner;
      if moved {
        var done := IsCompleted();
        if done {
          banner := Solved;
        } else {
          var stuck := CheckAllBoxesForDeadlock();
          if stuck {
            banner := Deadlocked;
          }
        }
      }
    }

    /** `move`: the key or solver letter mapped to its offset. */
    method Move(a: Direction) returns (banner: Banner)
      requires Valid()
      modifies this
      ensures Valid() && targets == old(targets)
      ensures data == GameMove(old(data), targets, Delta(a).0, Delta(a).1).0
      ensures banner == BannerAfter(data, targets, GameMove(old(data), targets, Delta(a).0, Delta(a).1).1)
    {
      var (dx, dy) := Delta(a);
      banner := MovePlayerAndBox(dx, dy);
    }
  }
}
