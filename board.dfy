/**
 * The board encoding shared by the solver and the game: a level is a list of
 * rows of characters, where '#' is a wall, ' ' floor, '@' the player, '$' a
 * box, '.' a target and '*' a box on a target. Cells are addressed
 * (row, column), and the four moves are U = (-1, 0), D = (1, 0),
 * L = (0, -1), R = (0, 1).
 */
module Board {

  datatype Option<T> = None | Some(value: T)

  /** A level as loaded: rows of characters, possibly of different lengths. */
  type Grid = seq<seq<char>>

  /** The characters of a cell holding a box: '$', or '*' for a box on a target. */
  const BoxChars: set<char> := {'$', '*'}

  /** A cell coordinate: `row` indexes the list of rows, `col` a row. */
  datatype Pos = Pos(row: int, col: int)

  /** The four moves, named by the letters the solver and the game use. */
  datatype Direction = U | D | L | R

  /** The (row, column) offset of each move. */
  function Delta(d: Direction): (int, int)
  {
    match d
    case U => (-1, 0)
    case D => (1, 0)
    case L => (0, -1)
    case R => (0, 1)
  }

  /** The offsets that Delta produces: one step along one axis. */
  predicate UnitStep(dx: int, dy: int)
  {
    (dx == 0 && (dy == -1 || dy == 1)) || (dy == 0 && (dx == -1 || dx == 1))
  }

  function Step(p: Pos, dx: int, dy: int): Pos
  {
    Pos(p.row + dx, p.col + dy)
  }

  predicate InGrid(g: Grid, p: Pos)
  {
    0 <= p.row < |g| && 0 <= p.col < |g[p.row]|
  }

  function At(g: Grid, p: Pos): char
    requires InGrid(g, p)
  {
    g[p.row][p.col]
  }

  /** A wall cell; a position outside the grid is not one. */
  predicate IsWall(g: Grid, p: Pos)
  {
    InGrid(g, p) && At(g, p) == '#'
  }

  predicate NeighboursInGrid(g: Grid, p: Pos)
  {
    InGrid(g, Step(p, -1, 0)) && InGrid(g, Step(p, 1, 0)) &&
    InGrid(g, Step(p, 0, -1)) && InGrid(g, Step(p, 0, 1))
  }

  /** Each neighbour of `p` that is not a wall belongs to `region`. */
  predicate OpenNeighboursIn(g: Grid, p: Pos, region: set<Pos>)
  {
    (!IsWall(g, Step(p, -1, 0)) ==> Step(p, -1, 0) in region) &&
    (!IsWall(g, Step(p, 1, 0)) ==> Step(p, 1, 0) in region) &&
    (!IsWall(g, Step(p, 0, -1)) ==> Step(p, 0, -1) in region) &&
    (!IsWall(g, Step(p, 0, 1)) ==> Step(p, 0, 1) in region)
  }

  /**
   * A walled-in region: every cell of it is a non-wall cell of the grid with
   * its four neighbours inside the grid, and every non-wall neighbour of one
   * of its cells belongs to it too. Walking and pushing never leave such a
   * region, so every neighbour the source indexes from it exists. Floor
   * outside the walls (an indented outline) need not belong to it.
   */
  ghost predicate WalledIn(g: Grid, region: set<Pos>)
  {
    forall p {:trigger OpenNeighboursIn(g, p, region)} :: p in region ==>
      InGrid(g, p) && At(g, p) != '#' && NeighboursInGrid(g, p) && OpenNeighboursIn(g, p, region)
  }

  /** `p` lies in some walled-in region of the level. */
  ghost predicate Enclosed(g: Grid, p: Pos)
  {
    exists region :: WalledIn(g, region) && p in region
  }

  /** Every cell holding the player or a box lies in a walled-in region. */
  ghost predicate PiecesEnclosed(g: Grid)
  {
    forall q {:trigger At(g, q)} :: InGrid(g, q) && At(g, q) in {'@', '$', '*'} ==> Enclosed(g, q)
  }

  /**
   * A walled-in cell is a non-wall cell of the grid whose neighbours are in
   * the grid, and a neighbour that is not a wall is walled in too.
   */
  lemma EnclosedStep(g: Grid, p: Pos, dx: int, dy: int)
    requires Enclosed(g, p) && UnitStep(dx, dy)
    ensures InGrid(g, p) && At(g, p) != '#'
    ensures InGrid(g, Step(p, dx, dy))
    ensures !IsWall(g, Step(p, dx, dy)) ==> Enclosed(g, Step(p, dx, dy))
  {
    var region :| WalledIn(g, region) && p in region;
    assert NeighboursInGrid(g, p) && OpenNeighboursIn(g, p, region);
    if !IsWall(g, Step(p, dx, dy)) {
      assert Step(p, dx, dy) in region;
    }
  }

  /** A level indented by one column: floor lies outside its walls, on the grid's border. */
  const IndentedOutline: Grid := [" #####", " #@$.#", " #   #", " #####"]

  /** The indented level's walled-in region: the six cells inside its walls. */
  const IndentedRegion: set<Pos> := {Pos(1, 2), Pos(1, 3), Pos(1, 4), Pos(2, 2), Pos(2, 3), Pos(2, 4)}

  /**
   * Floor on the border does not matter: the indented level's player and box
   * are walled in, although its first column is floor with no cell to its left.
   */
  lemma IndentedOutlineEnclosed()
    ensures WalledIn(IndentedOutline, IndentedRegion)
    ensures PiecesEnclosed(IndentedOutline)
    ensures InGrid(IndentedOutline, Pos(1, 0)) && At(IndentedOutline, Pos(1, 0)) == ' '
    ensures !NeighboursInGrid(IndentedOutline, Pos(1, 0))
  {
    var g := IndentedOutline;
    assert g[0] == " #####" && g[1] == " #@$.#" && g[2] == " #   #" && g[3] == " #####";
    forall p | p in IndentedRegion
      ensures InGrid(g, p) && At(g, p) != '#' && NeighboursInGrid(g, p)
      ensures OpenNeighboursIn(g, p, IndentedRegion)
    {
      assert p.row == 1 || p.row == 2;
      assert 2 <= p.col <= 4;
    }
    forall q | InGrid(g, q) && At(g, q) in {'@', '$', '*'} ensures Enclosed(g, q) {
      assert q.row == 1 && (q.col == 2 || q.col == 3);
      assert q in IndentedRegion;
    }
  }

  /**
   * The corner test used by both the solver and the game: written, as in the
   * source, as four wall pairs (above+left, above+right, below+left,
   * below+right). Targets are not consulted.
   */
  predicate CornerDeadlock(g: Grid, p: Pos)
    ensures CornerDeadlock(g, p) <==>
              (IsWall(g, Step(p, -1, 0)) || IsWall(g, Step(p, 1, 0))) &&
              (IsWall(g, Step(p, 0, -1)) || IsWall(g, Step(p, 0, 1)))
  {
    (IsWall(g, Step(p, -1, 0)) && IsWall(g, Step(p, 0, -1))) ||
    (IsWall(g, Step(p, -1, 0)) && IsWall(g, Step(p, 0, 1))) ||
    (IsWall(g, Step(p, 1, 0)) && IsWall(g, Step(p, 0, -1))) ||
    (IsWall(g, Step(p, 1, 0)) && IsWall(g, Step(p, 0, 1)))
  }

  /** Row-major order: earlier row, or same row and earlier column. */
  predicate Before(p: Pos, q: Pos)
  {
    p.row < q.row || (p.row == q.row && p.col < q.col)
  }

  /** The columns of `row` (row number `r`) holding a character of `cs`, left to right. */
  function RowCells(r: int, row: seq<char>, cs: set<char>): (cells: seq<Pos>)
    ensures forall i :: 0 <= i < |cells| ==>
              cells[i].row == r && 0 <= cells[i].col < |row| && row[cells[i].col] in cs
    ensures forall i, j :: 0 <= i < j < |cells| ==> cells[i].col < cells[j].col
    decreases |row|
  {
    if |row| == 0 then []
    else RowCells(r, row[..|row| - 1], cs) + (if row[|row| - 1] in cs then [Pos(r, |row| - 1)] else [])
  }

  /**
   * The cells of `g` holding a character of `cs`, in the row-major order of a
   * scan that enumerates rows and then columns.
   */
  function CellsOf(g: Grid, cs: set<char>): (cells: seq<Pos>)
    ensures forall i :: 0 <= i < |cells| ==> InGrid(g, cells[i]) && At(g, cells[i]) in cs
    ensures forall i, j :: 0 <= i < j < |cells| ==> Before(cells[i], cells[j])
    decreases |g|
  {
    if |g| == 0 then []
    else CellsOf(g[..|g| - 1], cs) + RowCells(|g| - 1, g[|g| - 1], cs)
  }

  lemma {:induction false} RowCellsMember(r: int, row: seq<char>, cs: set<char>, p: Pos)
    ensures p in RowCells(r, row, cs) <==> p.row == r && 0 <= p.col < |row| && row[p.col] in cs
    decreases |row|
  {
    if |row| > 0 {
      RowCellsMember(r, row[..|row| - 1], cs, p);
    }
  }

  /** The scan finds exactly the cells holding a character of `cs`. */
  lemma {:induction false} CellsOfMember(g: Grid, cs: set<char>, p: Pos)
    ensures p in CellsOf(g, cs) <==> InGrid(g, p) && At(g, p) in cs
    decreases |g|
  {
    if |g| > 0 {
      CellsOfMember(g[..|g| - 1], cs, p);
      RowCellsMember(|g| - 1, g[|g| - 1], cs, p);
    }
  }

  lemma {:induction false} CellsOfPrefix(g: Grid, k: nat, cs: set<char>)
    requires k <= |g|
    ensures CellsOf(g[..k], cs) <= CellsOf(g, cs)
    decreases |g| - k
  {
    if k < |g| {
      CellsOfPrefix(g[..|g| - 1], k, cs);
      assert g[..|g| - 1][..k] == g[..k];
    } else {
      assert g[..k] == g;
    }
  }

  lemma {:induction false} RowCellsPrefix(r: int, row: seq<char>, k: nat, cs: set<char>)
    requires k <= |row|
    ensures RowCells(r, row[..k], cs) <= RowCells(r, row, cs)
    decreases |row| - k
  {
    if k < |row| {
      RowCellsPrefix(r, row[..|row| - 1], k, cs);
      assert row[..|row| - 1][..k] == row[..k];
    } else {
      assert row[..k] == row;
    }
  }

  /** One more row of the scan. */
  lemma CellsOfNextRow(g: Grid, i: nat, cs: set<char>)
    requires i < |g|
    ensures CellsOf(g[..i + 1], cs) == CellsOf(g[..i], cs) + RowCells(i, g[i], cs)
  {
    assert g[..i + 1][..i] == g[..i];
  }

  /** One more column of the scan. */
  lemma RowCellsNextCol(r: int, row: seq<char>, j: nat, cs: set<char>)
    requires j < |row|
    ensures RowCells(r, row[..j + 1], cs) ==
            RowCells(r, row[..j], cs) + (if row[j] in cs then [Pos(r, j)] else [])
  {
    assert row[..j + 1][..j] == row[..j];
  }

  /**
   * `get_targets_positions`: a row-major scan collecting the '.' cells. A '*'
   * cell holds a box on a target but is not collected.
   */
  method GetTargetsPositions(g: Grid) returns (targets: seq<Pos>)
    ensures targets == CellsOf(g, {'.'})
    ensures forall p :: p in targets <==> InGrid(g, p) && At(g, p) == '.'
  {
    targets := [];
    for i := 0 to |g|
      invariant targets == CellsOf(g[..i], {'.'})
    {
      for j := 0 to |g[i]|
        invariant targets == CellsOf(g[..i], {'.'}) + RowCells(i, g[i][..j], {'.'})
      {
        RowCellsNextCol(i, g[i], j, {'.'});
        if g[i][j] == '.' {
          targets := targets + [Pos(i, j)];
        }
      }
      assert g[i][..|g[i]|] == g[i];
      CellsOfNextRow(g, i, {'.'});
    }
    assert g[..|g|] == g;
    forall p ensures p in targets <==> InGrid(g, p) && At(g, p) == '.' {
      CellsOfMember(g, {'.'}, p);
    }
  }
}
