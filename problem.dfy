/**
 * The solver's transition system (`SokobanProblem`): a state is the player's
 * cell and the tuple of box cells; every operation returns a fresh state and
 * only reads the level, which the solver consults for walls alone.
 */
module Problem {
  import opened Board

  /** A search state: the player and the boxes, in the order the tuple holds them. */
  datatype State = State(player: Pos, boxes: seq<Pos>)

  predicate Distinct(s: seq<Pos>)
  {
    forall i, j :: 0 <= i < j < |s| ==> s[i] != s[j]
  }

  /**
   * The invariant of every state the solver builds: player and boxes on
   * non-wall cells of the grid, each in a walled-in region, boxes pairwise
   * distinct, player on no box.
   */
  ghost predicate ValidState(g: Grid, s: State)
  {
    InGrid(g, s.player) && At(g, s.player) != '#' && Enclosed(g, s.player) &&
    (forall i :: 0 <= i < |s.boxes| ==>
       InGrid(g, s.boxes[i]) && At(g, s.boxes[i]) != '#' && Enclosed(g, s.boxes[i])) &&
    Distinct(s.boxes) && s.player !in s.boxes
  }

  /** The index of the first occurrence of `x` in `s`. */
  function IndexOf(s: seq<Pos>, x: Pos): (k: nat)
    requires x in s
    ensures k < |s| && s[k] == x && x !in s[..k]
  {
    if s[0] == x then 0 else 1 + IndexOf(s[1..], x)
  }

  /** `list.remove`: the sequence without the first occurrence of `x`. */
  function Remove(s: seq<Pos>, x: Pos): (r: seq<Pos>)
    requires x in s
    ensures r == s[..IndexOf(s, x)] + s[IndexOf(s, x) + 1..]
  {
    if s[0] == x then s[1..]
    else
      assert s[1..][..IndexOf(s[1..], x)] == s[1..IndexOf(s, x)];
      [s[0]] + Remove(s[1..], x)
  }

  /** Deleting the element at `k` from a distinct sequence removes that value alone. */
  lemma DeleteAtDistinct(s: seq<Pos>, k: nat)
    requires k < |s| && Distinct(s)
    ensures Distinct(s[..k] + s[k + 1..])
    ensures forall y :: y in s[..k] + s[k + 1..] <==> y in s && y != s[k]
  {
    var r := s[..k] + s[k + 1..];
    assert forall i | 0 <= i < |r| :: r[i] == s[if i < k then i else i + 1];
    forall y ensures y in r <==> y in s && y != s[k] {
      if y in r {
        var i :| 0 <= i < |r| && r[i] == y;
        var i' := if i < k then i else i + 1;
        assert s[i'] == y && i' != k;
      }
      if y in s && y != s[k] {
        var m :| 0 <= m < |s| && s[m] == y;
        var i := if m < k then m else m - 1;
        assert r[i] == y;
      }
    }
  }

  /** Removing from a distinct sequence takes out `x` alone and keeps the rest distinct. */
  lemma RemoveDistinct(s: seq<Pos>, x: Pos)
    requires x in s && Distinct(s)
    ensures |Remove(s, x)| == |s| - 1
    ensures Distinct(Remove(s, x))
    ensures forall y :: y in Remove(s, x) <==> y in s && y != x
  {
    DeleteAtDistinct(s, IndexOf(s, x));
  }

  /** Appending before removing, as `update_valid_move` does, is removing then appending. */
  lemma {:induction false} RemoveAppend(s: seq<Pos>, x: Pos, y: Pos)
    requires x in s
    ensures Remove(s + [y], x) == Remove(s, x) + [y]
  {
    if s[0] != x {
      assert (s + [y])[1..] == s[1..] + [y];
      RemoveAppend(s[1..], x, y);
    }
  }

  /** The state a push produces keeps the state invariant. */
  lemma PushKeepsValid(g: Grid, s: State, dx: int, dy: int)
    requires ValidState(g, s) && UnitStep(dx, dy)
    requires Step(s.player, dx, dy) in s.boxes
    requires !IsWall(g, Step(Step(s.player, dx, dy), dx, dy))
    requires Step(Step(s.player, dx, dy), dx, dy) !in s.boxes
    ensures ValidState(g, State(Step(s.player, dx, dy), Remove(s.boxes + [Step(Step(s.player, dx, dy), dx, dy)], Step(s.player, dx, dy))))
    ensures |Remove(s.boxes + [Step(Step(s.player, dx, dy), dx, dy)], Step(s.player, dx, dy))| == |s.boxes|
  {
    var next := Step(s.player, dx, dy);
    var beyond := Step(next, dx, dy);
    RemoveAppend(s.boxes, next, beyond);
    RemoveDistinct(s.boxes, next);
    var rest := Remove(s.boxes, next);
    var r := rest + [beyond];
    var k :| 0 <= k < |s.boxes| && s.boxes[k] == next;
    EnclosedStep(g, s.player, dx, dy);
    EnclosedStep(g, next, dx, dy);
    assert InGrid(g, beyond) && At(g, beyond) != '#' && Enclosed(g, beyond);
    forall i | 0 <= i < |r| ensures InGrid(g, r[i]) && At(g, r[i]) != '#' && Enclosed(g, r[i]) {
      if i < |rest| {
        assert r[i] in s.boxes;
      }
    }
    forall i, j | 0 <= i < j < |r| ensures r[i] != r[j] {
      if j == |rest| {
        assert r[i] in s.boxes;
      }
    }
  }

  /**
   * `update_valid_move`: walk onto a cell that is neither a wall nor a box;
   * push a box whose far cell is neither a wall nor a box nor a corner
   * deadlock; otherwise return the state unchanged.
   */
  function UpdateValidMove(g: Grid, s: State, dx: int, dy: int): (r: State)
    requires ValidState(g, s) && UnitStep(dx, dy)
    ensures ValidState(g, r) && |r.boxes| == |s.boxes|
    ensures r == s || r.player == Step(s.player, dx, dy)
  {
    var next := Step(s.player, dx, dy);
    EnclosedStep(g, s.player, dx, dy);
    if !IsWall(g, next) && next !in s.boxes then
      State(next, s.boxes)
    else if next in s.boxes then
      var beyond := Step(next, dx, dy);
      if !IsWall(g, beyond) && beyond !in s.boxes && !CornerDeadlock(g, beyond) then
        PushKeepsValid(g, s, dx, dy);
        State(next, Remove(s.boxes + [beyond], next))
      else
        s
    else
      s
  }

  /** The move is refused: a wall ahead, or a box that cannot be pushed. */
  predicate Blocked(g: Grid, s: State, dx: int, dy: int)
  {
    var next := Step(s.player, dx, dy);
    var beyond := Step(next, dx, dy);
    IsWall(g, next) ||
    (next in s.boxes && (IsWall(g, beyond) || beyond in s.boxes || CornerDeadlock(g, beyond)))
  }

  /** A walk leaves the boxes exactly as they were. */
  lemma WalkMove(g: Grid, s: State, dx: int, dy: int)
    requires ValidState(g, s) && UnitStep(dx, dy)
    requires !IsWall(g, Step(s.player, dx, dy)) && Step(s.player, dx, dy) !in s.boxes
    ensures UpdateValidMove(g, s, dx, dy) == State(Step(s.player, dx, dy), s.boxes)
  {
  }

  /**
   * A push moves the pushed box one step, into the last place of the tuple,
   * takes the player to the box's old cell and keeps every other box.
   */
  lemma PushMove(g: Grid, s: State, dx: int, dy: int)
    requires ValidState(g, s) && UnitStep(dx, dy)
    requires Step(s.player, dx, dy) in s.boxes
    requires !Blocked(g, s, dx, dy)
    ensures UpdateValidMove(g, s, dx, dy).player == Step(s.player, dx, dy)
    ensures UpdateValidMove(g, s, dx, dy).boxes ==
            Remove(s.boxes, Step(s.player, dx, dy)) + [Step(Step(s.player, dx, dy), dx, dy)]
    ensures forall b :: b in UpdateValidMove(g, s, dx, dy).boxes <==>
              (b in s.boxes && b != Step(s.player, dx, dy)) || b == Step(Step(s.player, dx, dy), dx, dy)
  {
    var next := Step(s.player, dx, dy);
    RemoveAppend(s.boxes, next, Step(next, dx, dy));
    RemoveDistinct(s.boxes, next);
  }

  /** The state comes back unchanged exactly when the move is blocked. */
  lemma NoOpIffBlocked(g: Grid, s: State, dx: int, dy: int)
    requires ValidState(g, s) && UnitStep(dx, dy)
    ensures UpdateValidMove(g, s, dx, dy) == s <==> Blocked(g, s, dx, dy)
  {
  }

  /** `result`: apply the move named by the action. */
  function Result(g: Grid, s: State, a: Direction): (r: State)
    requires ValidState(g, s)
    ensures ValidState(g, r) && |r.boxes| == |s.boxes|
    ensures r == s <==> Blocked(g, s, Delta(a).0, Delta(a).1)
  {
    NoOpIffBlocked(g, s, Delta(a).0, Delta(a).1);
    UpdateValidMove(g, s, Delta(a).0, Delta(a).1)
  }

  /** The position of a move in the order the solver tries them. */
  function Rank(d: Direction): nat
  {
    match d
    case U => 0
    case D => 1
    case L => 2
    case R => 3
  }

  const AllMoves: seq<Direction> := [U, D, L, R]

  predicate RankSorted(ds: seq<Direction>)
  {
    forall i, j :: 0 <= i < j < |ds| ==> Rank(ds[i]) < Rank(ds[j])
  }

  /** The solver's test for keeping a move: its transition changes the state. */
  predicate Changes(g: Grid, s: State, d: Direction)
    requires ValidState(g, s)
  {
    Result(g, s, d) != s
  }

  /** The solver tries every move, in rank order. */
  lemma EveryMoveTried()
    ensures forall d :: d in AllMoves
    ensures RankSorted(AllMoves)
  {
    forall d ensures d in AllMoves {
      match d
      case U => assert AllMoves[0] == U;
      case D => assert AllMoves[1] == D;
      case L => assert AllMoves[2] == L;
      case R => assert AllMoves[3] == R;
    }
  }

  /** The moves of `ds`, kept in order, whose transition changes the state. */
  function LegalAmong(g: Grid, s: State, ds: seq<Direction>): (acts: seq<Direction>)
    requires ValidState(g, s)
    ensures forall d :: d in acts <==> d in ds && Changes(g, s, d)
    ensures RankSorted(ds) ==> RankSorted(acts)
    decreases |ds|
  {
    if |ds| == 0 then []
    else
      var last := ds[|ds| - 1];
      var front := LegalAmong(g, s, ds[..|ds| - 1]);
      assert forall d :: d in ds <==> d in ds[..|ds| - 1] || d == last;
      RankedBeforeLast(ds, front);
      front + (if Changes(g, s, last) then [last] else [])
  }

  /** In a rank-ordered list, everything taken from before the last move ranks below it. */
  lemma RankedBeforeLast(ds: seq<Direction>, front: seq<Direction>)
    requires |ds| > 0 && forall d :: d in front ==> d in ds[..|ds| - 1]
    ensures RankSorted(ds) ==> forall d :: d in front ==> Rank(d) < Rank(ds[|ds| - 1])
  {
    if RankSorted(ds) {
      forall d | d in front ensures Rank(d) < Rank(ds[|ds| - 1]) {
        var i :| 0 <= i < |ds| - 1 && ds[i] == d;
      }
    }
  }

  /**
   * The actions the solver offers in a state: exactly the moves whose
   * transition changes the state, in the order U, D, L, R.
   */
  function LegalActions(g: Grid, s: State): (acts: seq<Direction>)
    requires ValidState(g, s)
    ensures forall d :: d in acts <==> !Blocked(g, s, Delta(d).0, Delta(d).1)
    ensures forall i, j :: 0 <= i < j < |acts| ==> Rank(acts[i]) < Rank(acts[j])
  {
    EveryMoveTried();
    assert forall d :: Changes(g, s, d) <==> !Blocked(g, s, Delta(d).0, Delta(d).1);
    LegalAmong(g, s, AllMoves)
  }

  /** `actions`: the loop over the four moves that keeps those changing the state. */
  method Actions(g: Grid, s: State) returns (acts: seq<Direction>)
    requires ValidState(g, s)
    ensures acts == LegalActions(g, s)
  {
    acts := [];
    for k := 0 to |AllMoves|
      invariant acts == LegalAmong(g, s, AllMoves[..k])
    {
      var (dx, dy) := Delta(AllMoves[k]);
      var next := UpdateValidMove(g, s, dx, dy);
      LegalAmongNext(g, s, k);
      assert next != s <==> Changes(g, s, AllMoves[k]);
      if next != s {
        acts := acts + [AllMoves[k]];
      }
    }
    assert AllMoves[..|AllMoves|] == AllMoves;
  }

  /** One more move of the table: kept exactly when its transition changes the state. */
  lemma LegalAmongNext(g: Grid, s: State, k: nat)
    requires ValidState(g, s) && k < |AllMoves|
    ensures LegalAmong(g, s, AllMoves[..k + 1]) ==
            LegalAmong(g, s, AllMoves[..k]) + (if Changes(g, s, AllMoves[k]) then [AllMoves[k]] else [])
  {
    assert AllMoves[..k + 1][..k] == AllMoves[..k];
  }

  /** A listed action always changes the state. */
  lemma ListedActionMoves(g: Grid, s: State, a: Direction)
    requires ValidState(g, s)
    requires a in LegalActions(g, s)
    ensures Result(g, s, a) != s
    ensures Result(g, s, a).player == Step(s.player, Delta(a).0, Delta(a).1)
  {
  }

  /** `cost`: every step costs one. */
  function Cost(s: State, a: Direction, s2: State): (c: nat)
    ensures c == 1
  {
    1
  }

  /** The state reached by applying the actions one after another. */
  function Run(g: Grid, s: State, path: seq<Direction>): (r: State)
    requires ValidState(g, s)
    ensures ValidState(g, r) && |r.boxes| == |s.boxes|
    decreases |path|
  {
    if |path| == 0 then s else Run(g, Result(g, s, path[0]), path[1..])
  }

  /** The summed step costs along a path. */
  function PathCost(g: Grid, s: State, path: seq<Direction>): int
    requires ValidState(g, s)
    decreases |path|
  {
    if |path| == 0 then 0
    else Cost(s, path[0], Result(g, s, path[0])) + PathCost(g, Result(g, s, path[0]), path[1..])
  }

  /** With unit costs the cost of a path is its number of moves. */
  lemma {:induction false} PathCostIsLength(g: Grid, s: State, path: seq<Direction>)
    requires ValidState(g, s)
    ensures PathCost(g, s, path) == |path|
    decreases |path|
  {
    if |path| > 0 {
      PathCostIsLength(g, Result(g, s, path[0]), path[1..]);
    }
  }

  /** `is_goal`: the set of boxes equals the set of recorded targets. */
  predicate IsGoal(goal: seq<Pos>, s: State)
    ensures IsGoal(goal, s) <==>
              (forall b :: b in s.boxes ==> b in goal) && (forall t :: t in goal ==> t in s.boxes)
  {
    var boxSet := set b | b in s.boxes;
    var goalSet := set t | t in goal;
    assert forall p :: p in boxSet <==> p in s.boxes;
    assert forall p :: p in goalSet <==> p in goal;
    assert boxSet == goalSet <==> forall p :: p in boxSet <==> p in goalSet;
    boxSet == goalSet
  }

  function Abs(x: int): nat
  {
    if x < 0 then -x else x
  }

  function Manhattan(a: Pos, b: Pos): nat
  {
    Abs(a.row - b.row) + Abs(a.col - b.col)
  }

  /** `min` of the distances from `b` to the targets. */
  function MinDistance(b: Pos, goal: seq<Pos>): (m: nat)
    requires |goal| > 0
    ensures forall i :: 0 <= i < |goal| ==> m <= Manhattan(b, goal[i])
    ensures exists i :: 0 <= i < |goal| && m == Manhattan(b, goal[i])
    decreases |goal|
  {
    if |goal| == 1 then Manhattan(b, goal[0])
    else
      var m := MinDistance(b, goal[..|goal| - 1]);
      var last := Manhattan(b, goal[|goal| - 1]);
      if m <= last then m else last
  }

  /**
   * The heuristic's value: over the boxes, the sum of each box's distance to
   * its nearest target. It is zero exactly when every box is on a target.
   */
  function HeuristicValue(goal: seq<Pos>, boxes: seq<Pos>): (h: nat)
    requires |goal| > 0 || |boxes| == 0
    ensures h == 0 <==> forall b :: b in boxes ==> b in goal
    decreases |boxes|
  {
    if |boxes| == 0 then 0
    else
      var rest := boxes[..|boxes| - 1];
      var b := boxes[|boxes| - 1];
      assert forall x :: x in boxes <==> x in rest || x == b;
      ZeroDistanceOnTarget(b, goal);
      HeuristicValue(goal, rest) + MinDistance(b, goal)
  }

  lemma ZeroDistanceOnTarget(b: Pos, goal: seq<Pos>)
    requires |goal| > 0
    ensures MinDistance(b, goal) == 0 <==> b in goal
  {
    if b in goal {
      var i :| 0 <= i < |goal| && goal[i] == b;
      assert Manhattan(b, goal[i]) == 0;
    }
  }

  /** A goal state has heuristic zero. */
  lemma GoalHasZeroHeuristic(goal: seq<Pos>, s: State)
    requires |goal| > 0 || |s.boxes| == 0
    requires IsGoal(goal, s)
    ensures HeuristicValue(goal, s.boxes) == 0
  {
  }

  /** `heuristic`: the loop accumulating `total_distance` over the boxes. */
  method Heuristic(goal: seq<Pos>, s: State) returns (total: nat)
    requires |goal| > 0 || |s.boxes| == 0
    ensures total == HeuristicValue(goal, s.boxes)
  {
    total := 0;
    for k := 0 to |s.boxes|
      invariant total == HeuristicValue(goal, s.boxes[..k])
    {
      total := total + MinDistance(s.boxes[k], goal);
      assert s.boxes[..k + 1][..k] == s.boxes[..k];
    }
    assert s.boxes[..|s.boxes|] == s.boxes;
  }

  function LastOf(s: seq<Pos>): Option<Pos>
  {
    if |s| == 0 then None else Some(s[|s| - 1])
  }

  /**
   * `get_initial_state`: one row-major scan; every '@' overwrites the player,
   * so the last one wins (none leaves it None); '$' and '*' cells append a box.
   */
  method GetInitialState(g: Grid) returns (player: Option<Pos>, boxes: seq<Pos>)
    ensures player == LastOf(CellsOf(g, {'@'}))
    ensures boxes == CellsOf(g, BoxChars)
  {
    player := None;
    boxes := [];
    for i := 0 to |g|
      invariant player == LastOf(CellsOf(g[..i], {'@'}))
      invariant boxes == CellsOf(g[..i], BoxChars)
    {
      for j := 0 to |g[i]|
        invariant player == LastOf(CellsOf(g[..i], {'@'}) + RowCells(i, g[i][..j], {'@'}))
        invariant boxes == CellsOf(g[..i], BoxChars) + RowCells(i, g[i][..j], BoxChars)
      {
        RowCellsNextCol(i, g[i], j, {'@'});
        RowCellsNextCol(i, g[i], j, BoxChars);
        if g[i][j] == '@' {
          player := Some(Pos(i, j));
        } else if g[i][j] == '$' || g[i][j] == '*' {
          boxes := boxes + [Pos(i, j)];
        }
      }
      assert g[i][..|g[i]|] == g[i];
      CellsOfNextRow(g, i, {'@'});
      CellsOfNextRow(g, i, BoxChars);
    }
    assert g[..|g|] == g;
  }

  /** The initial state, when the level has a player. */
  function InitialState(g: Grid): (r: Option<State>)
    ensures r.None? <==> forall q {:trigger At(g, q)} :: InGrid(g, q) ==> At(g, q) != '@'
    ensures r.Some? ==> InGrid(g, r.value.player) && At(g, r.value.player) == '@'
    ensures r.Some? ==> forall q {:trigger At(g, q)} :: InGrid(g, q) && At(g, q) == '@' ==>
                          q == r.value.player || Before(q, r.value.player)
  {
    var ps := CellsOf(g, {'@'});
    assert forall q :: q in ps <==> InGrid(g, q) && At(g, q) == '@' by {
      forall q ensures q in ps <==> InGrid(g, q) && At(g, q) == '@' {
        CellsOfMember(g, {'@'}, q);
      }
    }
    match LastOf(ps)
    case None => None
    case Some(p) => Some(State(p, CellsOf(g, BoxChars)))
  }

  /**
   * The scanned state has distinct boxes, exactly the '$' and '*' cells, and
   * a player on none of them; on a level whose player and boxes are walled
   * in it satisfies the state invariant.
   */
  lemma InitialStateValid(g: Grid)
    requires InitialState(g).Some?
    ensures Distinct(InitialState(g).value.boxes) && InitialState(g).value.player !in InitialState(g).value.boxes
    ensures forall p :: p in InitialState(g).value.boxes <==> InGrid(g, p) && At(g, p) in BoxChars
    ensures PiecesEnclosed(g) ==> ValidState(g, InitialState(g).value)
  {
    var s := InitialState(g).value;
    var players := CellsOf(g, {'@'});
    assert s.player == players[|players| - 1];
    forall p ensures p in s.boxes <==> InGrid(g, p) && At(g, p) in BoxChars {
      CellsOfMember(g, BoxChars, p);
    }
    forall i, j | 0 <= i < j < |s.boxes| ensures s.boxes[i] != s.boxes[j] {
      assert Before(s.boxes[i], s.boxes[j]);
    }
    if PiecesEnclosed(g) {
      assert Enclosed(g, s.player);
      forall i | 0 <= i < |s.boxes| ensures Enclosed(g, s.boxes[i]) {
        assert s.boxes[i] in s.boxes;
        assert InGrid(g, s.boxes[i]) && At(g, s.boxes[i]) in {'@', '$', '*'};
      }
    }
  }

  /** A box on a target ('*') becomes a box of the state but not a recorded target. */
  lemma StarIsBoxNotTarget(g: Grid, p: Pos)
    requires InGrid(g, p) && At(g, p) == '*'
    ensures p in CellsOf(g, BoxChars) && p !in CellsOf(g, {'.'})
  {
    CellsOfMember(g, BoxChars, p);
    CellsOfMember(g, {'.'}, p);
  }

  /** Collecting a tuple into a set loses no element of a duplicate-free tuple, and never adds one. */
  lemma {:induction false} SetOfCard(s: seq<Pos>)
    ensures |set x | x in s| <= |s|
    ensures Distinct(s) ==> |set x | x in s| == |s|
  {
    if |s| > 0 {
      var front := s[..|s| - 1];
      var last := s[|s| - 1];
      SetOfCard(front);
      assert s == front + [last];
      assert (set x | x in s) == (set x | x in front) + {last};
      if Distinct(s) {
        assert Distinct(front);
        assert last !in front by {
          forall i | 0 <= i < |front| ensures front[i] != last {
            assert s[i] == front[i];
          }
        }
      }
    }
  }

  /**
   * A state with more boxes than there are targets is never a goal. With a
   * `*` on the level this is every state of a level with as many boxes as
   * target cells, since the `*` cell is a box but not a target.
   */
  lemma MoreBoxesThanTargets(goal: seq<Pos>, s: State)
    requires Distinct(s.boxes) && |s.boxes| > |goal|
    ensures !IsGoal(goal, s)
  {
    SetOfCard(s.boxes);
    SetOfCard(goal);
  }

  /** Every action of `path` is one the solver offers in the state reached so far. */
  predicate Offered(g: Grid, s: State, path: seq<Direction>)
    requires ValidState(g, s)
    decreases |path|
  {
    |path| == 0 || (path[0] in LegalActions(g, s) && Offered(g, Result(g, s, path[0]), path[1..]))
  }

  /** The prefix of an offered path is offered, and its last action is offered where the prefix ends. */
  lemma {:induction false} OfferedLast(g: Grid, s: State, path: seq<Direction>)
    requires ValidState(g, s) && Offered(g, s, path) && |path| > 0
    ensures Offered(g, s, path[..|path| - 1])
    ensures path[|path| - 1] in LegalActions(g, Run(g, s, path[..|path| - 1]))
    decreases |path|
  {
    var front := path[..|path| - 1];
    if |path| > 1 {
      var rest := path[1..];
      OfferedLast(g, Result(g, s, path[0]), rest);
      assert front[0] == path[0] && front[1..] == rest[..|rest| - 1];
      assert path[|path| - 1] == rest[|rest| - 1];
    }
  }

  /**
   * `path` is a solution from `s`: every action is one the solver offers in
   * the state reached so far, and the last state is a goal.
   */
  predicate Solves(g: Grid, goal: seq<Pos>, s: State, path: seq<Direction>)
    requires ValidState(g, s)
    ensures Solves(g, goal, s, path) ==> Offered(g, s, path) && IsGoal(goal, Run(g, s, path))
    decreases |path|
  {
    if |path| == 0 then IsGoal(goal, s)
    else path[0] in LegalActions(g, s) && Solves(g, goal, Result(g, s, path[0]), path[1..])
  }

  /**
   * A solution is exactly a path of offered actions whose last state is a
   * goal; it keeps the number of boxes.
   */
  lemma {:induction false} SolvesIffOfferedGoal(g: Grid, goal: seq<Pos>, s: State, path: seq<Direction>)
    requires ValidState(g, s)
    ensures Solves(g, goal, s, path) <==> Offered(g, s, path) && IsGoal(goal, Run(g, s, path))
    ensures |Run(g, s, path).boxes| == |s.boxes|
    decreases |path|
  {
    if |path| > 0 {
      SolvesIffOfferedGoal(g, goal, Result(g, s, path[0]), path[1..]);
    }
  }

  /** A corridor whose only target sits in a corner: `#@$.#`. */
  const Corridor: Grid := ["#####", "#@$.#", "#####"]

  /** The corridor's only non-wall cells are the three inner cells of its middle row. */
  lemma CorridorOpenCells(p: Pos)
    requires InGrid(Corridor, p) && At(Corridor, p) != '#'
    ensures p.row == 1 && 1 <= p.col <= 3
  {
    if p.row == 1 {
      assert Corridor[1] == "#@$.#";
    }
  }

  /** The corridor's walled-in region: its three inner cells. */
  const CorridorRegion: set<Pos> := {Pos(1, 1), Pos(1, 2), Pos(1, 3)}

  lemma CorridorWalledIn()
    ensures WalledIn(Corridor, CorridorRegion)
    ensures PiecesEnclosed(Corridor)
  {
    assert Corridor[0] == "#####" && Corridor[1] == "#@$.#" && Corridor[2] == "#####";
    forall p | p in CorridorRegion
      ensures InGrid(Corridor, p) && At(Corridor, p) != '#' && NeighboursInGrid(Corridor, p)
      ensures OpenNeighboursIn(Corridor, p, CorridorRegion)
    {
      assert p == Pos(1, 1) || p == Pos(1, 2) || p == Pos(1, 3);
      assert IsWall(Corridor, Step(p, -1, 0)) && IsWall(Corridor, Step(p, 1, 0));
    }
    forall q | InGrid(Corridor, q) && At(Corridor, q) in {'@', '$', '*'} ensures Enclosed(Corridor, q) {
      CorridorOpenCells(q);
      assert q in CorridorRegion;
    }
  }

  const CorridorStart: State := State(Pos(1, 1), [Pos(1, 2)])

  lemma CorridorStartValid()
    ensures ValidState(Corridor, CorridorStart)
  {
    CorridorWalledIn();
    assert Pos(1, 1) in CorridorRegion && Pos(1, 2) in CorridorRegion;
    assert At(Corridor, Pos(1, 1)) == '@' && At(Corridor, Pos(1, 2)) == '$';
  }

  lemma CorridorAllBlocked(d: Direction)
    ensures Blocked(Corridor, CorridorStart, Delta(d).0, Delta(d).1)
  {
    assert IsWall(Corridor, Pos(0, 1)) && IsWall(Corridor, Pos(2, 1)) && IsWall(Corridor, Pos(1, 0));
    assert IsWall(Corridor, Pos(0, 3)) && IsWall(Corridor, Pos(1, 4));
    assert CornerDeadlock(Corridor, Pos(1, 3));
  }

  /**
   * The corner test ignores targets: in the corridor the one push that would
   * reach the target is refused, so the solver offers no action at all and no
   * action sequence solves the level.
   */
  lemma CornerTargetUnsolvable()
    ensures ValidState(Corridor, CorridorStart)
    ensures CornerDeadlock(Corridor, Pos(1, 3)) && At(Corridor, Pos(1, 3)) == '.'
    ensures LegalActions(Corridor, CorridorStart) == []
    ensures forall path :: !Solves(Corridor, [Pos(1, 3)], CorridorStart, path)
  {
    CorridorStartValid();
    CorridorAllBlocked(R);
    var acts := LegalActions(Corridor, CorridorStart);
    if acts != [] {
      CorridorAllBlocked(acts[0]);
    }
    forall path ensures !Solves(Corridor, [Pos(1, 3)], CorridorStart, path) {
      if |path| == 0 {
        assert Pos(1, 3) !in CorridorStart.boxes;
      }
    }
  }
}
