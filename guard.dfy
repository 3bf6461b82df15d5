/**
 * Guard patrol (day 6). A guard starts on the first '^' of the map facing up.
 * At every step it looks at the next cell in its heading: off the map, the
 * patrol ends; on an obstruction '#', it turns right where it stands;
 * otherwise it moves there and the cell is recorded as visited. The answer is
 * the number of distinct visited cells, the start included.
 */
module Guard {
  import opened Wrappers
  import opened Grids
  import Text

  datatype Direction = Up | Right | Down | Left

  /** A cell address: column `x`, row `y` (rows grow downwards). */
  datatype Pos = Pos(x: int, y: int)

  /** The guard's state between two steps. */
  datatype State = State(pos: Pos, dir: Direction)

  /** `Pos::next`: the neighbouring cell in heading `d`. */
  function Next(p: Pos, d: Direction): (r: Pos)
    ensures Text.Abs(r.x - p.x) + Text.Abs(r.y - p.y) == 1
    ensures d == Up || d == Down <==> r.x == p.x
    ensures r.x - p.x == (if d == Right then 1 else if d == Left then -1 else 0)
    ensures r.y - p.y == (if d == Down then 1 else if d == Up then -1 else 0)
  {
    match d
    case Up => Pos(p.x, p.y - 1)
    case Right => Pos(p.x + 1, p.y)
    case Down => Pos(p.x, p.y + 1)
    case Left => Pos(p.x - 1, p.y)
  }

  /** `Direction::turn_right`: a quarter turn clockwise. */
  function TurnRight(d: Direction): (r: Direction)
    ensures r != d
    ensures forall p :: Next(p, r).x - p.x == -(Next(p, d).y - p.y)
    ensures forall p :: Next(p, r).y - p.y == Next(p, d).x - p.x
  {
    match d
    case Up => Right
    case Right => Down
    case Down => Left
    case Left => Up
  }

  /** Four right turns face the guard the way it started. */
  lemma FourTurns(d: Direction)
    ensures TurnRight(TurnRight(TurnRight(TurnRight(d)))) == d
    ensures TurnRight(TurnRight(d)) != d
  {
  }

  /** Turning round and stepping back undoes a step. */
  lemma {:induction false} TurnAroundReturns(p: Pos, d: Direction)
    ensures Next(Next(p, d), TurnRight(TurnRight(d))) == p
  {
    var q := Next(p, d);
    var back := TurnRight(TurnRight(d));
    assert Next(q, back).x - q.x == -(Next(q, d).x - q.x);
    assert Next(q, back).y - q.y == -(Next(q, d).y - q.y);
  }

  /** `p` is the first '^' of the map in row-major order. */
  predicate IsStart(g: Grid, p: Pos) {
    && 0 <= p.y < |g| && 0 <= p.x < |g[p.y]| && g[p.y][p.x] == '^'
    && forall y, x | 0 <= y < |g| && 0 <= x < |g[y]| && (y < p.y || (y == p.y && x < p.x)) :: g[y][x] != '^'
  }

  predicate NoStart(g: Grid) {
    forall y, x | 0 <= y < |g| && 0 <= x < |g[y]| :: g[y][x] != '^'
  }

  /** A map has at most one first '^'. */
  lemma StartUnique(g: Grid, p: Pos, q: Pos)
    requires IsStart(g, p) && IsStart(g, q)
    ensures p == q
  {
  }

  /** `Grid::find_start`; `None` stands for the panic on a map without a '^'. */
  method FindStart(g: Grid) returns (r: Option<Pos>)
    ensures r.None? <==> NoStart(g)
    ensures r.Some? ==> IsStart(g, r.value)
  {
    var y := 0;
    while y < |g|
      invariant 0 <= y <= |g|
      invariant forall y', x' | 0 <= y' < y && 0 <= x' < |g[y']| :: g[y'][x'] != '^'
    {
      var x := 0;
      while x < |g[y]|
        invariant 0 <= x <= |g[y]|
        invariant forall x' | 0 <= x' < x :: g[y][x'] != '^'
      {
        if g[y][x] == '^' {
          return Some(Pos(x, y));
        }
        x := x + 1;
      }
      y := y + 1;
    }
    return None;
  }

  /** `Grid::is_valid`: inside the rows, and inside the width of the first row. */
  predicate IsValid(g: Grid, p: Pos)
    requires g != []
  {
    0 <= p.y < |g| && 0 <= p.x < |g[0]|
  }

  /** `Grid::is_blocked`. */
  predicate IsBlocked(g: Grid, p: Pos)
    requires Rectangular(g) && IsValid(g, p)
  {
    g[p.y][p.x] == '#'
  }

  /** On a rectangular map, `is_valid` is exactly "some cell of the map". */
  lemma IsValidIsInBounds(g: Grid, p: Pos)
    requires Rectangular(g)
    ensures IsValid(g, p) <==> 0 <= p.y < |g| && 0 <= p.x < |g[p.y]|
  {
  }

  /**
   * One iteration of the patrol loop: `None` when the next cell is off the map
   * (the loop breaks), else the state after turning or moving.
   */
  function Step(g: Grid, s: State): (r: Option<State>)
    requires Rectangular(g) && IsValid(g, s.pos)
    ensures r.None? <==> !IsValid(g, Next(s.pos, s.dir))
    ensures r.Some? ==> IsValid(g, r.value.pos)
    ensures r.Some? ==>
      || (r.value.pos == s.pos && r.value.dir == TurnRight(s.dir) && g[r.value.pos.y][r.value.pos.x] == g[s.pos.y][s.pos.x])
      || (r.value.pos == Next(s.pos, s.dir) && r.value.dir == s.dir && g[r.value.pos.y][r.value.pos.x] != '#')
    ensures r.Some? ==> (IsBlocked(g, Next(s.pos, s.dir)) <==> r.value.pos == s.pos)
  {
    var n := Next(s.pos, s.dir);
    if !IsValid(g, n) then None
    else if IsBlocked(g, n) then Some(State(s.pos, TurnRight(s.dir)))
    else Some(State(n, s.dir))
  }

  /** The patrol from `s` leaves the map within `k` steps. */
  predicate ExitsWithin(g: Grid, s: State, k: nat)
    requires Rectangular(g) && IsValid(g, s.pos)
    decreases k
  {
    match Step(g, s)
    case None => true
    case Some(t) => k > 0 && ExitsWithin(g, t, k - 1)
  }

  /** The cells the guard moves into on the patrol from `s`, as (x, y) pairs. */
  function Visited(g: Grid, s: State, k: nat): (cells: set<(int, int)>)
    requires Rectangular(g) && IsValid(g, s.pos) && ExitsWithin(g, s, k)
    ensures forall c | c in cells :: 0 <= c.1 < |g| && 0 <= c.0 < |g[0]| && g[c.1][c.0] != '#'
    decreases k
  {
    match Step(g, s)
    case None => {}
    case Some(t) =>
      if t.pos == s.pos then Visited(g, t, k - 1)
      else {(t.pos.x, t.pos.y)} + Visited(g, t, k - 1)
  }

  /** The answer of the patrol from the start `p`: the visited cells, the start included. */
  function PatrolCells(g: Grid, p: Pos, k: nat): set<(int, int)>
    requires Rectangular(g) && IsValid(g, p) && ExitsWithin(g, State(p, Up), k)
  {
    {(p.x, p.y)} + Visited(g, State(p, Up), k)
  }

  /**
   * `Grid::count_visited_positions`. The source loops until the guard leaves
   * the map; `fuel` is a ghost bound on the number of steps that takes, and the
   * precondition says the patrol does leave. `None` is the panic of `find_start`.
   */
  method CountVisitedPositions(g: Grid, ghost fuel: nat) returns (r: Option<nat>)
    requires forall p | IsStart(g, p) :: Rectangular(g) && ExitsWithin(g, State(p, Up), fuel)
    ensures r.None? <==> NoStart(g)
    ensures forall p | IsStart(g, p) :: r == Some(|PatrolCells(g, p, fuel)|)
  {
    var start := FindStart(g);
    if start.None? {
      return None;
    }
    ghost var p := start.value;
    var pos := start.value;
    var dir := Up;
    var visited := {(pos.x, pos.y)};
    ghost var k := fuel;
    while true
      invariant IsValid(g, pos) && ExitsWithin(g, State(pos, dir), k)
      invariant (pos.x, pos.y) in visited
      invariant visited + Visited(g, State(pos, dir), k) == PatrolCells(g, p, fuel)
      decreases k
    {
      var next := Next(pos, dir);
      if !IsValid(g, next) {
        break;
      }
      if IsBlocked(g, next) {
        dir := TurnRight(dir);
      } else {
        pos := next;
        visited := visited + {(pos.x, pos.y)};
      }
      k := k - 1;
    }
    forall q | IsStart(g, q) ensures q == p {
      StartUnique(g, p, q);
    }
    return Some(|visited|);
  }

  /** One step of the patrol, read backwards: what is known of `t` carries over to `s`. */
  lemma StepBack(g: Grid, s: State, t: State, k: nat)
    requires Rectangular(g) && IsValid(g, s.pos) && k > 0
    requires Step(g, s) == Some(t) && ExitsWithin(g, t, k - 1)
    ensures ExitsWithin(g, s, k)
    ensures Visited(g, s, k) == (if t.pos == s.pos then {} else {(t.pos.x, t.pos.y)}) + Visited(g, t, k - 1)
  {
  }

  /**
   * Every cell the patrol counts is on the map and free of obstructions, and
   * the count is between 1 and the number of cells of the map.
   */
  lemma PatrolBounds(g: Grid, p: Pos, k: nat)
    requires Rectangular(g) && IsStart(g, p) && ExitsWithin(g, State(p, Up), k)
    ensures forall c | c in PatrolCells(g, p, k) :: 0 <= c.1 < |g| && 0 <= c.0 < |g[0]| && g[c.1][c.0] != '#'
    ensures 1 <= |PatrolCells(g, p, k)| <= |g| * |g[0]|
  {
    var cells := PatrolCells(g, p, k);
    assert (p.x, p.y) in cells;
    InsideRectangle(cells, |g[0]|, |g|);
    assert |g[0]| * |g| == |g| * |g[0]|;
  }
}
