/**
 * Ceres search (day 4). Every occurrence of XMAS in a letter grid is found:
 * from every cell, in each of the eight directions, the four letters starting
 * there are read when they fit inside the grid. Each occurrence is reported
 * with its start cell and the name of its direction, in row-major order and
 * then in the order of the direction table.
 */
module CeresSearch {
  import opened Wrappers
  import opened Grids

  /** (row, column); both start at 0. */
  type Position = (int, int)

  /** (row step, column step). */
  type Direction = (int, int)

  /** The names of the directions; `NameText` gives the string the program prints for each. */
  datatype DirectionName = R | DR | D | DL | L | UL | U | UR

  function NameText(n: DirectionName): string {
    match n
    case R => "R"
    case DR => "DR"
    case D => "D"
    case DL => "DL"
    case L => "L"
    case UL => "UL"
    case U => "U"
    case UR => "UR"
  }

  /** A start cell and the name of the direction XMAS is read in. */
  type SearchResult = (Position, DirectionName)

  /** `get_search_directions`: clockwise from right. */
  const Directions: seq<(Direction, DirectionName)> := [
    ((0, 1), R), ((1, 1), DR), ((1, 0), D), ((1, -1), DL),
    ((0, -1), L), ((-1, -1), UL), ((-1, 0), U), ((-1, 1), UR)]

  /** Both steps are -1, 0 or 1. */
  predicate IsUnit(d: Direction) {
    -1 <= d.0 <= 1 && -1 <= d.1 <= 1
  }

  /** The position of a direction's name in the table. */
  function NameIndex(n: DirectionName): (k: nat)
    ensures k < 8
  {
    match n
    case R => 0
    case DR => 1
    case D => 2
    case DL => 3
    case L => 4
    case UL => 5
    case U => 6
    case UR => 7
  }

  /**
   * The table holds the eight nonzero unit steps, each once, under eight
   * different names.
   */
  lemma DirectionsMeans()
    ensures |Directions| == 8
    ensures forall k | 0 <= k < 8 :: IsUnit(Directions[k].0) && Directions[k].0 != (0, 0)
    ensures forall k | 0 <= k < 8 :: NameIndex(Directions[k].1) == k
    ensures forall k, l | 0 <= k < l < 8 :: Directions[k].0 != Directions[l].0 && Directions[k].1 != Directions[l].1
    ensures forall m, n :: NameText(m) == NameText(n) ==> m == n
    ensures forall d: Direction | IsUnit(d) && d != (0, 0) :: exists k | 0 <= k < 8 :: Directions[k].0 == d
  {
    forall d: Direction | IsUnit(d) && d != (0, 0) ensures exists k | 0 <= k < 8 :: Directions[k].0 == d {
      if d == (0, 1) { assert Directions[0].0 == d; }
      else if d == (1, 1) { assert Directions[1].0 == d; }
      else if d == (1, 0) { assert Directions[2].0 == d; }
      else if d == (1, -1) { assert Directions[3].0 == d; }
      else if d == (0, -1) { assert Directions[4].0 == d; }
      else if d == (-1, -1) { assert Directions[5].0 == d; }
      else if d == (-1, 0) { assert Directions[6].0 == d; }
      else { assert Directions[7].0 == d; }
    }
  }

  lemma DirectionIsUnit(k: nat)
    requires k < 8
    ensures IsUnit(Directions[k].0)
  {
    DirectionsMeans();
  }

  /** The `i`-th cell from `pos` in direction `dir`. */
  function Cell(pos: Position, dir: Direction, i: int): (int, int) {
    (pos.0 + dir.0 * i, pos.1 + dir.1 * i)
  }

  /** `cell` lies in a grid of `size` = (height, width). */
  predicate InRect(cell: (int, int), size: (nat, nat)) {
    0 <= cell.0 < size.0 && 0 <= cell.1 < size.1
  }

  /** `cell` indexes a character of `g`. */
  predicate InGrid(g: Grid, cell: (int, int)) {
    0 <= cell.0 < |g| && 0 <= cell.1 < |g[cell.0]|
  }

  function CharAt(g: Grid, cell: (int, int)): char
    requires InGrid(g, cell)
  {
    g[cell.0][cell.1]
  }

  /** `is_within_grid_bounds`: the last cell of the word lies in the grid. */
  predicate IsWithinGridBounds(pos: Position, dir: Direction, gridSize: (nat, nat), wordLen: int) {
    var endRow := pos.0 + dir.0 * (wordLen - 1);
    var endCol := pos.1 + dir.1 * (wordLen - 1);
    endRow >= 0 && endRow < gridSize.0 && endCol >= 0 && endCol < gridSize.1
  }

  /**
   * From a start inside the grid along a unit step, the last cell is inside
   * exactly when every cell of the word is.
   */
  lemma WithinBoundsMeans(pos: Position, dir: Direction, size: (nat, nat), len: int)
    requires InRect((pos.0, pos.1), size) && IsUnit(dir) && len >= 1
    ensures IsWithinGridBounds(pos, dir, size, len) <==> forall i | 0 <= i < len :: InRect(Cell(pos, dir, i), size)
  {
    if IsWithinGridBounds(pos, dir, size, len) {
      forall i | 0 <= i < len ensures InRect(Cell(pos, dir, i), size) {
        UnitStepBetween(pos.0, dir.0, i, len - 1);
        UnitStepBetween(pos.1, dir.1, i, len - 1);
      }
    } else {
      assert !InRect(Cell(pos, dir, len - 1), size);
    }
  }

  /** Along a unit step, the `i`-th value lies between the start and the `n`-th. */
  lemma UnitStepBetween(a: int, d: int, i: int, n: int)
    requires -1 <= d <= 1 && 0 <= i <= n
    ensures a <= a + d * i <= a + d * n || a + d * n <= a + d * i <= a
  {
    if d == 1 {
      assert d * i == i && d * n == n;
    } else if d == -1 {
      assert d * i == -i && d * n == -n;
    } else {
      assert d * i == 0 && d * n == 0;
    }
  }

  /** On a rectangular grid, the cells a bounds check admits can all be read. */
  lemma WithinBoundsReadable(g: Grid, pos: Position, dir: Direction, len: int)
    requires Rectangular(g) && 0 <= pos.0 < |g| && 0 <= pos.1 < |g[0]| && IsUnit(dir) && len >= 1
    requires IsWithinGridBounds(pos, dir, (|g|, |g[0]|), len)
    ensures forall i | 0 <= i < len :: InGrid(g, Cell(pos, dir, i))
  {
    WithinBoundsMeans(pos, dir, (|g|, |g[0]|), len);
    forall i | 0 <= i < len ensures InGrid(g, Cell(pos, dir, i)) {
      assert InRect(Cell(pos, dir, i), (|g|, |g[0]|));
    }
  }

  /** `extract_word`: the `length` characters from `start` in direction `dir`. */
  function ExtractWord(g: Grid, start: Position, dir: Direction, length: nat): (w: string)
    requires forall i | 0 <= i < length :: InGrid(g, Cell(start, dir, i))
    ensures |w| == length
    ensures forall i | 0 <= i < length :: w[i] == CharAt(g, Cell(start, dir, i))
    decreases length
  {
    if length == 0 then []
    else ExtractWord(g, start, dir, length - 1) + [CharAt(g, Cell(start, dir, length - 1))]
  }

  /** The word `find_all_xmas_instances` looks for. */
  const Word: string := "XMAS"

  /** XMAS fits and is spelt from (r, c) in the `k`-th direction of the table. */
  predicate XmasAt(g: Grid, r: nat, c: nat, k: nat)
    requires Rectangular(g) && r < |g| && c < |g[0]| && k < 8
  {
    var dir := Directions[k].0;
    DirectionIsUnit(k);
    && IsWithinGridBounds((r, c), dir, (|g|, |g[0]|), |Word|)
    && (WithinBoundsReadable(g, (r, c), dir, |Word|);
        ExtractWord(g, (r, c), dir, |Word|) == Word)
  }

  /** XMAS is found from (r, c) in direction `k` exactly when its four cells lie in the grid and hold X, M, A, S. */
  lemma XmasAtMeans(g: Grid, r: nat, c: nat, k: nat)
    requires Rectangular(g) && r < |g| && c < |g[0]| && k < 8
    ensures XmasAt(g, r, c, k) <==>
      forall i | 0 <= i < 4 :: InGrid(g, Cell((r, c), Directions[k].0, i)) && CharAt(g, Cell((r, c), Directions[k].0, i)) == "XMAS"[i]
    ensures XmasAt(g, r, c, k) ==> g[r][c] == 'X'
  {
    var dir := Directions[k].0;
    DirectionsMeans();
    WithinBoundsMeans((r, c), dir, (|g|, |g[0]|), 4);
    if forall i | 0 <= i < 4 :: InGrid(g, Cell((r, c), dir, i)) && CharAt(g, Cell((r, c), dir, i)) == "XMAS"[i] {
      forall i | 0 <= i < 4 ensures InRect(Cell((r, c), dir, i), (|g|, |g[0]|)) {
        assert InGrid(g, Cell((r, c), dir, i));
      }
      var w := ExtractWord(g, (r, c), dir, 4);
      assert w == "XMAS";
    }
    if XmasAt(g, r, c, k) {
      assert Cell((r, c), dir, 0) == (r, c);
    }
  }

  // ---------------------------------------------------------------- the search

  /** The place of a result in the search order: row, column, direction. */
  function Key(x: SearchResult): (int, int, int) {
    (x.0.0, x.0.1, NameIndex(x.1))
  }

  /** Lexicographic order on (row, column, direction). */
  predicate LexLess(a: (int, int, int), b: (int, int, int)) {
    a.0 < b.0 || (a.0 == b.0 && a.1 < b.1) || (a.0 == b.0 && a.1 == b.1 && a.2 < b.2)
  }

  /** The (row, column, direction) triples at which XMAS is found. */
  function Occurrences(g: Grid): set<(int, int, int)>
    requires Rectangular(g)
  {
    set r: nat, c: nat, k: nat | r < |g| && c < |g[0]| && k < 8 && XmasAt(g, r, c, k) :: (r, c, k)
  }

  lemma OccurrencesMeans(g: Grid, r: nat, c: nat, k: nat)
    requires Rectangular(g) && r < |g| && c < |g[0]| && k < 8
    ensures (r, c, k) in Occurrences(g) <==> XmasAt(g, r, c, k)
  {
  }

  /** Every result names an occurrence in `occ`. */
  predicate Sound(occ: set<(int, int, int)>, xs: seq<SearchResult>) {
    forall i | 0 <= i < |xs| :: Key(xs[i]) in occ
  }

  /** In row-major order of the start cells, then in table order of the directions. */
  predicate Ordered(xs: seq<SearchResult>) {
    forall i, j | 0 <= i < j < |xs| :: LexLess(Key(xs[i]), Key(xs[j]))
  }

  predicate AllBefore(xs: seq<SearchResult>, t: (int, int, int)) {
    forall i | 0 <= i < |xs| :: LexLess(Key(xs[i]), t)
  }

  /** Every occurrence in `occ` that comes before `t` in the search order is in `xs`. */
  ghost predicate CompleteBefore(occ: set<(int, int, int)>, xs: seq<SearchResult>, t: (int, int, int)) {
    forall r, c, n: DirectionName | (r, c, NameIndex(n)) in occ && LexLess((r, c, NameIndex(n)), t) ::
      ((r, c), n) in xs
  }

  /** Every occurrence in `occ` is in `xs`. */
  ghost predicate Complete(occ: set<(int, int, int)>, xs: seq<SearchResult>) {
    forall r, c, n: DirectionName | (r, c, NameIndex(n)) in occ :: ((r, c), n) in xs
  }

  /** What the search promises once it has visited everything before `t`. */
  ghost predicate SearchedUpTo(occ: set<(int, int, int)>, xs: seq<SearchResult>, t: (int, int, int)) {
    Sound(occ, xs) && Ordered(xs) && AllBefore(xs, t) && CompleteBefore(occ, xs, t)
  }

  /**
   * `find_all_xmas_instances`, on a grid `validate_grid` accepted: every
   * result is an occurrence of XMAS, with its start cell and the direction it
   * is spelt in; every occurrence is reported; and the results come in
   * row-major and then direction order, so none twice.
   */
  method FindAllXmasInstances(g: Grid) returns (found: seq<SearchResult>)
    requires Rectangular(g)
    ensures Sound(Occurrences(g), found)
    ensures Complete(Occurrences(g), found)
    ensures Ordered(found)
    ensures |found| <= 8 * |g| * |g[0]|
  {
    var height := |g|;
    found := [];
    var row := 0;
    while row < height
      invariant 0 <= row <= height
      invariant SearchedUpTo(Occurrences(g), found, (row, 0, 0))
      invariant |found| <= 8 * |g[0]| * row
    {
      found := SearchRow(g, row, found);
      row := row + 1;
    }
    SearchDone(g, found);
    assert 8 * |g[0]| * height == 8 * height * |g[0]|;
  }

  /** The middle loop of `find_all_xmas_instances`: every cell of one row. */
  method SearchRow(g: Grid, row: nat, found: seq<SearchResult>) returns (r: seq<SearchResult>)
    requires Rectangular(g) && row < |g|
    requires SearchedUpTo(Occurrences(g), found, (row, 0, 0))
    ensures SearchedUpTo(Occurrences(g), r, (row + 1, 0, 0))
    ensures |r| <= |found| + 8 * |g[0]|
  {
    var width := |g[0]|;
    r := found;
    var col := 0;
    while col < width
      invariant 0 <= col <= width
      invariant SearchedUpTo(Occurrences(g), r, (row, col, 0))
      invariant |r| <= |found| + 8 * col
    {
      r := SearchCell(g, row, col, r);
      col := col + 1;
    }
    RowDone(g, r, row);
  }

  /** The innermost loop of `find_all_xmas_instances`: the eight directions from one cell. */
  method SearchCell(g: Grid, row: nat, col: nat, found: seq<SearchResult>) returns (r: seq<SearchResult>)
    requires Rectangular(g) && row < |g| && col < |g[0]|
    requires SearchedUpTo(Occurrences(g), found, (row, col, 0))
    ensures SearchedUpTo(Occurrences(g), r, (row, col + 1, 0))
    ensures |r| <= |found| + 8
  {
    ghost var occ := Occurrences(g);
    r := found;
    var k := 0;
    while k < 8
      invariant 0 <= k <= 8
      invariant SearchedUpTo(occ, r, (row, col, k))
      invariant |r| <= |found| + k
    {
      var name := Directions[k].1;
      NameIndexOfEntry(k);
      var hit := CheckDirection(g, row, col, k);
      if hit {
        StepFound(occ, r, row, col, name);
        r := r + [((row, col), name)];
      } else {
        StepSkipped(occ, r, row, col, name);
      }
      k := k + 1;
    }
    CellDone(occ, r, row, col);
  }

  /** The test in the innermost loop: the word fits in the `k`-th direction and reads XMAS. */
  method CheckDirection(g: Grid, row: nat, col: nat, k: nat) returns (hit: bool)
    requires Rectangular(g) && row < |g| && col < |g[0]| && k < 8
    ensures hit <==> (row, col, k) in Occurrences(g)
  {
    var dir := Directions[k].0;
    DirectionIsUnit(k);
    OccurrencesMeans(g, row, col, k);
    hit := false;
    if IsWithinGridBounds((row, col), dir, (|g|, |g[0]|), |Word|) {
      WithinBoundsReadable(g, (row, col), dir, |Word|);
      var word := ExtractWord(g, (row, col), dir, |Word|);
      hit := word == Word;
    }
  }

  /** Reporting the occurrence at `t` keeps the search's promises, one place further on. */
  lemma StepFound(occ: set<(int, int, int)>, xs: seq<SearchResult>, row: int, col: int, n: DirectionName)
    requires SearchedUpTo(occ, xs, (row, col, NameIndex(n)))
    requires (row, col, NameIndex(n)) in occ
    ensures SearchedUpTo(occ, xs + [((row, col), n)], (row, col, NameIndex(n) + 1))
  {
    var ys := xs + [((row, col), n)];
    assert forall i | 0 <= i < |xs| :: ys[i] == xs[i];
    forall r, c, m: DirectionName | (r, c, NameIndex(m)) in occ && LexLess((r, c, NameIndex(m)), (row, col, NameIndex(n) + 1))
      ensures ((r, c), m) in ys
    {
      if (r, c, NameIndex(m)) == (row, col, NameIndex(n)) {
        NameIndexInjective(m, n);
        assert ys[|xs|] == ((r, c), m);
      } else {
        assert ((r, c), m) in xs;
      }
    }
  }

  /** Passing over a place that is not an occurrence keeps the search's promises. */
  lemma StepSkipped(occ: set<(int, int, int)>, xs: seq<SearchResult>, row: int, col: int, n: DirectionName)
    requires SearchedUpTo(occ, xs, (row, col, NameIndex(n)))
    requires (row, col, NameIndex(n)) !in occ
    ensures SearchedUpTo(occ, xs, (row, col, NameIndex(n) + 1))
  {
    forall r, c, m: DirectionName | (r, c, NameIndex(m)) in occ && LexLess((r, c, NameIndex(m)), (row, col, NameIndex(n) + 1))
      ensures ((r, c), m) in xs
    {
      if (r, c, NameIndex(m)) == (row, col, NameIndex(n)) {
        NameIndexInjective(m, n);
      }
    }
  }

  lemma NameIndexInjective(m: DirectionName, n: DirectionName)
    requires NameIndex(m) == NameIndex(n)
    ensures m == n
  {
  }

  lemma CellDone(occ: set<(int, int, int)>, xs: seq<SearchResult>, row: int, col: int)
    requires SearchedUpTo(occ, xs, (row, col, 8))
    ensures SearchedUpTo(occ, xs, (row, col + 1, 0))
  {
  }

  /** After the last column of a row the search goes on at the next row, which skips no occurrence. */
  lemma RowDone(g: Grid, xs: seq<SearchResult>, row: int)
    requires Rectangular(g)
    requires SearchedUpTo(Occurrences(g), xs, (row, |g[0]|, 0))
    ensures SearchedUpTo(Occurrences(g), xs, (row + 1, 0, 0))
  {
  }

  lemma SearchDone(g: Grid, xs: seq<SearchResult>)
    requires Rectangular(g)
    requires SearchedUpTo(Occurrences(g), xs, (|g|, 0, 0))
    ensures Complete(Occurrences(g), xs)
  {
  }

  lemma NameIndexOfEntry(k: nat)
    requires k < 8
    ensures NameIndex(Directions[k].1) == k
  {
    DirectionsMeans();
  }

  /** `main` without the file: validation, then the number of occurrences. */
  method Search(g: Grid) returns (r: Result<nat, string>)
    ensures r.Err? <==> !Rectangular(g)
    ensures g == [] ==> r == Err("error: empty grid")
    ensures g != [] && r.Err? ==> r == Err("error: inconsistent row lengths")
    ensures r.Ok? ==> Rectangular(g) && r.value == |Occurrences(g)| <= 8 * |g| * |g[0]|
  {
    var valid := ValidateGrid(g);
    if valid.Err? {
      ErrorMessage(g, valid);
      return Err("error: " + valid.error);
    }
    var results := FindAllXmasInstances(g);
    CountIsOccurrences(g, results);
    return Ok(|results|);
  }

  // ---------------------------------------------------------------- properties

  function Keys(xs: seq<SearchResult>): set<(int, int, int)> {
    set i | 0 <= i < |xs| :: Key(xs[i])
  }

  lemma {:induction false} OrderedKeysCount(xs: seq<SearchResult>)
    requires Ordered(xs)
    ensures |Keys(xs)| == |xs|
    decreases |xs|
  {
    if xs != [] {
      var init := xs[..|xs| - 1];
      assert Ordered(init);
      OrderedKeysCount(init);
      assert Keys(xs) == Keys(init) + {Key(xs[|xs| - 1])};
      assert Key(xs[|xs| - 1]) !in Keys(init);
    }
  }

  /**
   * A list found as `find_all_xmas_instances` promises has one entry for each
   * occurrence, so its length is the number of occurrences.
   */
  lemma CountIsOccurrences(g: Grid, xs: seq<SearchResult>)
    requires Rectangular(g)
    requires Sound(Occurrences(g), xs) && Complete(Occurrences(g), xs) && Ordered(xs)
    ensures |xs| == |Occurrences(g)|
  {
    OrderedKeysCount(xs);
    CompleteCoversOccurrences(g, xs);
    assert Keys(xs) == Occurrences(g);
  }

  lemma CompleteCoversOccurrences(g: Grid, xs: seq<SearchResult>)
    requires Rectangular(g) && Complete(Occurrences(g), xs)
    ensures Occurrences(g) <= Keys(xs)
  {
    var occ := Occurrences(g);
    forall t | t in occ ensures t in Keys(xs) {
      OccurrenceBounds(g, t);
      NameIndexOfEntry(t.2);
      var n := Directions[t.2].1;
      assert (t.0, t.1, NameIndex(n)) in occ;
      var i :| 0 <= i < |xs| && xs[i] == ((t.0, t.1), n);
      assert Key(xs[i]) == t;
    }
  }

  /** An occurrence names a cell of the grid and an entry of the direction table. */
  lemma OccurrenceBounds(g: Grid, t: (int, int, int))
    requires Rectangular(g) && t in Occurrences(g)
    ensures 0 <= t.0 < |g| && 0 <= t.1 < |g[0]| && 0 <= t.2 < 8
  {
  }

  /** Every reported start cell lies in the grid and holds X, and no result is reported twice. */
  lemma SoundResultsStartAtX(g: Grid, xs: seq<SearchResult>)
    requires Rectangular(g) && Sound(Occurrences(g), xs) && Ordered(xs)
    ensures forall i | 0 <= i < |xs| :: 0 <= xs[i].0.0 < |g| && 0 <= xs[i].0.1 < |g[0]| && g[xs[i].0.0][xs[i].0.1] == 'X'
    ensures forall i, j | 0 <= i < j < |xs| :: xs[i] != xs[j]
  {
    forall i | 0 <= i < |xs| ensures 0 <= xs[i].0.0 < |g| && 0 <= xs[i].0.1 < |g[0]| && g[xs[i].0.0][xs[i].0.1] == 'X' {
      var r: nat, c: nat, k: nat :| r < |g| && c < |g[0]| && k < 8 && XmasAt(g, r, c, k) && Key(xs[i]) == (r, c, k);
      XmasAtMeans(g, r, c, k);
    }
  }
}
