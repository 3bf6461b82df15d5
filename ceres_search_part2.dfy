/**
 * Ceres search, part 2 (day 4). An X-MAS is a 3-by-3 window of the grid whose
 * two diagonals each read MAS, forwards or backwards. The program validates
 * the grid and counts the windows, by their top-left corner, that hold one.
 */
module CeresSearchPart2 {
  import opened Wrappers
  import opened Grids

  /** `usize::saturating_sub`. */
  function SaturatingSub(a: nat, b: nat): nat {
    if a >= b then a - b else 0
  }

  /**
   * The column of the `i`-th letter of a window's diagonal: down and right
   * from (row, col), or down and left from (row, col + 2).
   */
  function DiagonalCol(col: int, i: int, downRight: bool): int {
    if downRight then col + i else col + 2 - i
  }

  /** The three letters `check_mas_at_position` collects, top row first. */
  function Diagonal(g: Grid, row: nat, col: nat, downRight: bool): (w: string)
    requires Rectangular(g) && row + 2 < |g| && col + 2 < |g[0]|
    ensures |w| == 3
    ensures forall i | 0 <= i < 3 :: w[i] == g[row + i][DiagonalCol(col, i, downRight)]
  {
    seq(3, i requires 0 <= i < 3 => g[row + i][DiagonalCol(col, i, downRight)])
  }

  /** The comparison `word == "MAS" || word == "SAM"`, letter by letter. */
  predicate IsMas(w: string) {
    |w| == 3 && w[1] == 'A' && ((w[0] == 'M' && w[2] == 'S') || (w[0] == 'S' && w[2] == 'M'))
  }

  /** The letter-by-letter comparison is the comparison with the two words. */
  lemma IsMasMeans(w: string)
    ensures IsMas(w) <==> w == "MAS" || w == "SAM"
  {
    if IsMas(w) {
      if w[0] == 'M' {
        assert w == "MAS";
      } else {
        assert w == "SAM";
      }
    }
  }

  function Reverse(w: string): (r: string)
    ensures |r| == |w| && forall i | 0 <= i < |w| :: r[i] == w[|w| - 1 - i]
  {
    if w == [] then [] else Reverse(w[1..]) + [w[0]]
  }

  /** A word reads MAS forwards or backwards exactly when its reverse does. */
  lemma IsMasReverse(w: string)
    ensures IsMas(Reverse(w)) <==> IsMas(w)
  {
    var r := Reverse(w);
    if |w| == 3 {
      assert r[0] == w[2] && r[1] == w[1] && r[2] == w[0];
      if w == "MAS" {
        assert r == "SAM";
      } else if w == "SAM" {
        assert r == "MAS";
      }
      if r == "MAS" {
        assert w == "SAM";
      } else if r == "SAM" {
        assert w == "MAS";
      }
    }
  }

  /**
   * `check_mas_at_position`: false unless the window starting at (row, col)
   * lies inside the grid; otherwise whether the chosen diagonal reads MAS or
   * SAM.
   */
  predicate CheckMasAtPosition(g: Grid, row: nat, col: nat, downRight: bool)
    requires Rectangular(g)
  {
    if row + 2 >= |g| || col + 2 >= |g[0]| then false
    else IsMas(Diagonal(g, row, col, downRight))
  }

  /**
   * The check holds exactly when the window fits and the diagonal's three
   * cells hold M, A, S in one order or the other.
   */
  lemma CheckMasMeans(g: Grid, row: nat, col: nat, downRight: bool)
    requires Rectangular(g)
    ensures CheckMasAtPosition(g, row, col, downRight) <==>
      && row + 2 < |g| && col + 2 < |g[0]|
      && ((forall i | 0 <= i < 3 :: g[row + i][DiagonalCol(col, i, downRight)] == "MAS"[i])
          || (forall i | 0 <= i < 3 :: g[row + i][DiagonalCol(col, i, downRight)] == "SAM"[i]))
  {
    if row + 2 < |g| && col + 2 < |g[0]| {
      var w := Diagonal(g, row, col, downRight);
      if forall i | 0 <= i < 3 :: w[i] == "MAS"[i] {
        assert w == "MAS";
      }
      if forall i | 0 <= i < 3 :: w[i] == "SAM"[i] {
        assert w == "SAM";
      }
    }
  }

  /** Both diagonals of the window with top-left corner (row, col) read MAS or SAM. */
  predicate XMasAt(g: Grid, row: nat, col: nat)
    requires Rectangular(g)
  {
    CheckMasAtPosition(g, row, col, true) && CheckMasAtPosition(g, row, col, false)
  }

  /** Every X-MAS has an A in the centre of its window. */
  lemma XMasCentre(g: Grid, row: nat, col: nat)
    requires Rectangular(g) && XMasAt(g, row, col)
    ensures row + 2 < |g| && col + 2 < |g[0]| && g[row + 1][col + 1] == 'A'
  {
    var w := Diagonal(g, row, col, true);
    assert w[1] == g[row + 1][col + 1];
  }

  // ---------------------------------------------------------------- counting

  /** Every corner (row, col) of the grid whose window holds an X-MAS. */
  function XMasWindows(g: Grid): set<(int, int)>
    requires Rectangular(g)
  {
    set r: nat, c: nat | r < |g| && c < |g[0]| && XMasAt(g, r, c) :: (r, c)
  }

  lemma XMasWindowsMember(g: Grid, row: nat, col: nat)
    requires Rectangular(g)
    ensures (row, col) in XMasWindows(g) <==> row < |g| && col < |g[0]| && XMasAt(g, row, col)
  {
  }

  /** Every window lies inside the grid, so its corner is in a row and a column the loops visit. */
  lemma XMasWindowsBounds(g: Grid)
    requires Rectangular(g)
    ensures forall t | t in XMasWindows(g) :: 0 <= t.0 < SaturatingSub(|g|, 2) && 0 <= t.1 < SaturatingSub(|g[0]|, 2)
  {
    forall t | t in XMasWindows(g) ensures 0 <= t.0 < SaturatingSub(|g|, 2) && 0 <= t.1 < SaturatingSub(|g[0]|, 2) {
      XMasCentre(g, t.0, t.1);
    }
  }

  /** The members of `hits` in row `row` among the first `n` columns, counted column by column. */
  function RowCount(hits: set<(int, int)>, row: int, n: nat): (k: nat)
    ensures k <= n
  {
    if n == 0 then 0 else RowCount(hits, row, n - 1) + (if (row, n - 1) in hits then 1 else 0)
  }

  /** The members of `hits` in the first `m` rows and `n` columns, counted row by row. */
  function GridCount(hits: set<(int, int)>, m: nat, n: nat): (k: nat)
    ensures k <= m * n
  {
    if m == 0 then 0 else GridCount(hits, m - 1, n) + RowCount(hits, m - 1, n)
  }

  /**
   * `count_x_mas_patterns`: the corners visited are the rows below
   * `height - 2` and the columns below `width - 2`, both saturating at 0, in
   * row-major order; the count is that of the X-MAS windows among them.
   */
  method CountXMasPatterns(g: Grid) returns (count: nat)
    requires Rectangular(g)
    ensures count == GridCount(XMasWindows(g), SaturatingSub(|g|, 2), SaturatingSub(|g[0]|, 2))
  {
    var height := |g|;
    count := 0;
    var row := 0;
    while row < SaturatingSub(height, 2)
      invariant 0 <= row <= SaturatingSub(height, 2)
      invariant count == GridCount(XMasWindows(g), row, SaturatingSub(|g[0]|, 2))
    {
      var inRow := CountRow(g, row);
      RowXMasIsCount(g, row, SaturatingSub(|g[0]|, 2));
      count := count + inRow;
      row := row + 1;
    }
  }

  /** The X-MAS corners of row `row` among its first `n` columns, checked column by column. */
  function RowXMas(g: Grid, row: nat, n: nat): (k: nat)
    requires Rectangular(g)
    ensures k <= n
  {
    if n == 0 then 0 else RowXMas(g, row, n - 1) + if XMasAt(g, row, n - 1) then 1 else 0
  }

  /** The inner loop of `count_x_mas_patterns`: the corners of one row. */
  method CountRow(g: Grid, row: nat) returns (count: nat)
    requires Rectangular(g)
    ensures count == RowXMas(g, row, SaturatingSub(|g[0]|, 2))
  {
    var width := |g[0]|;
    count := 0;
    var col := 0;
    while col < SaturatingSub(width, 2)
      invariant 0 <= col <= SaturatingSub(width, 2)
      invariant count == RowXMas(g, row, col)
    {
      if CheckMasAtPosition(g, row, col, true) && CheckMasAtPosition(g, row, col, false) {
        count := count + 1;
      }
      col := col + 1;
    }
  }

  /** Checking the corners one by one counts the row's members of the set of X-MAS corners. */
  lemma {:induction false} RowXMasIsCount(g: Grid, row: nat, n: nat)
    requires Rectangular(g)
    ensures RowXMas(g, row, n) == RowCount(XMasWindows(g), row, n)
  {
    if n > 0 {
      RowXMasIsCount(g, row, n - 1);
      XMasWindowsMember(g, row, n - 1);
    }
  }

  function RowMembers(hits: set<(int, int)>, row: int, n: nat): set<(int, int)> {
    set t | t in hits && t.0 == row && 0 <= t.1 < n
  }

  function MembersAbove(hits: set<(int, int)>, m: nat): set<(int, int)> {
    set t | t in hits && 0 <= t.0 < m
  }

  lemma {:induction false} RowCountIsSize(hits: set<(int, int)>, row: int, n: nat)
    ensures |RowMembers(hits, row, n)| == RowCount(hits, row, n)
  {
    if n > 0 {
      RowCountIsSize(hits, row, n - 1);
      RowMembersStep(hits, row, n - 1);
    }
  }

  lemma RowMembersStep(hits: set<(int, int)>, row: int, n: nat)
    ensures |RowMembers(hits, row, n + 1)| == |RowMembers(hits, row, n)| + if (row, n) in hits then 1 else 0
  {
    if (row, n) in hits {
      assert RowMembers(hits, row, n + 1) == RowMembers(hits, row, n) + {(row, n)};
    } else {
      assert RowMembers(hits, row, n + 1) == RowMembers(hits, row, n);
    }
  }

  lemma {:induction false} GridCountIsSize(hits: set<(int, int)>, m: nat, n: nat)
    requires forall t | t in hits :: 0 <= t.1 < n
    ensures |MembersAbove(hits, m)| == GridCount(hits, m, n)
  {
    if m > 0 {
      GridCountIsSize(hits, m - 1, n);
      RowCountIsSize(hits, m - 1, n);
      assert MembersAbove(hits, m) == MembersAbove(hits, m - 1) + RowMembers(hits, m - 1, n);
      assert MembersAbove(hits, m - 1) !! RowMembers(hits, m - 1, n);
    }
  }

  /**
   * The count is the number of X-MAS windows anywhere in the grid: the loop's
   * row and column bounds miss none. There are at most (h - 2)(w - 2), none
   * at all on a grid with fewer than three rows or columns.
   */
  lemma CountIsWindows(g: Grid)
    requires Rectangular(g)
    ensures GridCount(XMasWindows(g), SaturatingSub(|g|, 2), SaturatingSub(|g[0]|, 2)) == |XMasWindows(g)|
    ensures |XMasWindows(g)| <= SaturatingSub(|g|, 2) * SaturatingSub(|g[0]|, 2)
    ensures |g| < 3 || |g[0]| < 3 ==> |XMasWindows(g)| == 0
  {
    var hits := XMasWindows(g);
    XMasWindowsBounds(g);
    GridCountIsSize(hits, SaturatingSub(|g|, 2), SaturatingSub(|g[0]|, 2));
    assert MembersAbove(hits, SaturatingSub(|g|, 2)) == hits;
  }

  /** `main` without the file: validation, then the number of X-MAS windows. */
  method Search(g: Grid) returns (r: Result<nat, string>)
    ensures r.Err? <==> !Rectangular(g)
    ensures g == [] ==> r == Err("error: empty grid")
    ensures g != [] && r.Err? ==> r == Err("error: inconsistent row lengths")
    ensures r.Ok? ==> Rectangular(g) && r.value == |XMasWindows(g)|
  {
    var valid := ValidateGrid(g);
    if valid.Err? {
      ErrorMessage(g, valid);
      return Err("error: " + valid.error);
    }
    var count := CountXMasPatterns(g);
    CountIsWindows(g);
    return Ok(count);
  }

  // ---------------------------------------------------------------- symmetry

  /** The grid upside down. */
  function FlipRows(g: Grid): (f: Grid)
    ensures |f| == |g| && forall r | 0 <= r < |g| :: f[r] == g[|g| - 1 - r]
  {
    seq(|g|, r requires 0 <= r < |g| => g[|g| - 1 - r])
  }

  /**
   * Upside down, a window's diagonal is the other diagonal of the mirrored
   * window, read backwards; since MAS and SAM both count, the window holds an
   * X-MAS exactly when its mirror does.
   */
  lemma FlipDiagonal(g: Grid, row: nat, col: nat, downRight: bool)
    requires Rectangular(g) && row + 2 < |g| && col + 2 < |g[0]|
    ensures Rectangular(FlipRows(g))
    ensures Diagonal(FlipRows(g), |g| - 3 - row, col, !downRight) == Reverse(Diagonal(g, row, col, downRight))
  {
    var f := FlipRows(g);
    var a := Diagonal(f, |g| - 3 - row, col, !downRight);
    var b := Reverse(Diagonal(g, row, col, downRight));
    forall i | 0 <= i < 3 ensures a[i] == b[i] {
      assert DiagonalCol(col, i, !downRight) == DiagonalCol(col, 2 - i, downRight);
      assert f[|g| - 3 - row + i] == g[row + 2 - i];
    }
  }

  lemma XMasFlip(g: Grid, row: nat, col: nat)
    requires Rectangular(g) && row + 2 < |g|
    ensures Rectangular(FlipRows(g))
    ensures XMasAt(FlipRows(g), |g| - 3 - row, col) <==> XMasAt(g, row, col)
  {
    if col + 2 < |g[0]| {
      FlipDiagonal(g, row, col, true);
      FlipDiagonal(g, row, col, false);
      IsMasReverse(Diagonal(g, row, col, true));
      IsMasReverse(Diagonal(g, row, col, false));
    }
  }

  /** A corner is an X-MAS corner of the upside-down grid exactly when its mirror is one of the grid. */
  lemma FlipMember(g: Grid, t: (int, int))
    requires Rectangular(g)
    ensures Rectangular(FlipRows(g))
    ensures t in XMasWindows(FlipRows(g)) <==> (|g| - 3 - t.0, t.1) in XMasWindows(g)
  {
    var f := FlipRows(g);
    var s := (|g| - 3 - t.0, t.1);
    if t in XMasWindows(f) {
      XMasCentre(f, t.0, t.1);
      XMasFlip(g, s.0, t.1);
      assert |g| - 3 - s.0 == t.0;
      XMasWindowsMember(g, s.0, s.1);
    }
    if s in XMasWindows(g) {
      XMasCentre(g, s.0, s.1);
      XMasFlip(g, s.0, s.1);
      XMasWindowsMember(f, t.0, t.1);
    }
  }

  /** Turning the grid upside down does not change the number of X-MAS windows. */
  lemma CountFlip(g: Grid)
    requires Rectangular(g)
    ensures Rectangular(FlipRows(g))
    ensures |XMasWindows(FlipRows(g))| == |XMasWindows(g)|
  {
    forall t ensures t in XMasWindows(FlipRows(g)) <==> (|g| - 3 - t.0, t.1) in XMasWindows(g) {
      FlipMember(g, t);
    }
    MirrorSize(XMasWindows(FlipRows(g)), XMasWindows(g), |g| - 3);
  }

  /** Two sets of cells that are mirror images in the first coordinate have the same size. */
  lemma MirrorSize(a: set<(int, int)>, b: set<(int, int)>, m: int)
    requires forall t :: t in a <==> (m - t.0, t.1) in b
    ensures |a| == |b|
  {
    forall t | t in a ensures t in Mirror(b, m) {
      assert t == (m - (m - t.0), t.1);
    }
    assert Mirror(b, m) == a;
    MirrorImageSize(b, m);
  }

  /** The cells of `s` with the first coordinate reflected about m / 2. */
  function Mirror(s: set<(int, int)>, m: int): set<(int, int)> {
    set t | t in s :: (m - t.0, t.1)
  }

  /** Mirroring the first coordinate keeps the size of a set of cells. */
  lemma {:induction false} MirrorImageSize(s: set<(int, int)>, m: int)
    ensures |Mirror(s, m)| == |s|
    decreases |s|
  {
    if s != {} {
      var x :| x in s;
      MirrorImageSize(s - {x}, m);
      MirrorRemove(s, x, m);
    }
  }

  lemma MirrorRemove(s: set<(int, int)>, x: (int, int), m: int)
    requires x in s
    ensures Mirror(s, m) == Mirror(s - {x}, m) + {(m - x.0, x.1)}
    ensures (m - x.0, x.1) !in Mirror(s - {x}, m)
  {
  }
}
