/** Character grids as the programs load them: one sequence of characters per input line. */
module Grids {
  import opened Wrappers

  type Grid = seq<seq<char>>

  /** At least one row, and every row as wide as the first. */
  predicate Rectangular(g: Grid) {
    g != [] && forall r | 0 <= r < |g| :: |g[r]| == |g[0]|
  }

  /**
   * `validate_grid`: an empty grid and a grid with rows of unequal length are
   * refused, with the message the program prints.
   */
  function ValidateGrid(g: Grid): (r: Result<(), string>)
    ensures r.Ok? <==> g != [] && forall i, j | 0 <= i < |g| && 0 <= j < |g| :: |g[i]| == |g[j]|
    ensures r.Ok? <==> Rectangular(g)
    ensures g == [] ==> r == Err("empty grid")
    ensures g != [] && r.Err? ==> r == Err("inconsistent row lengths")
  {
    if g == [] then Err("empty grid")
    else if !(forall r | 0 <= r < |g| :: |g[r]| == |g[0]|) then Err("inconsistent row lengths")
    else Ok(())
  }

  /** The two messages the day 4 programs print, after "error: ", for a grid `validate_grid` refuses. */
  lemma ErrorMessage(g: Grid, valid: Result<(), string>)
    requires valid == ValidateGrid(g) && valid.Err?
    ensures g == [] ==> "error: " + valid.error == "error: empty grid"
    ensures g != [] ==> "error: " + valid.error == "error: inconsistent row lengths"
  {
    if g == [] {
      assert valid.error == "empty grid";
    } else {
      assert valid.error == "inconsistent row lengths";
    }
  }

  /** The cells (i, j) with 0 <= i < a and 0 <= j < b. */
  function Rectangle(a: nat, b: nat): set<(int, int)> {
    set i, j | 0 <= i < a && 0 <= j < b :: (i, j)
  }

  function Row(i: int, b: nat): set<(int, int)> {
    set j | 0 <= j < b :: (i, j)
  }

  lemma {:induction false} RowSize(i: int, b: nat)
    ensures |Row(i, b)| == b
  {
    if b > 0 {
      assert Row(i, b) == Row(i, b - 1) + {(i, b - 1)};
      RowSize(i, b - 1);
    }
  }

  lemma RectangleSplit(a: nat, b: nat)
    ensures Rectangle(a + 1, b) == Rectangle(a, b) + Row(a, b)
    ensures Rectangle(a, b) !! Row(a, b)
  {
    forall c | c in Rectangle(a + 1, b) ensures c in Rectangle(a, b) + Row(a, b) {
      if c.0 < a {
        assert c in Rectangle(a, b);
      } else {
        assert c in Row(a, b);
      }
    }
  }

  /** An a-by-b rectangle has a * b cells. */
  lemma {:induction false} RectangleSize(a: nat, b: nat)
    ensures |Rectangle(a, b)| == a * b
  {
    if a == 0 {
      EmptyRectangle(b);
    } else {
      RectangleSplit(a - 1, b);
      RectangleSize(a - 1, b);
      RowSize(a - 1, b);
      DisjointUnionSize(Rectangle(a - 1, b), Row(a - 1, b));
      OneMoreRow(a, b);
    }
  }

  lemma EmptyRectangle(b: nat)
    ensures Rectangle(0, b) == {}
  {
  }

  lemma DisjointUnionSize<T>(s: set<T>, t: set<T>)
    requires s !! t
    ensures |s + t| == |s| + |t|
  {
  }

  lemma OneMoreRow(a: nat, b: nat)
    requires a > 0
    ensures (a - 1) * b + b == a * b
  {
  }

  /** A set of cells inside an a-by-b rectangle has at most a * b elements. */
  lemma InsideRectangle(cells: set<(int, int)>, a: nat, b: nat)
    requires forall c | c in cells :: 0 <= c.0 < a && 0 <= c.1 < b
    ensures |cells| <= a * b
  {
    assert cells <= Rectangle(a, b);
    RectangleSize(a, b);
    SubsetSize(cells, Rectangle(a, b));
  }

  lemma SubsetSize<T>(s: set<T>, t: set<T>)
    requires s <= t
    ensures |s| <= |t|
  {
    assert t == s + (t - s);
  }
}
