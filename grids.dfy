/** Rectangular boards of integer cells, shared by the game engine and the GUI board rules. */
module Grids {

  /** A board stored row by row: g[r][c] is the cell in row r, column c. */
  type Grid = seq<seq<int>>

  /** g has exactly `rows` rows, each of exactly `cols` cells. */
  predicate IsRect(g: Grid, rows: nat, cols: nat) {
    |g| == rows && forall r :: 0 <= r < |g| ==> |g[r]| == cols
  }

  predicate InBounds(g: Grid, r: int, c: int) {
    0 <= r < |g| && 0 <= c < |g[r]|
  }

  /** (r, c) is on the board and holds p. */
  predicate Owns(g: Grid, r: int, c: int, p: int) {
    InBounds(g, r, c) && g[r][c] == p
  }

  /** base + i * d for a unit step d in {-1, 0, 1}, written without a product. */
  function Along(base: int, d: int, i: int): int {
    if d == 0 then base else if d > 0 then base + i else base - i
  }

  /** Four consecutive cells from (r, c) in direction (dr, dc), all on the board and holding p. */
  predicate Window(g: Grid, r: int, c: int, dr: int, dc: int, p: int) {
    Owns(g, r, c, p) && Owns(g, r + dr, c + dc, p) && Owns(g, r + 2 * dr, c + 2 * dc, p)
      && Owns(g, r + 3 * dr, c + 3 * dc, p)
  }

  /**
    Gravity, with row 0 at the top: in every column, a cell that is not `empty` has only
    cells that are not `empty` below it.
  */
  predicate Settled(g: Grid, cols: nat, empty: int) {
    IsRect(g, |g|, cols)
    && forall r, r', c :: 0 <= r < r' < |g| && 0 <= c < cols && g[r][c] != empty ==> g[r'][c] != empty
  }

  /** A rows x cols board with every cell equal to v. */
  function Filled(rows: nat, cols: nat, v: int): (g: Grid)
    ensures IsRect(g, rows, cols)
    ensures forall r, c :: 0 <= r < rows && 0 <= c < cols ==> g[r][c] == v
  {
    seq(rows, _ => seq(cols, _ => v))
  }

  /** g with the single cell (r, c) replaced by v. */
  function SetCell(g: Grid, r: nat, c: nat, v: int): (h: Grid)
    requires r < |g| && c < |g[r]|
    ensures |h| == |g| && forall i :: 0 <= i < |g| ==> |h[i]| == |g[i]|
    ensures h[r][c] == v
    ensures forall i, j :: 0 <= i < |g| && 0 <= j < |g[i]| && (i != r || j != c) ==> h[i][j] == g[i][j]
  {
    g[r := g[r][c := v]]
  }

  /** The contents of a two-dimensional array, as a board value. */
  function ToGrid(a: array2<int>): (g: Grid)
    reads a
    ensures IsRect(g, a.Length0, a.Length1)
    ensures forall r, c :: 0 <= r < a.Length0 && 0 <= c < a.Length1 ==> g[r][c] == a[r, c]
  {
    seq(a.Length0, r requires 0 <= r < a.Length0 reads a =>
      seq(a.Length1, c requires 0 <= c < a.Length1 reads a => a[r, c]))
  }

  /** Two rectangular boards with the same cells are equal. */
  lemma GridExt(g: Grid, h: Grid, rows: nat, cols: nat)
    requires IsRect(g, rows, cols) && IsRect(h, rows, cols)
    requires forall r, c :: 0 <= r < rows && 0 <= c < cols ==> g[r][c] == h[r][c]
    ensures g == h
  {
    forall r | 0 <= r < rows ensures g[r] == h[r] {
      assert |g[r]| == |h[r]| == cols;
    }
  }

  /** Number of the first n cells of a row equal to v. */
  function CountIn(s: seq<int>, v: int, n: nat): (k: nat)
    requires n <= |s|
    ensures k <= n
  {
    if n == 0 then 0 else CountIn(s, v, n - 1) + (if s[n - 1] == v then 1 else 0)
  }

  /** Number of cells equal to v in the first n rows of a board. */
  function CountRows(g: Grid, v: int, n: nat): nat
    requires n <= |g|
  {
    if n == 0 then 0 else CountRows(g, v, n - 1) + CountIn(g[n - 1], v, |g[n - 1]|)
  }

  /** Number of cells of a board equal to v. */
  function Count(g: Grid, v: int): nat {
    CountRows(g, v, |g|)
  }

  lemma {:induction false} CountInConst(s: seq<int>, v: int, n: nat)
    requires n <= |s| && forall i :: 0 <= i < n ==> s[i] == v
    ensures CountIn(s, v, n) == n
  {
    if n > 0 {
      CountInConst(s, v, n - 1);
    }
  }

  lemma {:induction false} CountInPositive(s: seq<int>, c: nat, v: int, n: nat)
    requires c < n <= |s| && s[c] == v
    ensures CountIn(s, v, n) >= 1
  {
    if c < n - 1 {
      CountInPositive(s, c, v, n - 1);
    }
  }

  /** Overwriting one cell holding v by a different value removes exactly one v from the prefix holding it. */
  lemma {:induction false} CountInUpdate(s: seq<int>, c: nat, v: int, w: int, n: nat)
    requires c < |s| && s[c] == v && w != v && n <= |s|
    ensures CountIn(s[c := w], v, n) == CountIn(s, v, n) - (if c < n then 1 else 0)
  {
    if n > 0 {
      CountInUpdate(s, c, v, w, n - 1);
    }
  }

  lemma {:induction false} CountRowsFilled(g: Grid, cols: nat, v: int, n: nat)
    requires n <= |g| && IsRect(g, |g|, cols)
    requires forall r, c :: 0 <= r < |g| && 0 <= c < cols ==> g[r][c] == v
    ensures CountRows(g, v, n) == n * cols
  {
    if n > 0 {
      CountRowsFilled(g, cols, v, n - 1);
      CountInConst(g[n - 1], v, cols);
      assert (n - 1) * cols + cols == n * cols;
    }
  }

  lemma CountFilled(rows: nat, cols: nat, v: int)
    ensures Count(Filled(rows, cols, v), v) == rows * cols
  {
    CountRowsFilled(Filled(rows, cols, v), cols, v, rows);
  }

  lemma {:induction false} CountRowsPositive(g: Grid, r: nat, c: nat, v: int, n: nat)
    requires r < n <= |g| && c < |g[r]| && g[r][c] == v
    ensures CountRows(g, v, n) >= 1
  {
    if r < n - 1 {
      CountRowsPositive(g, r, c, v, n - 1);
    } else {
      CountInPositive(g[r], c, v, |g[r]|);
    }
  }

  /** A board with a cell equal to v counts at least one v. */
  lemma CountPositive(g: Grid, r: nat, c: nat, v: int)
    requires r < |g| && c < |g[r]| && g[r][c] == v
    ensures Count(g, v) >= 1
  {
    CountRowsPositive(g, r, c, v, |g|);
  }

  lemma {:induction false} CountRowsSetCell(g: Grid, r: nat, c: nat, v: int, w: int, n: nat)
    requires r < |g| && c < |g[r]| && g[r][c] == v && w != v && n <= |g|
    ensures CountRows(SetCell(g, r, c, w), v, n) == CountRows(g, v, n) - (if r < n then 1 else 0)
  {
    if n > 0 {
      CountRowsSetCell(g, r, c, v, w, n - 1);
      var h := SetCell(g, r, c, w);
      if n - 1 == r {
        assert h[r] == g[r][c := w];
        CountInUpdate(g[r], c, v, w, |g[r]|);
      } else {
        assert h[n - 1] == g[n - 1];
      }
    }
  }

  /** Overwriting one cell holding v by a different value removes exactly one v from the board. */
  lemma CountSetCell(g: Grid, r: nat, c: nat, v: int, w: int)
    requires r < |g| && c < |g[r]| && g[r][c] == v && w != v
    ensures Count(SetCell(g, r, c, w), v) == Count(g, v) - 1
  {
    CountRowsSetCell(g, r, c, v, w, |g|);
  }
}
