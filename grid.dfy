/** Sums over the 64 squares in the order of the evaluators' nested loops:
    rows 0 to 7, and within a row columns 0 to 7. `GridSum(f, n)` is the
    total of the first `n` rows, `RowSum(f, r, n)` that of the first `n`
    squares of row `r`. */
module Grid {
  import opened ChessLib

  function RowSum(f: (Coord, Coord) -> int, r: Coord, n: nat): int
    requires n <= 8
  {
    if n == 0 then 0 else RowSum(f, r, n - 1) + f(r, n - 1)
  }

  function GridSum(f: (Coord, Coord) -> int, n: nat): int
    requires n <= 8
  {
    if n == 0 then 0 else GridSum(f, n - 1) + RowSum(f, n - 1, 8)
  }

  function RowSumReal(f: (Coord, Coord) -> real, r: Coord, n: nat): real
    requires n <= 8
  {
    if n == 0 then 0.0 else RowSumReal(f, r, n - 1) + f(r, n - 1)
  }

  function GridSumReal(f: (Coord, Coord) -> real, n: nat): real
    requires n <= 8
  {
    if n == 0 then 0.0 else GridSumReal(f, n - 1) + RowSumReal(f, n - 1, 8)
  }

  /** Summands that agree on every square give the same total. */
  lemma {:induction false} GridSumExt(f: (Coord, Coord) -> int, g: (Coord, Coord) -> int, n: nat)
    requires n <= 8
    requires forall i: Coord, j: Coord :: f(i, j) == g(i, j)
    ensures GridSum(f, n) == GridSum(g, n)
  {
    if n > 0 {
      GridSumExt(f, g, n - 1);
      RowSumExt(f, g, n - 1, 8);
    }
  }

  lemma {:induction false} RowSumExt(f: (Coord, Coord) -> int, g: (Coord, Coord) -> int, r: Coord, n: nat)
    requires n <= 8
    requires forall j: Coord :: f(r, j) == g(r, j)
    ensures RowSum(f, r, n) == RowSum(g, r, n)
  {
    if n > 0 {
      RowSumExt(f, g, r, n - 1);
    }
  }

  /** Reading the rows in reverse order with every term negated: the
      first n rows of g sum to minus the last n rows of f, so over the
      whole board g's total is minus f's. */
  lemma {:induction false} GridSumMirrorNeg(f: (Coord, Coord) -> int, g: (Coord, Coord) -> int, n: nat)
    requires n <= 8
    requires forall i: Coord, j: Coord :: g(i, j) == -f(7 - i, j)
    ensures GridSum(g, n) == GridSum(f, 8 - n) - GridSum(f, 8)
  {
    if n > 0 {
      GridSumMirrorNeg(f, g, n - 1);
      RowSumMirrorNeg(f, g, n - 1, 8);
      assert GridSum(f, 9 - n) == GridSum(f, 8 - n) + RowSum(f, 8 - n, 8);
    }
  }

  lemma {:induction false} RowSumMirrorNeg(f: (Coord, Coord) -> int, g: (Coord, Coord) -> int, r: Coord, n: nat)
    requires n <= 8
    requires forall j: Coord :: g(r, j) == -f(7 - r, j)
    ensures RowSum(g, r, n) == -RowSum(f, 7 - r, n)
  {
    if n > 0 {
      RowSumMirrorNeg(f, g, r, n - 1);
    }
  }

  /** Terms between lo and hi on every square give a total of the first n
      rows between n times 8 lo and n times 8 hi. */
  lemma GridSumBounded(f: (Coord, Coord) -> int, lo: int, hi: int, n: nat)
    requires n <= 8
    requires forall i: Coord, j: Coord :: lo <= f(i, j) <= hi
    ensures n * (8 * lo) <= GridSum(f, n) <= n * (8 * hi)
  {
    forall r: Coord
      ensures 8 * lo <= RowSum(f, r, 8) <= 8 * hi
    {
      RowSumBounded(f, lo, hi, r, 8);
    }
    GridSumRowsBounded(f, 8 * lo, 8 * hi, n);
  }

  lemma {:induction false} GridSumRowsBounded(f: (Coord, Coord) -> int, rowLo: int, rowHi: int, n: nat)
    requires n <= 8
    requires forall r: Coord :: rowLo <= RowSum(f, r, 8) <= rowHi
    ensures n * rowLo <= GridSum(f, n) <= n * rowHi
  {
    if n > 0 {
      GridSumRowsBounded(f, rowLo, rowHi, n - 1);
      assert n * rowLo == (n - 1) * rowLo + rowLo && n * rowHi == (n - 1) * rowHi + rowHi;
    }
  }

  lemma {:induction false} RowSumBounded(f: (Coord, Coord) -> int, lo: int, hi: int, r: Coord, n: nat)
    requires n <= 8
    requires forall j: Coord :: lo <= f(r, j) <= hi
    ensures n * lo <= RowSum(f, r, n) <= n * hi
  {
    if n > 0 {
      RowSumBounded(f, lo, hi, r, n - 1);
      assert n * lo == (n - 1) * lo + lo;
      assert n * hi == (n - 1) * hi + hi;
    }
  }
}
