/**
 * The integer part of the board generator: the zigzag (boustrophedon) numbering of a
 * square board and the `Square_N` names its children carry.
 *
 * Square n sits on row (n-1)/size; even rows run left to right and odd rows right to
 * left. The generator writes that layout with a running counter, and four different
 * places read it back with the same arithmetic; `CellOf` is that arithmetic, written
 * with C#'s 32-bit `int` and its truncating `/` and `%`.
 */
module BoardNumbering {
  import opened Wrappers
  import opened CSharp

  /** The largest side for which side * side fits in an `int`: 46340 * 46340 < 2^31. */
  const MaxBoardSize: int := 46340

  predicate ValidSize(size: int) {
    0 < size <= MaxBoardSize
  }

  datatype Cell = Cell(row: int, col: int)

  predicate InBounds(c: Cell, size: int) {
    0 <= c.row < size && 0 <= c.col < size
  }

  /** True when the two cells are horizontal neighbours or the second is straight above. */
  predicate Adjacent(a: Cell, b: Cell) {
    (a.row == b.row && (b.col == a.col + 1 || b.col == a.col - 1))
    || (b.row == a.row + 1 && b.col == a.col)
  }

  /**
   * The cell the source computes for square number n: `row = (n - 1) / size`,
   * `col = (n - 1) % size`, and `col = size - 1 - col` when `row % 2 != 0`.
   * `n - 1` wraps for n = int.MinValue, which only a parsed name can supply.
   */
  function CellOf(n: int, size: int): Cell
    requires ValidSize(size)
  {
    var m := Wrap32(n - 1);
    var row := Quot(m, size);
    var col := Rem(m, size);
    if Rem(row, 2) != 0 then Cell(row, size - 1 - col) else Cell(row, col)
  }

  /**
   * The number the generation loop writes into an in-bounds cell: rows are filled in
   * order, and within an odd row the counter runs from the right-hand end.
   */
  function NumberAt(c: Cell, size: int): int {
    c.row * size + (if c.row % 2 == 0 then c.col else size - 1 - c.col) + 1
  }

  lemma DivBelowSize(m: int, size: int)
    requires size > 0 && 0 <= m < size * size
    ensures 0 <= m / size < size
  {
    if m / size >= size {
      MulMonotone(size, m / size, size);
    }
  }

  lemma DivAtLeastSize(m: int, size: int)
    requires size > 0 && m >= size * size
    ensures m / size >= size
  {
    if m / size < size {
      MulMonotone(m / size, size - 1, size);
    }
  }

  /** Every square number of a board fits in an `int`. */
  lemma SquaresFitInt32(size: int)
    requires ValidSize(size)
    ensures size * size <= Int32Max
  {
    MulMonotone(size, MaxBoardSize, size);
    MulMonotone(size, MaxBoardSize, MaxBoardSize);
  }

  /** The number of an in-bounds cell is a square of the board. */
  lemma NumberAtInRange(c: Cell, size: int)
    requires ValidSize(size) && InBounds(c, size)
    ensures 1 <= NumberAt(c, size) <= size * size
  {
    MulMonotone(c.row, size - 1, size);
    assert (size - 1) * size == size * size - size;
  }

  /** For squares 1..size*size the arithmetic is plain non-negative division. */
  lemma CellOfInRange(n: int, size: int)
    requires ValidSize(size) && 1 <= n <= size * size
    ensures CellOf(n, size).row == (n - 1) / size
    ensures CellOf(n, size).col
            == if ((n - 1) / size) % 2 == 0 then (n - 1) % size else size - 1 - (n - 1) % size
  {
    MulMonotone(size, MaxBoardSize, size);
    MulMonotone(size, MaxBoardSize, MaxBoardSize);
    assert IsInt32(n - 1);
    DivBelowSize(n - 1, size);
  }

  /**
   * The bounds check of `RebuildBoardArray` accepts the cell of an `int` exactly when
   * it numbers a square of the board: 1 <= n <= size * size.
   */
  lemma CellOfInBoundsIff(n: int, size: int)
    requires ValidSize(size) && IsInt32(n)
    ensures InBounds(CellOf(n, size), size) <==> 1 <= n <= size * size
  {
    MulMonotone(size, MaxBoardSize, size);
    MulMonotone(size, MaxBoardSize, MaxBoardSize);
    if 1 <= n <= size * size {
      CellOfInRange(n, size);
      DivBelowSize(n - 1, size);
    } else if n > size * size {
      assert Wrap32(n - 1) == n - 1;
      DivAtLeastSize(n - 1, size);
    } else if n == Int32Min {
      assert Wrap32(n - 1) == Int32Max;
      MulMonotone(size, MaxBoardSize, MaxBoardSize + 1);
      DivAtLeastSize(Int32Max, size);
    } else {
      var m := n - 1;
      assert Wrap32(m) == m && m < 0;
      var row := Quot(m, size);
      if row == 0 {
        assert Rem(m, size) == m;
      }
    }
  }

  /** Reading back: the cell of square n carries the number n. */
  lemma NumberAtCellOf(n: int, size: int)
    requires ValidSize(size) && 1 <= n <= size * size
    ensures NumberAt(CellOf(n, size), size) == n
  {
    CellOfInRange(n, size);
    DivBelowSize(n - 1, size);
    assert n - 1 == ((n - 1) / size) * size + (n - 1) % size;
  }

  /** The cell of square n, given the quotient and remainder of n - 1 by the side. */
  lemma CellOfDecomposed(n: int, size: int, q: int, t: int)
    requires ValidSize(size) && 1 <= n <= size * size
    requires 0 <= t < size && n - 1 == q * size + t
    ensures CellOf(n, size) == Cell(q, if q % 2 == 0 then t else size - 1 - t)
  {
    CellOfInRange(n, size);
    DivModUnique(n - 1, size, q, t);
  }

  /** Writing then reading: an in-bounds cell is the cell of the number it carries. */
  lemma CellOfNumberAt(c: Cell, size: int)
    requires ValidSize(size) && InBounds(c, size)
    ensures 1 <= NumberAt(c, size) <= size * size
    ensures CellOf(NumberAt(c, size), size) == c
  {
    var q := c.row;
    var t := if q % 2 == 0 then c.col else size - 1 - c.col;
    var n := NumberAt(c, size);
    assert n - 1 == q * size + t;
    MulMonotone(q, size - 1, size);
    assert (size - 1) * size == size * size - size;
    assert 1 <= n <= size * size;
    CellOfDecomposed(n, size, q, t);
  }

  /** Numbering is injective over the squares of the board. */
  lemma CellOfInjective(n1: int, n2: int, size: int)
    requires ValidSize(size) && 1 <= n1 <= size * size && 1 <= n2 <= size * size
    requires CellOf(n1, size) == CellOf(n2, size)
    ensures n1 == n2
  {
    NumberAtCellOf(n1, size);
    NumberAtCellOf(n2, size);
  }

  /** Consecutive squares occupy neighbouring cells: the zigzag never jumps. */
  lemma ConsecutiveAdjacent(n: int, size: int)
    requires ValidSize(size) && 1 <= n < size * size
    ensures Adjacent(CellOf(n, size), CellOf(n + 1, size))
  {
    var q, t := (n - 1) / size, (n - 1) % size;
    assert n - 1 == q * size + t;
    if t < size - 1 {
      StepWithinRow(n, size, q, t);
    } else {
      StepToNextRow(n, size, q);
    }
  }

  lemma StepWithinRow(n: int, size: int, q: int, t: int)
    requires ValidSize(size) && 1 <= n < size * size
    requires 0 <= t < size - 1 && n - 1 == q * size + t
    ensures Adjacent(CellOf(n, size), CellOf(n + 1, size))
  {
    CellOfDecomposed(n, size, q, t);
    CellOfDecomposed(n + 1, size, q, t + 1);
  }

  lemma StepToNextRow(n: int, size: int, q: int)
    requires ValidSize(size) && 1 <= n < size * size
    requires n - 1 == q * size + (size - 1)
    ensures Adjacent(CellOf(n, size), CellOf(n + 1, size))
  {
    CellOfDecomposed(n, size, q, size - 1);
    assert n == (q + 1) * size + 0;
    CellOfDecomposed(n + 1, size, q + 1, 0);
    assert (q % 2 == 0) == ((q + 1) % 2 != 0);
  }

  const SquarePrefix: string := "Square_"

  /** The name `CreateSquare` gives square n: `$"Square_{number}"`. */
  function SquareName(n: int): (s: string)
    ensures |s| > |SquarePrefix| && s[..|SquarePrefix|] == SquarePrefix
  {
    SquarePrefix + IntToString(n)
  }

  /**
   * The name parsing of `RebuildBoardArray` and `FixMissingScripts`: the name must start
   * with `Square_`, and the rest must parse as an `int`.
   */
  function ParseSquareName(s: string): (r: Option<int>)
    ensures r.Some? ==> |s| > |SquarePrefix| && s[..|SquarePrefix|] == SquarePrefix
    ensures r.Some? ==> r == TryParseInt32(s[|SquarePrefix|..]) && IsInt32(r.value)
  {
    if |s| >= |SquarePrefix| && s[..|SquarePrefix|] == SquarePrefix then
      TryParseInt32(s[|SquarePrefix|..])
    else
      None
  }

  /** A generated name parses back to its number. */
  lemma SquareNameRoundTrip(n: int)
    requires 0 <= n <= Int32Max
    ensures ParseSquareName(SquareName(n)) == Some(n)
  {
    var s := SquareName(n);
    assert s[|SquarePrefix|..] == NatToString(n);
    NatToStringRoundTrip(n);
  }
}
