/**
 * The board generator object: its child squares (the transform children, in sibling
 * order) and the `boardSquares` grid that indexes them by (row, col).
 *
 * A grid cell holds the position of a child in `children`, standing for the reference to
 * that child's object; `None` is an empty (null) cell and a null grid is `null`.
 */
module BoardGenerator {
  import opened Wrappers
  import opened CSharp
  import opened BoardNumbering

  /** The `SquareData` component: number, row and column. */
  datatype SquareData = SquareData(squareNumber: int, row: int, col: int)

  /** A child object of the board: its name and its `SquareData`, if it has one. */
  datatype Square = Square(name: string, data: Option<SquareData>)

  /** Where `GetSquarePosition` takes its answer from: nowhere (`Vector3.zero`) or a child. */
  datatype Position = Zero | PositionOf(child: nat)

  /** The object `CreateSquare` makes for square `number` at cell `c`. */
  function CreateSquare(number: int, c: Cell): Square {
    Square(SquareName(number), Some(SquareData(number, c.row, c.col)))
  }

  /** Square n as the generation loop creates it. */
  function GeneratedSquare(n: int, size: int): Square
    requires ValidSize(size)
  {
    CreateSquare(n, CellOf(n, size))
  }

  /** The children of a freshly generated board, in creation order. */
  function GeneratedChildren(size: int): (children: seq<Square>)
    requires ValidSize(size)
    ensures |children| == size * size
    ensures forall k :: 0 <= k < |children| ==> children[k] == GeneratedSquare(k + 1, size)
  {
    seq(size * size, k requires 0 <= k < size * size => GeneratedSquare(k + 1, size))
  }

  ghost predicate IsGeneratedChildren(children: seq<Square>, size: int)
    requires ValidSize(size)
  {
    children == GeneratedChildren(size)
  }

  /**
   * The cell `RebuildBoardArray` files a child under: the one its `SquareData` names,
   * else the cell of the number in its `Square_N` name, else (-1, -1).
   */
  function Location(sq: Square, size: int): Cell
    requires ValidSize(size)
  {
    match sq.data
    case Some(d) => Cell(d.row, d.col)
    case None =>
      match ParseSquareName(sq.name)
      case Some(n) => CellOf(n, size)
      case None => Cell(-1, -1)
  }

  /** A child located by its name lands on the board exactly when it names a square 1..size*size. */
  lemma NameLocationInBounds(sq: Square, size: int, n: int)
    requires ValidSize(size) && sq.data.None? && ParseSquareName(sq.name) == Some(n)
    ensures InBounds(Location(sq, size), size) <==> 1 <= n <= size * size
  {
    CellOfInBoundsIff(n, size);
  }

  /**
   * A created square is filed under the cell it was created for, needs no fix, and its
   * name reads back as its number.
   */
  lemma CreateSquareReadsBack(number: int, c: Cell, size: int)
    requires ValidSize(size)
    ensures Location(CreateSquare(number, c), size) == c && !NeedsFix(CreateSquare(number, c))
    ensures 0 <= number <= Int32Max ==> ParseSquareName(CreateSquare(number, c).name) == Some(number)
  {
    if 0 <= number <= Int32Max {
      SquareNameRoundTrip(number);
    }
  }

  /** The cells the children are filed under, in sibling order. */
  function Locations(children: seq<Square>, size: int): (locs: seq<Cell>)
    requires ValidSize(size)
    ensures |locs| == |children|
    ensures forall k :: 0 <= k < |children| ==> locs[k] == Location(children[k], size)
  {
    seq(|children|, k requires 0 <= k < |children| => Location(children[k], size))
  }

  /** The last position filed under cell c: later children overwrite earlier ones. */
  function LastAt(locs: seq<Cell>, c: Cell): (r: Option<nat>)
    ensures r.Some? ==> r.value < |locs| && locs[r.value] == c
    ensures r.Some? ==> forall k :: r.value < k < |locs| ==> locs[k] != c
    ensures r.None? ==> forall k :: 0 <= k < |locs| ==> locs[k] != c
  {
    if |locs| == 0 then None
    else if locs[|locs| - 1] == c then Some(|locs| - 1)
    else LastAt(locs[..|locs| - 1], c)
  }

  /** How many of the cells are on the board: the `squaresFound` count. */
  function PlacedCount(locs: seq<Cell>, size: int): (count: nat)
    ensures count <= |locs|
  {
    if |locs| == 0 then 0
    else PlacedCount(locs[..|locs| - 1], size) + (if InBounds(locs[|locs| - 1], size) then 1 else 0)
  }

  /** A child that `FixMissingScripts` repairs: no `SquareData`, and a name that parses. */
  predicate NeedsFix(sq: Square) {
    sq.data.None? && ParseSquareName(sq.name).Some?
  }

  /** The child after `FixMissingScripts`: `SquareData` from its name, with no bounds check. */
  function Fixed(sq: Square, size: int): (r: Square)
    requires ValidSize(size)
    ensures r.name == sq.name && r.data.Some? == (sq.data.Some? || NeedsFix(sq))
    ensures sq.data.Some? ==> r == sq
  {
    if NeedsFix(sq) then
      var n := ParseSquareName(sq.name).value;
      var c := CellOf(n, size);
      sq.(data := Some(SquareData(n, c.row, c.col)))
    else sq
  }

  function FixCount(children: seq<Square>): (count: nat)
    ensures count <= |children|
  {
    if |children| == 0 then 0
    else FixCount(children[..|children| - 1]) + (if NeedsFix(children[|children| - 1]) then 1 else 0)
  }

  /** The position of the first child with the given name (`Transform.Find`), from index i. */
  function FindFrom(children: seq<Square>, name: string, i: nat): (r: Option<nat>)
    requires i <= |children|
    ensures r.Some? ==> i <= r.value < |children| && children[r.value].name == name
    ensures r.Some? ==> forall k :: i <= k < r.value ==> children[k].name != name
    ensures r.None? ==> forall k :: i <= k < |children| ==> children[k].name != name
    decreases |children| - i
  {
    if i == |children| then None
    else if children[i].name == name then Some(i)
    else FindFrom(children, name, i + 1)
  }

  /** Fixing a child never moves it: the added data names the cell its name already gave. */
  lemma FixedKeepsLocation(sq: Square, size: int)
    requires ValidSize(size)
    ensures Location(Fixed(sq, size), size) == Location(sq, size)
  {
  }

  /** Rebuilding after a fix files every child where rebuilding before it would have. */
  lemma FixingPreservesLocations(children: seq<Square>, fixed: seq<Square>, size: int)
    requires ValidSize(size) && |fixed| == |children|
    requires forall k :: 0 <= k < |children| ==> fixed[k] == Fixed(children[k], size)
    ensures Locations(fixed, size) == Locations(children, size)
  {
    forall k | 0 <= k < |children|
      ensures Locations(fixed, size)[k] == Locations(children, size)[k]
    {
      FixedKeepsLocation(children[k], size);
    }
  }

  /** A list with nothing to fix is left as it is. */
  lemma {:induction false} NothingToFix(children: seq<Square>, size: int)
    requires ValidSize(size) && FixCount(children) == 0
    ensures forall k :: 0 <= k < |children| ==> Fixed(children[k], size) == children[k]
  {
    if |children| > 0 {
      var n := |children| - 1;
      NothingToFix(children[..n], size);
      assert forall k :: 0 <= k < n ==> children[..n][k] == children[k];
    }
  }

  /** When every cell is on the board, every child is counted. */
  lemma {:induction false} PlacedCountAllInBounds(locs: seq<Cell>, size: int)
    requires forall k :: 0 <= k < |locs| ==> InBounds(locs[k], size)
    ensures PlacedCount(locs, size) == |locs|
  {
    if |locs| > 0 {
      var n := |locs| - 1;
      assert forall k :: 0 <= k < n ==> locs[..n][k] == locs[k];
      PlacedCountAllInBounds(locs[..n], size);
    }
  }

  lemma GeneratedLocation(children: seq<Square>, size: int, k: int)
    requires ValidSize(size) && IsGeneratedChildren(children, size) && 0 <= k < |children|
    ensures Locations(children, size)[k] == CellOf(k + 1, size)
  {
  }

  /** On a generated board, the last child filed under cell c is the one numbered for c. */
  lemma GeneratedLastAt(children: seq<Square>, size: int, c: Cell)
    requires ValidSize(size) && IsGeneratedChildren(children, size) && InBounds(c, size)
    ensures LastAt(Locations(children, size), c) == Some(NumberAt(c, size) - 1)
  {
    var locs := Locations(children, size);
    var n := NumberAt(c, size);
    CellOfNumberAt(c, size);
    GeneratedLocation(children, size, n - 1);
    var r := LastAt(locs, c);
    assert r.Some?;
    if r.value != n - 1 {
      GeneratedLocation(children, size, r.value);
      NumberAtCellOf(r.value + 1, size);
    }
  }

  /** On a generated board every child is filed under a cell of the board. */
  lemma GeneratedAllPlaced(children: seq<Square>, size: int)
    requires ValidSize(size) && IsGeneratedChildren(children, size)
    ensures PlacedCount(Locations(children, size), size) == size * size
  {
    var locs := Locations(children, size);
    SquaresFitInt32(size);
    forall k | 0 <= k < |locs|
      ensures InBounds(locs[k], size)
    {
      assert locs[k] == Location(GeneratedSquare(k + 1, size), size);
      CellOfInBoundsIff(k + 1, size);
    }
    PlacedCountAllInBounds(locs, size);
  }

  /**
   * Rebuilding the grid from the children of a generated board restores the grid the
   * generation loop wrote, and finds every square.
   */
  lemma RebuildRestoresGenerated(children: seq<Square>, size: int)
    requires ValidSize(size) && IsGeneratedChildren(children, size)
    ensures forall c :: InBounds(c, size) ==> LastAt(Locations(children, size), c) == Some(NumberAt(c, size) - 1)
    ensures PlacedCount(Locations(children, size), size) == size * size
  {
    forall c | InBounds(c, size)
      ensures LastAt(Locations(children, size), c) == Some(NumberAt(c, size) - 1)
    {
      GeneratedLastAt(children, size, c);
    }
    GeneratedAllPlaced(children, size);
  }

  class SnakeLadderBoardGenerator {
    const boardSize: int
    const totalSquares: int
    var children: seq<Square>
    var boardSquares: array2?<Option<nat>>

    ghost predicate Valid()
      reads this, boardSquares
    {
      ValidSize(boardSize) && totalSquares == 100
      && (boardSquares != null ==>
            boardSquares.Length0 == boardSize && boardSquares.Length1 == boardSize
            && forall r, c :: 0 <= r < boardSize && 0 <= c < boardSize && boardSquares[r, c].Some?
                 ==> boardSquares[r, c].value < |children|)
    }

    /** The state `GenerateBoard` leaves: 1..size*size in zigzag order, grid and children. */
    ghost predicate HoldsGeneratedBoard()
      reads this, boardSquares
    {
      Valid() && boardSquares != null && IsGeneratedChildren(children, boardSize)
      && forall r, c :: 0 <= r < boardSize && 0 <= c < boardSize
           ==> boardSquares[r, c] == Some(NumberAt(Cell(r, c), boardSize) - 1)
    }

    /** A generator of the given side over an existing scene, with no grid yet. */
    constructor (size: int, existing: seq<Square>)
      requires ValidSize(size)
      ensures Valid() && boardSize == size && totalSquares == 100
      ensures children == existing && boardSquares == null
    {
      boardSize := size;
      totalSquares := 100;
      children := existing;
      boardSquares := null;
    }

    /** Destroys every child and drops the grid. */
    method ClearBoard()
      requires Valid()
      modifies this
      ensures Valid() && children == [] && boardSquares == null
    {
      children := [];
      boardSquares := null;
    }

    /**
     * Clears the board, then numbers the cells row by row with a running counter,
     * reversing the column order on odd rows.
     */
    method GenerateBoard()
      requires Valid()
      modifies this
      ensures HoldsGeneratedBoard() && fresh(boardSquares)
    {
      ClearBoard();
      var grid := new Option<nat>[boardSize, boardSize]((r, c) => None);
      boardSquares := grid;
      var currentNumber := 1;
      var row := 0;
      while row < boardSize
        invariant 0 <= row <= boardSize && boardSquares == grid
        invariant currentNumber == row * boardSize + 1 && currentNumber - 1 <= boardSize * boardSize
        invariant children == GeneratedChildren(boardSize)[..currentNumber - 1]
        invariant forall r, c :: 0 <= r < boardSize && 0 <= c < boardSize
                    ==> grid[r, c] == if r < row then Some(NumberAt(Cell(r, c), boardSize) - 1) else None
      {
        MulMonotone(row + 1, boardSize, boardSize);
        currentNumber := GenerateRow(grid, row, currentNumber);
        assert currentNumber == (row + 1) * boardSize + 1;
        row := row + 1;
      }
      assert children == GeneratedChildren(boardSize);
      forall r, c | 0 <= r < boardSize && 0 <= c < boardSize
        ensures NumberAt(Cell(r, c), boardSize) - 1 < |children|
      {
        NumberAtInRange(Cell(r, c), boardSize);
      }
    }

    /** The inner loop of `GenerateBoard`: creates the squares of one row. */
    method GenerateRow(grid: array2<Option<nat>>, row: int, start: int) returns (currentNumber: int)
      requires ValidSize(boardSize) && grid.Length0 == boardSize && grid.Length1 == boardSize
      requires 0 <= row < boardSize && start == row * boardSize + 1
      requires start + boardSize - 1 <= boardSize * boardSize
      requires children == GeneratedChildren(boardSize)[..start - 1]
      requires forall r, c :: 0 <= r < boardSize && 0 <= c < boardSize
                 ==> grid[r, c] == if r < row then Some(NumberAt(Cell(r, c), boardSize) - 1) else None
      modifies this, grid
      ensures currentNumber == start + boardSize
      ensures boardSquares == old(boardSquares)
      ensures children == GeneratedChildren(boardSize)[..currentNumber - 1]
      ensures forall r, c :: 0 <= r < boardSize && 0 <= c < boardSize
                ==> grid[r, c] == if r <= row then Some(NumberAt(Cell(r, c), boardSize) - 1) else None
    {
      currentNumber := start;
      var col := 0;
      while col < boardSize
        invariant 0 <= col <= boardSize && boardSquares == old(boardSquares)
        invariant currentNumber == start + col
        invariant children == GeneratedChildren(boardSize)[..currentNumber - 1]
        invariant forall r, c :: 0 <= r < boardSize && 0 <= c < boardSize
                    ==> grid[r, c] == if Filled(r, c, row, col) then Some(NumberAt(Cell(r, c), boardSize) - 1) else None
      {
        GenerateSquare(grid, row, col, currentNumber);
        currentNumber := currentNumber + 1;
        col := col + 1;
      }
    }

    /** One step of the inner loop: creates square `currentNumber` and files it in the grid. */
    method GenerateSquare(grid: array2<Option<nat>>, row: int, col: int, currentNumber: int)
      requires ValidSize(boardSize) && grid.Length0 == boardSize && grid.Length1 == boardSize
      requires 0 <= row < boardSize && 0 <= col < boardSize && currentNumber == row * boardSize + col + 1
      requires currentNumber <= boardSize * boardSize
      requires children == GeneratedChildren(boardSize)[..currentNumber - 1]
      requires forall r, c :: 0 <= r < boardSize && 0 <= c < boardSize
                 ==> grid[r, c] == if Filled(r, c, row, col) then Some(NumberAt(Cell(r, c), boardSize) - 1) else None
      modifies this, grid
      ensures boardSquares == old(boardSquares)
      ensures children == GeneratedChildren(boardSize)[..currentNumber]
      ensures forall r, c :: 0 <= r < boardSize && 0 <= c < boardSize
                ==> grid[r, c] == if Filled(r, c, row, col + 1) then Some(NumberAt(Cell(r, c), boardSize) - 1) else None
    {
      var isEvenRow := row % 2 == 0;
      var actualCol := if isEvenRow then col else boardSize - 1 - col;
      assert NumberAt(Cell(row, actualCol), boardSize) == currentNumber;
      CellOfNumberAt(Cell(row, actualCol), boardSize);
      var square := CreateSquare(currentNumber, Cell(row, actualCol));
      ghost var all := GeneratedChildren(boardSize);
      assert all[..currentNumber] == all[..currentNumber - 1] + [square];
      children := children + [square];
      grid[row, actualCol] := Some(|children| - 1);
    }

    /** Cells of rows before `row`, and the first `col` cells visited in row `row`. */
    ghost predicate Filled(r: int, c: int, row: int, col: int) {
      r < row || (r == row && if row % 2 == 0 then c < col else c >= boardSize - col)
    }

    /** Where `RebuildBoardArray` puts a child: its data's cell, else its name's, else (-1, -1). */
    method ReadLocation(square: Square) returns (row: int, col: int)
      requires ValidSize(boardSize)
      ensures Cell(row, col) == Location(square, boardSize)
    {
      row, col := -1, -1;
      if square.data.Some? {
        row, col := square.data.value.row, square.data.value.col;
      } else {
        var parsed := ParseSquareName(square.name);
        if parsed.Some? {
          var cell := CellOf(parsed.value, boardSize);
          row, col := cell.row, cell.col;
        }
      }
    }

    /**
     * A fresh grid; each child is filed under its cell when that cell is on the board, a
     * later child overwriting an earlier one; the children found on the board are counted.
     */
    method RebuildBoardArray() returns (squaresFound: int)
      requires Valid()
      modifies this
      ensures Valid() && children == old(children) && boardSquares != null && fresh(boardSquares)
      ensures forall r, c :: 0 <= r < boardSize && 0 <= c < boardSize
                ==> boardSquares[r, c] == LastAt(Locations(children, boardSize), Cell(r, c))
      ensures squaresFound == PlacedCount(Locations(children, boardSize), boardSize)
    {
      var grid := new Option<nat>[boardSize, boardSize]((r, c) => None);
      boardSquares := grid;
      squaresFound := 0;
      var i := 0;
      while i < |children|
        invariant 0 <= i <= |children|
        invariant forall r, c :: 0 <= r < boardSize && 0 <= c < boardSize
                    ==> grid[r, c] == LastAt(Locations(children, boardSize)[..i], Cell(r, c))
        invariant squaresFound == PlacedCount(Locations(children, boardSize)[..i], boardSize)
        modifies grid
      {
        var row, col := ReadLocation(children[i]);
        ghost var locs := Locations(children, boardSize);
        assert locs[..i + 1][..i] == locs[..i];
        if row >= 0 && row < boardSize && col >= 0 && col < boardSize {
          grid[row, col] := Some(i);
          squaresFound := squaresFound + 1;
        }
        i := i + 1;
      }
      assert Locations(children, boardSize)[..i] == Locations(children, boardSize);
    }

    /**
     * The body of `FixMissingScripts`' loop: a child without `SquareData` whose name parses
     * gets one, with the cell its number gives.
     */
    method FixSquare(square: Square) returns (fixedSquare: Square, needed: bool)
      requires ValidSize(boardSize)
      ensures needed == NeedsFix(square) && fixedSquare == Fixed(square, boardSize)
    {
      fixedSquare, needed := square, false;
      if square.data.None? {
        var parsed := ParseSquareName(square.name);
        if parsed.Some? {
          var squareNumber := parsed.value;
          var cell := CellOf(squareNumber, boardSize);
          fixedSquare, needed := square.(data := Some(SquareData(squareNumber, cell.row, cell.col))), true;
        }
      }
    }

    /**
     * Gives every child that lacks `SquareData` but has a parsable `Square_N` name the
     * data for square N, then rebuilds the grid if it fixed anything.
     */
    method FixMissingScripts() returns (fixedCount: int)
      requires Valid()
      modifies this
      ensures Valid() && |children| == |old(children)|
      ensures forall k :: 0 <= k < |children| ==> children[k] == Fixed(old(children)[k], boardSize)
      ensures fixedCount == FixCount(old(children))
      ensures fixedCount == 0 ==> children == old(children) && boardSquares == old(boardSquares)
      ensures fixedCount > 0 ==> boardSquares != null && fresh(boardSquares)
      ensures fixedCount > 0 ==>
                forall r, c :: 0 <= r < boardSize && 0 <= c < boardSize
                  ==> boardSquares[r, c] == LastAt(Locations(old(children), boardSize), Cell(r, c))
    {
      fixedCount := 0;
      var i := 0;
      while i < |children|
        invariant 0 <= i <= |children| == |old(children)|
        invariant forall k :: 0 <= k < i ==> children[k] == Fixed(old(children)[k], boardSize)
        invariant forall k :: i <= k < |children| ==> children[k] == old(children)[k]
        invariant fixedCount == FixCount(old(children)[..i])
        modifies this`children
      {
        assert old(children)[..i + 1][..i] == old(children)[..i];
        var fixedSquare, needed := FixSquare(children[i]);
        if needed {
          children := children[i := fixedSquare];
          fixedCount := fixedCount + 1;
        }
        i := i + 1;
      }
      assert old(children)[..i] == old(children);
      if fixedCount > 0 {
        var found := RebuildBoardArray();
        FixingPreservesLocations(old(children), children, boardSize);
      } else {
        NothingToFix(old(children), boardSize);
      }
    }

    /**
     * The answer to `IsBoardGenerated`: a grid exists, or at least 100 children exist and
     * the grid is rebuilt from them.
     */
    method IsBoardGenerated() returns (generated: bool)
      requires Valid()
      modifies this
      ensures Valid() && children == old(children)
      ensures generated <==> old(boardSquares) != null || |children| >= 100
      ensures old(boardSquares) != null || |children| < 100 ==> boardSquares == old(boardSquares)
      ensures generated ==> boardSquares != null
    {
      if boardSquares != null && boardSquares.Length0 > 0 && boardSquares.Length1 > 0 {
        return true;
      }
      if |children| >= 100 {
        var found := RebuildBoardArray();
        return boardSquares != null && boardSquares.Length0 > 0 && boardSquares.Length1 > 0;
      }
      return false;
    }

    /** The grid slot `GetSquare` reads for square n, if its cell is inside the grid. */
    function Slot(n: int): (s: Option<nat>)
      requires Valid()
      reads this, boardSquares
      ensures s.Some? ==> s.value < |children|
      ensures s.Some? ==> 1 <= n <= totalSquares && boardSquares != null
    {
      if n < 1 || n > totalSquares then None
      else
        var cell := CellOf(n, boardSize);
        if boardSquares != null && cell.row < boardSize && cell.col < boardSize then
          boardSquares[cell.row, cell.col]
        else None
    }

    /** On a generated board the slot of square n is the child created for n. */
    lemma SlotOfGenerated(n: int)
      requires Valid()
      ensures (HoldsGeneratedBoard() && 1 <= n <= totalSquares) ==>
                (Slot(n).Some? <==> n <= boardSize * boardSize)
                && (Slot(n).Some? ==> Slot(n).value == n - 1)
    {
      if HoldsGeneratedBoard() && 1 <= n <= totalSquares {
        CellOfInBoundsIff(n, boardSize);
        if n <= boardSize * boardSize {
          NumberAtCellOf(n, boardSize);
        }
      }
    }

    /** The object for square n, or null outside 1..100 or when its cell is empty. */
    function GetSquare(n: int): (r: Option<Square>)
      requires Valid()
      reads this, boardSquares
      ensures n < 1 || n > totalSquares || boardSquares == null ==> r.None?
      ensures (HoldsGeneratedBoard() && 1 <= n <= totalSquares) ==>
                (r.Some? <==> n <= boardSize * boardSize)
                && (r.Some? ==> r.value == GeneratedSquare(n, boardSize))
    {
      SlotOfGenerated(n);
      match Slot(n)
      case Some(k) => Some(children[k])
      case None => None
    }

    /**
     * The lookup `GetSquarePosition` does once the board answers as generated: the grid
     * slot, else the first child named `Square_n`, else `Vector3.zero`.
     */
    function PositionLookup(n: int): (p: Position)
      requires Valid()
      reads this, boardSquares
      ensures n < 1 || n > totalSquares ==> p == Zero
      ensures p.PositionOf? ==> p.child < |children|
      ensures p.PositionOf? && Slot(n).None? ==> children[p.child].name == SquareName(n)
      ensures p == Zero && 1 <= n <= totalSquares ==> Slot(n).None? && forall k :: 0 <= k < |children| ==> children[k].name != SquareName(n)
      ensures (HoldsGeneratedBoard() && 1 <= n <= totalSquares && n <= boardSize * boardSize) ==>
                p == PositionOf(n - 1)
    {
      if n < 1 || n > totalSquares then Zero
      else if Slot(n).Some? then PositionOf(Slot(n).value)
      else
        SlotOfGenerated(n);
        match FindFrom(children, SquareName(n), 0)
        case Some(k) => PositionOf(k)
        case None => Zero
    }

    /** `GetSquarePosition`: asks whether the board is generated, then looks the square up. */
    method GetSquarePosition(n: int) returns (p: Position)
      requires Valid()
      modifies this
      ensures Valid() && children == old(children)
      ensures !(old(boardSquares) != null || |children| >= 100) ==> p == Zero
      ensures old(boardSquares) != null || |children| >= 100 ==> p == PositionLookup(n)
    {
      var generated := IsBoardGenerated();
      if !generated {
        return Zero;
      }
      p := PositionLookup(n);
    }
  }
}
