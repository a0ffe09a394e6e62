/**
 * The integer part of a piece's movement: a busy flag, a target clamped to square 100,
 * a loop that advances one square per step, and a direct placement.
 *
 * The board is seen through `BoardView`: whether it answers `IsBoardGenerated` with
 * true, and which squares `GetSquarePosition` answers with a position other than
 * `Vector3.zero` (the value the loop treats as "no such square"). Movement runs to
 * completion inside the call that starts it.
 */
module Movement {
  import opened Wrappers
  import opened CSharp

  datatype BoardView = BoardView(generated: bool, positioned: set<int>)

  /** The last square of the board, hard-coded in the mover. */
  const LastSquare: int := 100

  /** `currentSquare + steps` in 32-bit arithmetic, then clamped to at most 100. */
  function Target(current: int, steps: int): (t: int)
    ensures t <= LastSquare
    ensures IsInt32(current + steps) && current + steps <= LastSquare ==> t == current + steps
    ensures IsInt32(current + steps) && current + steps >= LastSquare ==> t == LastSquare
  {
    var t := Wrap32(current + steps);
    if t > LastSquare then LastSquare else t
  }

  /**
   * Where the stepping loop ends, started on `from` with target `target`: it stops at
   * the target, or as soon as the current or the next square has no position.
   */
  function Reached(view: BoardView, from: int, target: int): (r: int)
    ensures from <= r
    ensures from < target ==> r <= target
    ensures from >= target ==> r == from
    decreases target - from
  {
    if from >= target then from
    else if from !in view.positioned || from + 1 !in view.positioned then from
    else Reached(view, from + 1, target)
  }

  /** With every square of the path positioned, the loop reaches the target. */
  lemma {:induction false} ReachedFullPath(view: BoardView, from: int, target: int)
    requires from <= target
    requires forall s :: from <= s <= target ==> s in view.positioned
    ensures Reached(view, from, target) == target
    decreases target - from
  {
    if from < target {
      ReachedFullPath(view, from + 1, target);
    }
  }

  /** Every square the piece passes through, up to where it stops, has a position. */
  lemma {:induction false} ReachedPathPositioned(view: BoardView, from: int, target: int, s: int)
    requires from <= s <= Reached(view, from, target) && from < Reached(view, from, target)
    ensures s in view.positioned
    decreases target - from
  {
    if s > from && from + 1 < Reached(view, from, target) {
      ReachedPathPositioned(view, from + 1, target, s);
    }
  }

  /** Stopping short of the target happens only at a gap: the loop's early `break`. */
  lemma {:induction false} ReachedStopsAtGap(view: BoardView, from: int, target: int)
    requires Reached(view, from, target) < target
    ensures var r := Reached(view, from, target); r !in view.positioned || r + 1 !in view.positioned
    decreases target - from
  {
    if from in view.positioned && from + 1 in view.positioned {
      ReachedStopsAtGap(view, from + 1, target);
    }
  }

  /**
   * On a board that positions every square 1..100, a move of `steps` from a square of the
   * board ends on `min(from + steps, 100)`, and a move of no steps or fewer stays (for
   * sums that fit in an `int`: a sum past `int.MaxValue` wraps to a negative target).
   */
  lemma MoveOnFullBoard(view: BoardView, from: int, steps: int)
    requires forall s :: 1 <= s <= LastSquare ==> s in view.positioned
    requires 1 <= from <= LastSquare && IsInt32(from + steps)
    ensures Reached(view, from, Target(from, steps))
            == if steps <= 0 then from else if from + steps > LastSquare then LastSquare else from + steps
  {
    var t := Target(from, steps);
    if steps > 0 {
      ReachedFullPath(view, from, t);
    }
  }

  class PlayerMovement {
    var boardGenerator: Option<BoardView>
    var currentSquare: int
    var isMoving: bool
    var allowKeyboardInput: bool

    /** `currentSquare` is a C# `int`. */
    ghost predicate Valid()
      reads this
    {
      IsInt32(currentSquare)
    }

    /** A mover starts on square 1, idle, wired to the given board (or to none). */
    constructor (board: Option<BoardView>)
      ensures Valid() && boardGenerator == board && currentSquare == 1
      ensures !isMoving && allowKeyboardInput
    {
      boardGenerator := board;
      currentSquare := 1;
      isMoving := false;
      allowKeyboardInput := true;
    }

    /**
     * Ignored while moving, without a board, or when the board is not generated;
     * otherwise moves towards `currentSquare + steps`, clamped to 100.
     */
    method MovePlayer(steps: int)
      requires Valid() && IsInt32(steps)
      modifies this
      ensures Valid() && boardGenerator == old(boardGenerator)
      ensures allowKeyboardInput == old(allowKeyboardInput)
      ensures (old(isMoving) || boardGenerator.None? || !boardGenerator.value.generated) ==>
                currentSquare == old(currentSquare) && isMoving == old(isMoving)
      ensures (!old(isMoving) && boardGenerator.Some? && boardGenerator.value.generated) ==>
                currentSquare == Reached(boardGenerator.value, old(currentSquare), Target(old(currentSquare), steps))
                    && !IsMoving()
    {
      if isMoving {
        return;
      }
      if boardGenerator.None? {
        return;
      }
      if !boardGenerator.value.generated {
        return;
      }
      var targetSquare := Wrap32(currentSquare + steps);
      if targetSquare > 100 {
        targetSquare := 100;
      }
      MoveToSquare(targetSquare);
    }

    /** The stepping loop, run to completion. */
    method MoveToSquare(targetSquare: int)
      requires Valid() && boardGenerator.Some? && IsInt32(targetSquare)
      modifies this
      ensures Valid() && boardGenerator == old(boardGenerator) && !isMoving
      ensures allowKeyboardInput == old(allowKeyboardInput)
      ensures currentSquare == Reached(boardGenerator.value, old(currentSquare), targetSquare)
    {
      isMoving := true;
      var view := boardGenerator.value;
      while currentSquare < targetSquare
        invariant Valid() && old(currentSquare) <= currentSquare
        invariant boardGenerator == old(boardGenerator)
        invariant allowKeyboardInput == old(allowKeyboardInput)
        invariant Reached(view, currentSquare, targetSquare) == Reached(view, old(currentSquare), targetSquare)
        decreases targetSquare - currentSquare
      {
        var nextSquare := currentSquare + 1;
        if currentSquare !in view.positioned || nextSquare !in view.positioned {
          break;
        }
        currentSquare := nextSquare;
      }
      isMoving := false;
    }

    /** Places the piece on any square, even out of range; does nothing without a board. */
    method SetPosition(squareNumber: int)
      requires Valid() && IsInt32(squareNumber)
      modifies this
      ensures Valid() && boardGenerator == old(boardGenerator) && isMoving == old(isMoving)
      ensures allowKeyboardInput == old(allowKeyboardInput)
      ensures currentSquare == if boardGenerator.None? then old(currentSquare) else squareNumber
    {
      if boardGenerator.None? {
        return;
      }
      currentSquare := squareNumber;
    }

    function IsMoving(): bool
      reads this
    {
      isMoving
    }
  }
}
