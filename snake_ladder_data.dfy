/** A snake or a ladder: a shortcut from one square to another
    (Assets/Scripts/SnakeLadderData.cs). */
module SnakeLadderData {

  /** One board shortcut. `isLadder` distinguishes a ladder (which should go up)
      from a snake (which should go down); `name` is a free-form label. */
  datatype SnakeLadder = SnakeLadder(startSquare: int, endSquare: int, isLadder: bool, name: string)
  {
    /** A ladder must go up and a snake must go down. */
    predicate IsValid()
      ensures IsValid() ==> startSquare != endSquare
    {
      if isLadder then endSquare > startSquare else endSquare < startSquare
    }
  }

  /** The constructor: stores the squares and the kind as given, labels the
      entry by its kind and does not check validity. */
  function NewSnakeLadder(start: int, end: int, ladder: bool): (sl: SnakeLadder)
    ensures sl.startSquare == start && sl.endSquare == end && sl.isLadder == ladder
    ensures sl.name == (if ladder then "Ladder" else "Snake")
  {
    SnakeLadder(start, end, ladder, if ladder then "Ladder" else "Snake")
  }

  lemma LadderValidIffGoesUp(sl: SnakeLadder)
    requires sl.isLadder
    ensures sl.IsValid() <==> sl.endSquare > sl.startSquare
  {
  }

  lemma SnakeValidIffGoesDown(sl: SnakeLadder)
    requires !sl.isLadder
    ensures sl.IsValid() <==> sl.endSquare < sl.startSquare
  {
  }

  /** An entry that starts and ends on the same square is never valid, whatever its kind. */
  lemma SelfLoopNeverValid(sl: SnakeLadder)
    requires sl.startSquare == sl.endSquare
    ensures !sl.IsValid()
  {
  }

  /**
   * The constructor accepts any pair of squares: the entry it makes is valid exactly when
   * the squares point the way its kind requires, so wrong-way entries are built as well.
   */
  lemma ConstructorDoesNotValidate(start: int, end: int, ladder: bool)
    ensures NewSnakeLadder(start, end, ladder).IsValid() <==> (if ladder then end > start else end < start)
    ensures ladder && end <= start ==> !NewSnakeLadder(start, end, ladder).IsValid()
    ensures !ladder && end >= start ==> !NewSnakeLadder(start, end, ladder).IsValid()
  {
  }
}
