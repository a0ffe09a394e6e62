/**
 * A player's record: identity (id, name, AI flag, game object) and progress (square,
 * whether the player has entered the board, whether the player is still in the game).
 */
module Players {

  /** The fields of a `Player`, as a value. `hasObject` says whether `playerObject` is set. */
  datatype PlayerState = PlayerState(
    playerID: int,
    playerName: string,
    isAI: bool,
    hasObject: bool,
    currentSquare: int,
    hasStarted: bool,
    isActive: bool)

  /** A new player: off the board (square 0), not started, active. */
  function InitialState(id: int, name: string, ai: bool, obj: bool): (p: PlayerState)
    ensures p.playerID == id && p.playerName == name && p.isAI == ai && p.hasObject == obj
    ensures p.currentSquare == 0 && !p.hasStarted && p.isActive
  {
    PlayerState(id, name, ai, obj, 0, false, true)
  }

  /** `Reset`: back to the state of a new player with the same identity. */
  function ResetState(p: PlayerState): (r: PlayerState)
    ensures r == InitialState(p.playerID, p.playerName, p.isAI, p.hasObject)
  {
    p.(currentSquare := 0, hasStarted := false, isActive := true)
  }

  /** `StartGame`: entered the board, on square 1; nothing else changes. */
  function StartedState(p: PlayerState): (r: PlayerState)
    ensures r.hasStarted && r.currentSquare == 1
    ensures r.(hasStarted := p.hasStarted, currentSquare := p.currentSquare) == p
  {
    p.(hasStarted := true, currentSquare := 1)
  }

  /** `MoveToSquare`: only the square changes. */
  function MovedState(p: PlayerState, square: int): (r: PlayerState)
    ensures r.currentSquare == square && r.(currentSquare := p.currentSquare) == p
  {
    p.(currentSquare := square)
  }

  /** Resetting twice is resetting once. */
  lemma ResetIdempotent(p: PlayerState)
    ensures ResetState(ResetState(p)) == ResetState(p)
  {
  }

  /** A reset player is indistinguishable from a freshly constructed one. */
  lemma ResetUndoesProgress(p: PlayerState, square: int)
    ensures ResetState(MovedState(StartedState(p), square)) == ResetState(p)
  {
  }

  /** The game's own object: fields updated in place by the lifecycle methods. */
  class Player {
    var playerID: int
    var playerName: string
    var isAI: bool
    var hasObject: bool
    var currentSquare: int
    var hasStarted: bool
    var isActive: bool

    function View(): PlayerState
      reads this
    {
      PlayerState(playerID, playerName, isAI, hasObject, currentSquare, hasStarted, isActive)
    }

    constructor (id: int, name: string, ai: bool, obj: bool)
      ensures View() == InitialState(id, name, ai, obj)
    {
      playerID := id;
      playerName := name;
      isAI := ai;
      hasObject := obj;
      currentSquare := 0;
      hasStarted := false;
      isActive := true;
    }

    method Reset()
      modifies this
      ensures View() == ResetState(old(View()))
    {
      currentSquare := 0;
      hasStarted := false;
      isActive := true;
    }

    method StartGame()
      modifies this
      ensures View() == StartedState(old(View()))
    {
      hasStarted := true;
      currentSquare := 1;
    }

    method MoveToSquare(square: int)
      modifies this
      ensures View() == MovedState(old(View()), square)
    {
      currentSquare := square;
    }
  }
}
