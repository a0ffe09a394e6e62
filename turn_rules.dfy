/**
 * The turn engine of the game manager, as functions on a value `Game` holding its
 * fields. The game manager class runs the same steps on its own fields; every lemma
 * about the game's rules is stated here.
 *
 * What the manager tells the outside world is recorded in `events`: the four C# events
 * it raises, the `TakeTurn` requests it sends to AI components, and the commands it
 * sends to each player's movement component.
 */
module TurnRules {
  import opened Players
  import CSharp

  datatype Event =
    | TurnStarted(player: int)               // OnPlayerTurnStarted
    | DiceRolled(value: int)                 // OnDiceRolled
    | PlayerMoved(player: int, square: int)  // OnPlayerMoved
    | PlayerWon(player: int)                 // OnPlayerWon
    | AITurnRequested(player: int)           // aiPlayers[i].TakeTurn()
    | MoverSteps(player: int, steps: int)    // PlayerMovement.MovePlayer(steps)
    | MoverPlaced(player: int, square: int)  // PlayerMovement.SetPosition(square)

  /** The serialized settings that no method of the manager changes. */
  datatype Settings = Settings(
    playerNames: seq<string>,
    startingDiceValue: int,
    winningSquare: int,
    allowExtraTurnOnSix: bool)

  /** The value a roll must have for the extra turn, written into the rules as a literal. */
  const ExtraTurnValue: int := 6

  /** The manager's fields. `aiPlayers` holds the keys of the `aiPlayers` dictionary. */
  datatype Game = Game(
    players: seq<PlayerState>,
    currentPlayerIndex: int,
    isGameActive: bool,
    isWaitingForDiceRoll: bool,
    lastDiceValue: int,
    aiPlayers: set<int>,
    numberOfPlayers: int,
    numberOfAIPlayers: int,
    events: seq<Event>)

  /** The manager before `Start` runs, with the player counts set in the inspector. */
  function NewGame(numberOfPlayers: int, numberOfAIPlayers: int): (g: Game)
    ensures WF(g) && g.players == [] && g.events == []
    ensures !g.isGameActive && !g.isWaitingForDiceRoll
    ensures g.currentPlayerIndex == 0 && g.lastDiceValue == 0 && g.aiPlayers == {}
    ensures g.numberOfPlayers == numberOfPlayers && g.numberOfAIPlayers == numberOfAIPlayers
  {
    Game([], 0, false, false, 0, {}, numberOfPlayers, numberOfAIPlayers, [])
  }

  /** The index names a player, or is 0 while there are none. */
  predicate IndexOk(g: Game) {
    if |g.players| == 0 then g.currentPlayerIndex == 0 else 0 <= g.currentPlayerIndex < |g.players|
  }

  /** The invariant the manager keeps: a valid index, and a running game has two players. */
  predicate WF(g: Game) {
    IndexOk(g) && (g.isGameActive ==> |g.players| >= 2)
  }

  /** Nothing in the manager ever takes a player out of the game. */
  predicate AllActive(g: Game) {
    forall i :: 0 <= i < |g.players| ==> g.players[i].isActive
  }

  /** Squares are in range: 0 before entering, 1..winningSquare after. */
  predicate SquaresInRange(g: Game, s: Settings) {
    forall i :: 0 <= i < |g.players| ==>
      (if g.players[i].hasStarted then 1 <= g.players[i].currentSquare <= s.winningSquare
       else g.players[i].currentSquare == 0)
  }

  /** No player is further back in `r` than in `g`. */
  predicate NoneMovedBack(g: Game, r: Game) {
    |r.players| == |g.players|
    && forall i :: 0 <= i < |g.players| ==> r.players[i].currentSquare >= g.players[i].currentSquare
  }

  /** `Mathf.Clamp` on integers. */
  function Clamp(value: int, min: int, max: int): (r: int)
    ensures min <= max ==> min <= r <= max
    ensures min <= value <= max ==> r == value
  {
    if value < min then min else if value > max then max else value
  }

  /** The indices 0..n-1. */
  function IndicesBelow(n: int): (r: set<int>)
    ensures forall i :: i in r <==> 0 <= i < n
    decreases n
  {
    if n <= 0 then {} else IndicesBelow(n - 1) + {n - 1}
  }

  /** The number of `PlayerWon` events. */
  function Wins(events: seq<Event>): nat {
    if |events| == 0 then 0
    else Wins(events[..|events| - 1]) + (if events[|events| - 1].PlayerWon? then 1 else 0)
  }

  lemma {:induction false} WinsConcat(a: seq<Event>, b: seq<Event>)
    ensures Wins(a + b) == Wins(a) + Wins(b)
    decreases |b|
  {
    if |b| > 0 {
      var n := |b| - 1;
      assert (a + b)[..|a + b| - 1] == a + b[..n];
      assert (a + b)[|a + b| - 1] == b[n];
      WinsConcat(a, b[..n]);
    } else {
      assert a + b == a;
    }
  }

  /**
   * `MovePlayerToSquare`: without a game object nothing happens; otherwise the mover is
   * told to step forward (a positive distance) or to jump (anything else), the player's
   * square is set, and `OnPlayerMoved` fires. The distance is a 32-bit `int` difference.
   */
  function MovePlayerToSquare(g: Game, i: int, square: int): (r: Game)
    requires 0 <= i < |g.players|
    ensures r.(players := g.players, events := g.events) == g
    ensures |r.players| == |g.players|
    ensures forall j :: 0 <= j < |g.players| && j != i ==> r.players[j] == g.players[j]
    ensures !g.players[i].hasObject ==> r == g
    ensures g.players[i].hasObject ==>
              r.players[i] == MovedState(g.players[i], square)
              && r.events == g.events + [MoverCommand(i, CSharp.Wrap32(square - g.players[i].currentSquare), square), PlayerMoved(i, square)]
  {
    var p := g.players[i];
    if !p.hasObject then g
    else
      var steps := CSharp.Wrap32(square - p.currentSquare);
      g.(players := g.players[i := MovedState(p, square)],
         events := g.events + [MoverCommand(i, steps, square), PlayerMoved(i, square)])
  }

  /** What the mover of player i is told for a move of `steps` squares ending on `square`. */
  function MoverCommand(i: int, steps: int, square: int): Event {
    if steps > 0 then MoverSteps(i, steps) else MoverPlaced(i, square)
  }

  /** The `TakeTurn` request the current player's turn sends: only to an AI player's component. */
  function AIRequest(g: Game): seq<Event>
    requires 0 <= g.currentPlayerIndex < |g.players|
  {
    var i := g.currentPlayerIndex;
    if g.players[i].isAI && i in g.aiPlayers then [AITurnRequested(i)] else []
  }

  /** The turn goes to the current player: `OnPlayerTurnStarted`, then wait or ask the AI. */
  function BeginTurn(g: Game): (r: Game)
    requires 0 <= g.currentPlayerIndex < |g.players|
    ensures r.(events := g.events, isWaitingForDiceRoll := g.isWaitingForDiceRoll) == g
    ensures r.isWaitingForDiceRoll
            <==> !(g.players[g.currentPlayerIndex].isAI && g.currentPlayerIndex !in g.aiPlayers)
    ensures r.events == g.events + [TurnStarted(g.currentPlayerIndex)] + AIRequest(g)
  {
    var i := g.currentPlayerIndex;
    var h := g.(events := g.events + [TurnStarted(i)], isWaitingForDiceRoll := true);
    if g.players[i].isAI then
      if i in g.aiPlayers then h.(events := h.events + [AITurnRequested(i)])
      else h.(isWaitingForDiceRoll := false)
    else h
  }

  /**
   * The loop of `StartNextTurn` after `attempts` players were examined: the first active
   * player from the current index on gets the turn; with none the game stops.
   */
  function Scan(g: Game, attempts: nat): (r: Game)
    requires IndexOk(g)
    ensures IndexOk(r) && r.players == g.players && r.lastDiceValue == g.lastDiceValue
    ensures r.aiPlayers == g.aiPlayers && r.numberOfPlayers == g.numberOfPlayers
    ensures r.numberOfAIPlayers == g.numberOfAIPlayers
    ensures r.isGameActive ==> g.isGameActive
    decreases |g.players| - attempts
  {
    if attempts >= |g.players| then g.(isGameActive := false)
    else if g.players[g.currentPlayerIndex].isActive then BeginTurn(g)
    else Scan(g.(currentPlayerIndex := (g.currentPlayerIndex + 1) % |g.players|), attempts + 1)
  }

  /** One step of the scan: an active current player gets the turn. */
  lemma ScanAtActive(g: Game, attempts: nat)
    requires IndexOk(g) && attempts < |g.players| && g.players[g.currentPlayerIndex].isActive
    ensures Scan(g, attempts) == BeginTurn(g)
  {
  }

  /** One step of the scan: an inactive current player is passed over. */
  lemma ScanPastInactive(g: Game, attempts: nat)
    requires IndexOk(g) && attempts < |g.players| && !g.players[g.currentPlayerIndex].isActive
    ensures Scan(g, attempts)
            == Scan(g.(currentPlayerIndex := (g.currentPlayerIndex + 1) % |g.players|), attempts + 1)
  {
  }

  /** `StartNextTurn`: nothing unless the game is running, then the scan. */
  function StartNextTurn(g: Game): (r: Game)
    requires IndexOk(g)
    ensures IndexOk(r) && r.players == g.players && r.lastDiceValue == g.lastDiceValue
    ensures r.aiPlayers == g.aiPlayers && r.numberOfPlayers == g.numberOfPlayers
    ensures r.numberOfAIPlayers == g.numberOfAIPlayers
    ensures r.isGameActive ==> g.isGameActive
    ensures !g.isGameActive ==> r == g
  {
    if !g.isGameActive then g else Scan(g, 0)
  }

  /** `PlayerWon`: the game stops and `OnPlayerWon` fires; the index and the wait flag stay. */
  function PlayerWonStep(g: Game, i: int): (r: Game)
    ensures !r.isGameActive && r.events == g.events + [PlayerWon(i)]
    ensures r.(isGameActive := g.isGameActive, events := g.events) == g
  {
    g.(isGameActive := false, events := g.events + [PlayerWon(i)])
  }

  /**
   * The end of a roll that did not win: the wait is over, the index moves on unless the
   * same player goes again, and the next turn starts.
   */
  function PassTurn(g: Game, again: bool): (r: Game)
    requires IndexOk(g) && |g.players| > 0
    ensures IndexOk(r) && r.players == g.players && r.lastDiceValue == g.lastDiceValue
    ensures r.aiPlayers == g.aiPlayers && r.numberOfPlayers == g.numberOfPlayers
    ensures r.numberOfAIPlayers == g.numberOfAIPlayers
    ensures r.isGameActive ==> g.isGameActive
  {
    var i := g.currentPlayerIndex;
    StartNextTurn(g.(isWaitingForDiceRoll := false, currentPlayerIndex := if again then i else (i + 1) % |g.players|))
  }

  /**
   * `ProcessDiceRoll`: entering, missing the entry, winning, or an ordinary move. The
   * new square is the 32-bit `int` sum of the current square and the roll.
   */
  function ProcessDiceRoll(g: Game, s: Settings, diceValue: int): (r: Game)
    requires WF(g) && |g.players| > 0
    ensures WF(r) && |r.players| == |g.players| && r.lastDiceValue == g.lastDiceValue
    ensures r.aiPlayers == g.aiPlayers && r.numberOfPlayers == g.numberOfPlayers
    ensures r.numberOfAIPlayers == g.numberOfAIPlayers
  {
    var i := g.currentPlayerIndex;
    var p := g.players[i];
    if !p.hasStarted then
      if diceValue == s.startingDiceValue then
        PassTurn(MovePlayerToSquare(g.(players := g.players[i := StartedState(p)]), i, 1), true)
      else
        PassTurn(g, false)
    else
      var newSquare := CSharp.Wrap32(p.currentSquare + diceValue);
      if newSquare >= s.winningSquare then
        PlayerWonStep(MovePlayerToSquare(g, i, s.winningSquare), i)
      else
        PassTurn(MovePlayerToSquare(g, i, newSquare), s.allowExtraTurnOnSix && diceValue == ExtraTurnValue)
  }

  /** `HandleDiceRoll`: ignored unless the game runs and waits; otherwise record, announce, play. */
  function HandleDiceRoll(g: Game, s: Settings, diceValue: int): (r: Game)
    requires WF(g)
    ensures WF(r) && |r.players| == |g.players|
    ensures r.aiPlayers == g.aiPlayers && r.numberOfPlayers == g.numberOfPlayers
    ensures r.numberOfAIPlayers == g.numberOfAIPlayers
  {
    if !g.isGameActive || !g.isWaitingForDiceRoll then g
    else ProcessDiceRoll(g.(lastDiceValue := diceValue, events := g.events + [DiceRolled(diceValue)]), s, diceValue)
  }

  /** The game after the given rolls arrive one after another. */
  function Rolls(g: Game, s: Settings, values: seq<int>): (r: Game)
    requires WF(g)
    ensures WF(r) && |r.players| == |g.players|
    decreases |values|
  {
    if |values| == 0 then g else Rolls(HandleDiceRoll(g, s, values[0]), s, values[1..])
  }

  /** How many players `CreatePlayers` makes before it stops or runs out of names. */
  function CreatedCount(g: Game, s: Settings): (n: nat)
    ensures n <= |s.playerNames|
  {
    if g.numberOfPlayers <= 0 then 0
    else if g.numberOfPlayers <= |s.playerNames| then g.numberOfPlayers
    else |s.playerNames|
  }

  /** `playerNames[i]` is read for every i below `numberOfPlayers`: too few names throw. */
  predicate CreatePlayersThrows(g: Game, s: Settings) {
    g.numberOfPlayers > |s.playerNames|
  }

  /** The players `CreatePlayers` makes: the first `numberOfAIPlayers` are AI. */
  function CreatedPlayers(g: Game, s: Settings): (ps: seq<PlayerState>)
    ensures |ps| == CreatedCount(g, s)
  {
    seq(CreatedCount(g, s), i requires 0 <= i < CreatedCount(g, s) =>
      InitialState(i + 1, s.playerNames[i], i < g.numberOfAIPlayers, true))
  }

  /** Each new player's mover is put off the board, in creation order. */
  function OffBoardPlacements(count: nat): (es: seq<Event>)
    ensures |es| == count && forall i :: 0 <= i < count ==> es[i] == MoverPlaced(i, 0)
  {
    seq(count, i => MoverPlaced(i, 0))
  }

  lemma OffBoardPlacementsStep(count: nat)
    ensures OffBoardPlacements(count + 1) == OffBoardPlacements(count) + [MoverPlaced(count, 0)]
  {
    assert OffBoardPlacements(count + 1)[..count] == OffBoardPlacements(count);
  }

  /** One more player created adds its index to the AI set exactly when it is an AI player. */
  lemma AIIndicesStep(numberOfAIPlayers: int, count: nat)
    ensures IndicesBelow(Clamp(numberOfAIPlayers, 0, count + 1))
            == IndicesBelow(Clamp(numberOfAIPlayers, 0, count)) + (if count < numberOfAIPlayers then {count} else {})
  {
  }

  /**
   * `CreatePlayers`: replaces the players with new ones, AI players first, and registers
   * an AI component for each AI player. When names run out the loop throws, leaving the
   * players made so far.
   */
  function CreatePlayers(g: Game, s: Settings): Game
  {
    g.(players := CreatedPlayers(g, s),
       aiPlayers := IndicesBelow(Clamp(g.numberOfAIPlayers, 0, CreatedCount(g, s))),
       events := g.events + OffBoardPlacements(CreatedCount(g, s)))
  }

  /**
   * `StartGame`, given whether the board reports itself generated: create players if there
   * are none, refuse with fewer than two or without a board, else start at player 0.
   */
  function StartGame(g: Game, s: Settings, boardGenerated: bool): (r: Game)
    requires WF(g)
    ensures WF(r)
  {
    var created := if |g.players| == 0 then CreatePlayers(g, s) else g;
    if |g.players| == 0 && CreatePlayersThrows(g, s) then created
    else if |created.players| < 2 || !boardGenerated then created
    else StartNextTurn(created.(isGameActive := true, currentPlayerIndex := 0))
  }

  /** The movers of players with a game object are put off the board, in list order. */
  function ResetPlacements(ps: seq<PlayerState>): seq<Event> {
    if |ps| == 0 then []
    else ResetPlacements(ps[..|ps| - 1]) + (if ps[|ps| - 1].hasObject then [MoverPlaced(|ps| - 1, 0)] else [])
  }

  /**
   * A reset sends at most one order per player: an off-board placement, only to players
   * with a game object; when every player has one, each mover in turn.
   */
  lemma {:induction false} ResetPlacementsOffBoard(ps: seq<PlayerState>)
    ensures var es := ResetPlacements(ps);
            |es| <= |ps|
            && (forall j :: 0 <= j < |es| ==>
                  es[j].MoverPlaced? && es[j].square == 0 && 0 <= es[j].player < |ps| && ps[es[j].player].hasObject)
            && ((forall k :: 0 <= k < |ps| ==> ps[k].hasObject) ==> es == OffBoardPlacements(|ps|))
    decreases |ps|
  {
    if |ps| > 0 {
      var init := ps[..|ps| - 1];
      ResetPlacementsOffBoard(init);
      assert forall k :: 0 <= k < |init| ==> init[k] == ps[k];
      OffBoardPlacementsStep(|ps| - 1);
    }
  }

  lemma ResetPlacementsStep(ps: seq<PlayerState>, k: nat)
    requires k < |ps|
    ensures ResetPlacements(ps[..k + 1])
            == ResetPlacements(ps[..k]) + (if ps[k].hasObject then [MoverPlaced(k, 0)] else [])
  {
    assert ps[..k + 1][..k] == ps[..k];
  }

  /** `Reset` applied to each player. */
  function ResetStates(ps: seq<PlayerState>): (r: seq<PlayerState>)
    ensures |r| == |ps| && forall i :: 0 <= i < |ps| ==> r[i] == ResetState(ps[i])
  {
    seq(|ps|, i requires 0 <= i < |ps| => ResetState(ps[i]))
  }

  /** `ResetGame`: stop, clear the turn state and reset every player. */
  function ResetGame(g: Game): (r: Game)
    ensures WF(r)
  {
    g.(isGameActive := false, isWaitingForDiceRoll := false, currentPlayerIndex := 0, lastDiceValue := 0,
       players := ResetStates(g.players),
       events := g.events + ResetPlacements(g.players))
  }

  /**
   * `InitializeGame` (run from `Start`), given whether the board is present and generated:
   * clamp the player counts only when they are out of range, then create the players.
   */
  function InitializeGame(g: Game, s: Settings, boardGenerated: bool): (r: Game)
  {
    if !boardGenerated then g
    else
      var n := if g.numberOfPlayers < 2 || g.numberOfPlayers > 10 then Clamp(g.numberOfPlayers, 2, 10)
               else g.numberOfPlayers;
      var ai := if g.numberOfAIPlayers > n then n else g.numberOfAIPlayers;
      CreatePlayers(g.(numberOfPlayers := n, numberOfAIPlayers := ai), s)
  }

  /** `SetNumberOfPlayers`. */
  function SetNumberOfPlayers(g: Game, count: int): (r: Game)
    ensures 2 <= r.numberOfPlayers <= 10 && r.(numberOfPlayers := g.numberOfPlayers) == g
    ensures 2 <= count <= 10 ==> r.numberOfPlayers == count
  {
    g.(numberOfPlayers := Clamp(count, 2, 10))
  }

  /** `SetNumberOfAIPlayers`: clamped to 0..numberOfPlayers. */
  function SetNumberOfAIPlayers(g: Game, count: int): (r: Game)
    ensures g.numberOfPlayers >= 0 ==> 0 <= r.numberOfAIPlayers <= g.numberOfPlayers
    ensures 0 <= count <= g.numberOfPlayers ==> r.numberOfAIPlayers == count
    ensures r.(numberOfAIPlayers := g.numberOfAIPlayers) == g
  {
    g.(numberOfAIPlayers := Clamp(count, 0, g.numberOfPlayers))
  }
}
