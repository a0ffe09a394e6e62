/**
 * The game manager as a class: the fields of the C# component, the player objects it
 * owns, and its methods, each proved to take the fields from `State()` to the value the
 * matching function of `TurnRules` gives. The rules it therefore keeps are proved in
 * `TurnProperties`.
 *
 * Whether the board answers `IsBoardGenerated` with true is a parameter; what the manager
 * tells its listeners, AI components and movers is appended to `events`.
 */
module Manager {
  import opened Players
  import opened TurnRules
  import CSharp

  /** No player object appears twice. */
  predicate Distinct(ps: seq<Player>) {
    forall i, j :: 0 <= i < j < |ps| ==> ps[i] != ps[j]
  }

  /** The objects hold the given states, in order. */
  ghost predicate Coupled(ps: seq<Player>, vs: seq<PlayerState>)
    reads ps
  {
    |ps| == |vs| && forall i :: 0 <= i < |ps| ==> ps[i].View() == vs[i]
  }

  class GameManager {
    const settings: Settings
    var players: seq<Player>
    var currentPlayerIndex: int
    var isGameActive: bool
    var isWaitingForDiceRoll: bool
    var lastDiceValue: int
    var aiPlayers: set<int>
    var numberOfPlayers: int
    var numberOfAIPlayers: int
    var events: seq<Event>
    /** The states of the player objects, in list order. */
    ghost var views: seq<PlayerState>

    /** The fields as a value of the turn rules. */
    ghost function State(): Game
      reads this
    {
      Game(views, currentPlayerIndex, isGameActive, isWaitingForDiceRoll, lastDiceValue,
           aiPlayers, numberOfPlayers, numberOfAIPlayers, events)
    }

    /**
     * `views` holds the players' states; each player is its own object; the turn state is
     * well formed.
     */
    ghost predicate Valid()
      reads this, players
    {
      Distinct(players) && Coupled(players, views) && WF(State())
    }

    /**
     * The component after `Start` has run `InitializeGame`: with a generated board the
     * counts are clamped and the players created.
     */
    constructor (s: Settings, playerCount: int, aiCount: int, boardGenerated: bool)
      ensures Valid() && settings == s
      ensures State() == InitializeGame(NewGame(playerCount, aiCount), s, boardGenerated)
    {
      settings := s;
      players := [];
      currentPlayerIndex := 0;
      isGameActive := false;
      isWaitingForDiceRoll := false;
      lastDiceValue := 0;
      aiPlayers := {};
      numberOfPlayers := playerCount;
      numberOfAIPlayers := aiCount;
      events := [];
      views := [];
      new;
      if !boardGenerated {
        return;
      }
      if numberOfPlayers < 2 || numberOfPlayers > 10 {
        numberOfPlayers := Clamp(numberOfPlayers, 2, 10);
      }
      if numberOfAIPlayers > numberOfPlayers {
        numberOfAIPlayers := numberOfPlayers;
      }
      var _ := CreatePlayers();
    }

    /**
     * Replaces the players by new ones, the first `numberOfAIPlayers` of them AI. Returns
     * false where the C# loop throws for want of a name, with the players made so far.
     */
    method CreatePlayers() returns (completed: bool)
      requires Valid() && |players| == 0
      modifies this
      ensures Valid()
      ensures State() == TurnRules.CreatePlayers(old(State()), settings)
      ensures completed == !CreatePlayersThrows(old(State()), settings)
      ensures forall i :: 0 <= i < |players| ==> fresh(players[i])
    {
      ghost var g := State();
      var names := settings.playerNames;
      players := [];
      views := [];
      aiPlayers := {};
      var i := 0;
      while i < numberOfPlayers
        invariant 0 <= i <= CreatedCount(g, settings) && |players| == i
        invariant forall k :: 0 <= k < i ==> fresh(players[k])
        invariant Distinct(players) && Coupled(players, views)
        invariant views == CreatedPlayers(g, settings)[..i]
        invariant aiPlayers == IndicesBelow(Clamp(numberOfAIPlayers, 0, i))
        invariant events == g.events + OffBoardPlacements(i)
        invariant State() == g.(players := views, aiPlayers := aiPlayers, events := events)
        decreases numberOfPlayers - i
      {
        if i >= |names| {
          completed := false;
          return;
        }
        assert CreatedPlayers(g, settings)[..i + 1] == views + [InitialState(i + 1, names[i], i < numberOfAIPlayers, true)];
        OffBoardPlacementsStep(i);
        AIIndicesStep(numberOfAIPlayers, i);
        AddPlayer(names[i]);
        i := i + 1;
      }
      completed := true;
    }

    /** The body of `CreatePlayers`' loop: player number |players| + 1 joins, off the board. */
    method AddPlayer(name: string)
      requires Distinct(players) && Coupled(players, views)
      modifies this
      ensures |players| == |old(players)| + 1 && players == old(players) + [players[|old(players)|]]
      ensures fresh(players[|players| - 1]) && Distinct(players) && Coupled(players, views)
      ensures views == old(views) + [InitialState(|old(players)| + 1, name, |old(players)| < numberOfAIPlayers, true)]
      ensures events == old(events) + [MoverPlaced(|old(players)|, 0)]
      ensures aiPlayers == if |old(players)| < numberOfAIPlayers then old(aiPlayers) + {|old(players)|} else old(aiPlayers)
      ensures currentPlayerIndex == old(currentPlayerIndex) && numberOfPlayers == old(numberOfPlayers)
      ensures numberOfAIPlayers == old(numberOfAIPlayers) && lastDiceValue == old(lastDiceValue)
      ensures isGameActive == old(isGameActive) && isWaitingForDiceRoll == old(isWaitingForDiceRoll)
    {
      var i := |players|;
      var isAI := i < numberOfAIPlayers;
      events := events + [MoverPlaced(i, 0)];
      var player := new Player(i + 1, name, isAI, true);
      players := players + [player];
      views := views + [player.View()];
      if isAI {
        aiPlayers := aiPlayers + {i};
      }
    }

    /**
     * The loop of `StartNextTurn`: at most one pass over the players from the current
     * index, handing the turn to the first active one; with none the game stops.
     */
    method StartNextTurn()
      requires Valid()
      modifies this
      ensures Valid() && players == old(players)
      ensures State() == TurnRules.StartNextTurn(old(State()))
    {
      if !isGameActive {
        return;
      }
      var found := FindActivePlayer();
      if found {
        BeginTurn();
      } else {
        isGameActive := false;
      }
    }

    /**
     * The search of `StartNextTurn`: from the current index, at most one pass over the
     * players, stopping at the first active one.
     */
    method FindActivePlayer() returns (found: bool)
      requires Valid() && isGameActive
      modifies this`currentPlayerIndex
      ensures Valid()
      ensures Scan(old(State()), 0) == if found then TurnRules.BeginTurn(State()) else State().(isGameActive := false)
    {
      ghost var start := State();
      var attempts := 0;
      while attempts < |players|
        invariant 0 <= attempts <= |players| && IndexOk(State())
        invariant Scan(State(), attempts) == Scan(start, 0)
        decreases |players| - attempts
      {
        ghost var g := State();
        if players[currentPlayerIndex].isActive {
          ScanAtActive(g, attempts);
          return true;
        }
        ScanPastInactive(g, attempts);
        currentPlayerIndex := (currentPlayerIndex + 1) % |players|;
        assert State() == g.(currentPlayerIndex := currentPlayerIndex);
        attempts := attempts + 1;
      }
      return false;
    }

    /**
     * The current player's turn begins: `OnPlayerTurnStarted`, then a wait for the roll,
     * which an AI player's component is asked to make; an AI player without one is not
     * waited for.
     */
    method BeginTurn()
      requires Valid() && 0 <= currentPlayerIndex < |players|
      modifies this
      ensures Valid() && players == old(players)
      ensures State() == TurnRules.BeginTurn(old(State()))
    {
      var currentPlayer := players[currentPlayerIndex];
      events := events + [TurnStarted(currentPlayerIndex)];
      isWaitingForDiceRoll := true;
      if currentPlayer.isAI {
        if currentPlayerIndex in aiPlayers {
          events := events + [AITurnRequested(currentPlayerIndex)];
        } else {
          isWaitingForDiceRoll := false;
        }
      }
    }

    /** Moves player i's piece and record to `square`, when the player has a game object. */
    method MovePlayerToSquare(i: int, square: int)
      requires Valid() && 0 <= i < |players|
      modifies this, players[i]
      ensures Valid() && players == old(players)
      ensures State() == TurnRules.MovePlayerToSquare(old(State()), i, square)
    {
      var player := players[i];
      if !player.hasObject {
        return;
      }
      var steps := CSharp.Wrap32(square - player.currentSquare);
      if steps > 0 {
        events := events + [MoverSteps(i, steps)];
      } else {
        events := events + [MoverPlaced(i, square)];
      }
      player.MoveToSquare(square);
      views := views[i := player.View()];
      events := events + [PlayerMoved(i, square)];
    }

    /** Ends the game and announces the winner. */
    method PlayerWon(i: int)
      requires Valid() && 0 <= i < |players|
      modifies this
      ensures Valid() && players == old(players)
      ensures State() == PlayerWonStep(old(State()), i)
    {
      isGameActive := false;
      events := events + [TurnRules.PlayerWon(i)];
    }

    /** The outcome of a roll for the current player. */
    method ProcessDiceRoll(diceValue: int)
      requires Valid() && |players| > 0
      modifies this, players
      ensures Valid() && players == old(players)
      ensures State() == TurnRules.ProcessDiceRoll(old(State()), settings, diceValue)
    {
      if !players[currentPlayerIndex].hasStarted {
        EntryRoll(diceValue);
      } else {
        MoveRoll(diceValue);
      }
    }

    /** `ProcessDiceRoll` for a player not yet on the board. */
    method EntryRoll(diceValue: int)
      requires Valid() && |players| > 0 && !views[currentPlayerIndex].hasStarted
      modifies this, players
      ensures Valid() && players == old(players)
      ensures State() == TurnRules.ProcessDiceRoll(old(State()), settings, diceValue)
    {
      var i := currentPlayerIndex;
      var currentPlayer := players[i];
      if diceValue == settings.startingDiceValue {
        currentPlayer.StartGame();
        views := views[i := currentPlayer.View()];
        MovePlayerToSquare(i, 1);
        PassTurn(true);
      } else {
        PassTurn(false);
      }
    }

    /** `ProcessDiceRoll` for a player on the board. */
    method MoveRoll(diceValue: int)
      requires Valid() && |players| > 0 && views[currentPlayerIndex].hasStarted
      modifies this, players
      ensures Valid() && players == old(players)
      ensures State() == TurnRules.ProcessDiceRoll(old(State()), settings, diceValue)
    {
      var i := currentPlayerIndex;
      var newSquare := CSharp.Wrap32(players[i].currentSquare + diceValue);
      if newSquare >= settings.winningSquare {
        newSquare := settings.winningSquare;
        MovePlayerToSquare(i, newSquare);
        PlayerWon(i);
        return;
      }
      MovePlayerToSquare(i, newSquare);
      PassTurn(settings.allowExtraTurnOnSix && diceValue == ExtraTurnValue);
    }

    /** The end of a roll that did not win. */
    method PassTurn(again: bool)
      requires Valid() && |players| > 0
      modifies this
      ensures Valid() && players == old(players)
      ensures State() == TurnRules.PassTurn(old(State()), again)
    {
      isWaitingForDiceRoll := false;
      if !again {
        currentPlayerIndex := (currentPlayerIndex + 1) % |players|;
      }
      StartNextTurn();
    }

    /** A dice value arriving from the dice: ignored unless the game waits for it. */
    method HandleDiceRoll(diceValue: int)
      requires Valid()
      modifies this, players
      ensures Valid() && players == old(players)
      ensures State() == TurnRules.HandleDiceRoll(old(State()), settings, diceValue)
    {
      if !isGameActive || !isWaitingForDiceRoll {
        return;
      }
      lastDiceValue := diceValue;
      events := events + [DiceRolled(diceValue)];
      ProcessDiceRoll(diceValue);
    }

    /** Starts a game, creating the players first when there are none. */
    method StartGame(boardGenerated: bool)
      requires Valid()
      modifies this
      ensures Valid()
      ensures State() == TurnRules.StartGame(old(State()), settings, boardGenerated)
    {
      if |players| == 0 {
        var completed := CreatePlayers();
        if !completed {
          return;
        }
      }
      if |players| < 2 {
        return;
      }
      if !boardGenerated {
        return;
      }
      isGameActive := true;
      currentPlayerIndex := 0;
      StartNextTurn();
    }

    /** Stops the game and resets every player, putting the pieces off the board. */
    method ResetGame()
      requires Valid()
      modifies this, players
      ensures Valid() && players == old(players)
      ensures State() == TurnRules.ResetGame(old(State()))
    {
      ghost var g := State();
      isGameActive := false;
      isWaitingForDiceRoll := false;
      currentPlayerIndex := 0;
      lastDiceValue := 0;
      assert State() == g.(isGameActive := false, isWaitingForDiceRoll := false, currentPlayerIndex := 0, lastDiceValue := 0);
      ResetPlayers();
      assert State() == g.(isGameActive := false, isWaitingForDiceRoll := false, currentPlayerIndex := 0, lastDiceValue := 0, players := views, events := events);
    }

    /** The loop of `ResetGame`: every player is reset and its piece put off the board. */
    method ResetPlayers()
      requires Distinct(players) && Coupled(players, views)
      modifies this`views, this`events, players
      ensures Coupled(players, views)
      ensures views == ResetStates(old(views)) && events == old(events) + ResetPlacements(old(views))
    {
      ghost var vs := views;
      for k := 0 to |players|
        invariant Coupled(players, views)
        invariant forall j :: 0 <= j < k ==> views[j] == ResetState(vs[j])
        invariant forall j :: k <= j < |players| ==> views[j] == vs[j]
        invariant events == old(events) + ResetPlacements(vs[..k])
      {
        ResetPlacementsStep(vs, k);
        ResetPlayer(k);
      }
      assert vs[..|players|] == vs;
    }

    /** The body of `ResetGame`'s loop: player k is reset and its piece put off the board. */
    method ResetPlayer(k: int)
      requires Distinct(players) && Coupled(players, views) && 0 <= k < |players|
      modifies this`views, this`events, players[k]
      ensures Coupled(players, views)
      ensures views == old(views)[k := ResetState(old(views[k]))]
      ensures events == old(events) + (if views[k].hasObject then [MoverPlaced(k, 0)] else [])
    {
      var player := players[k];
      player.Reset();
      views := views[k := player.View()];
      if player.hasObject {
        events := events + [MoverPlaced(k, 0)];
      }
    }

    method SetNumberOfPlayers(count: int)
      requires Valid()
      modifies this
      ensures Valid() && players == old(players)
      ensures State() == TurnRules.SetNumberOfPlayers(old(State()), count)
    {
      numberOfPlayers := Clamp(count, 2, 10);
    }

    method SetNumberOfAIPlayers(count: int)
      requires Valid()
      modifies this
      ensures Valid() && players == old(players)
      ensures State() == TurnRules.SetNumberOfAIPlayers(old(State()), count)
    {
      numberOfAIPlayers := Clamp(count, 0, numberOfPlayers);
    }

    /** The player whose turn it is, or null when the index names none. */
    function GetCurrentPlayer(): (p: Player?)
      reads this
      ensures p != null <==> 0 <= currentPlayerIndex < |players|
      ensures p != null ==> p == players[currentPlayerIndex]
    {
      if 0 <= currentPlayerIndex < |players| then players[currentPlayerIndex] else null
    }
  }
}
