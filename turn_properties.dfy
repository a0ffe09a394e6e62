/**
 * What the turn engine guarantees: the outcome of each kind of roll, how the next
 * player is found, what starting and resetting do, and the invariants a whole game
 * keeps when the rolls are die faces 1..6.
 */
module TurnProperties {
  import opened Players
  import opened TurnRules
  import Movement
  import CSharp

  /** Players made by `CreatePlayers`: active, with a game object (and so a mover). */
  predicate Populated(g: Game) {
    forall i :: 0 <= i < |g.players| ==> g.players[i].isActive && g.players[i].hasObject
  }

  predicate Ready(g: Game) {
    WF(g) && Populated(g)
  }

  /** The faces of the die that supplies the rolls. */
  const DieFaces: int := 6

  predicate DieValue(d: int) {
    1 <= d <= DieFaces
  }

  /**
   * A winning square that a started player cannot overshoot past `int.MaxValue` with one
   * roll of the die: the 32-bit sum of a square and a roll is then the plain sum.
   */
  predicate RollFits(s: Settings) {
    1 <= s.winningSquare <= CSharp.Int32Max - DieFaces
  }

  /** `HandleDiceRoll` goes past its guard. */
  predicate Accepts(g: Game) {
    g.isGameActive && g.isWaitingForDiceRoll
  }

  /** Every player other than i is as before. */
  predicate OthersUnchanged(g: Game, r: Game, i: int) {
    |r.players| == |g.players|
    && forall j :: 0 <= j < |g.players| && j != i ==> r.players[j] == g.players[j]
  }

  lemma AddModulus(j: int, n: int)
    requires n > 0
    ensures (n + j) % n == j % n
  {
    var q, t := j / n, j % n;
    assert n + j == (q + 1) * n + t;
    CSharp.DivModUnique(n + j, n, q + 1, t);
  }

  /** Advancing the index by one and then by j is advancing it by j + 1. */
  lemma ModShift(c: int, j: int, n: int)
    requires n > 0 && 0 <= c < n && j >= 0
    ensures ((c + 1) % n + j) % n == (c + 1 + j) % n
  {
    if c + 1 == n {
      CSharp.DivModUnique(n, n, 1, 0);
      AddModulus(j, n);
    } else {
      CSharp.DivModUnique(c + 1, n, 0, c + 1);
    }
  }

  /** The player k places on from the current index, counting cyclically, is active. */
  predicate ActiveAt(g: Game, k: int)
    requires |g.players| > 0 && k >= -g.currentPlayerIndex
  {
    g.players[(g.currentPlayerIndex + k) % |g.players|].isActive
  }

  /**
   * The scan of `StartNextTurn` gives the turn to the first active player found by
   * walking cyclically from the current index: k steps on, when the k players before
   * it are inactive.
   */
  lemma {:induction false} ScanFindsFirstActive(g: Game, attempts: nat, k: nat)
    requires IndexOk(g) && |g.players| > 0 && k < |g.players| - attempts
    requires ActiveAt(g, k) && forall j :: 0 <= j < k ==> !ActiveAt(g, j)
    ensures Scan(g, attempts) == BeginTurn(g.(currentPlayerIndex := (g.currentPlayerIndex + k) % |g.players|))
    decreases k
  {
    var n, c := |g.players|, g.currentPlayerIndex;
    CSharp.DivModUnique(c, n, 0, c);
    if k > 0 {
      assert !ActiveAt(g, 0);
      var h := g.(currentPlayerIndex := (c + 1) % n);
      forall j | 0 <= j < k - 1
        ensures !ActiveAt(h, j)
      {
        ModShift(c, j, n);
        assert !ActiveAt(g, j + 1);
      }
      ModShift(c, k - 1, n);
      ScanFindsFirstActive(h, attempts + 1, k - 1);
    }
  }

  /** With no active player the scan walks all the way round and stops the game. */
  lemma {:induction false} ScanNoneActive(g: Game, attempts: nat)
    requires IndexOk(g) && |g.players| > 0 && attempts <= |g.players|
    requires forall j :: 0 <= j < |g.players| ==> !g.players[j].isActive
    ensures Scan(g, attempts)
            == g.(isGameActive := false,
                  currentPlayerIndex := (g.currentPlayerIndex + (|g.players| - attempts)) % |g.players|)
    decreases |g.players| - attempts
  {
    var n, c := |g.players|, g.currentPlayerIndex;
    if attempts == n {
      CSharp.DivModUnique(c, n, 0, c);
    } else {
      ModShift(c, n - attempts - 1, n);
      ScanNoneActive(g.(currentPlayerIndex := (c + 1) % n), attempts + 1);
    }
  }

  /** `StartNextTurn` with nobody active: the game stops, nothing else changes. */
  lemma NoActivePlayerStopsGame(g: Game)
    requires IndexOk(g) && |g.players| > 0 && g.isGameActive
    requires forall j :: 0 <= j < |g.players| ==> !g.players[j].isActive
    ensures StartNextTurn(g) == g.(isGameActive := false)
  {
    ScanNoneActive(g, 0);
    AddModulus(g.currentPlayerIndex, |g.players|);
    CSharp.DivModUnique(g.currentPlayerIndex, |g.players|, 0, g.currentPlayerIndex);
  }

  /**
   * `StartNextTurn` when the current player is active: that player's turn begins; the
   * game waits for a roll unless the player is AI without an AI component;
   * `OnPlayerTurnStarted` fires, and then an AI player's component is asked to play.
   */
  lemma TurnGoesToCurrent(g: Game)
    requires IndexOk(g) && g.isGameActive && |g.players| > 0
    requires g.players[g.currentPlayerIndex].isActive
    ensures var r := StartNextTurn(g);
            r.currentPlayerIndex == g.currentPlayerIndex && r.isGameActive && r.players == g.players
            && (r.isWaitingForDiceRoll
                <==> !(g.players[g.currentPlayerIndex].isAI && g.currentPlayerIndex !in g.aiPlayers))
            && r.events == g.events + [TurnStarted(g.currentPlayerIndex)]
                           + (if g.players[g.currentPlayerIndex].isAI && g.currentPlayerIndex in g.aiPlayers
                              then [AITurnRequested(g.currentPlayerIndex)] else [])
  {
    CSharp.DivModUnique(g.currentPlayerIndex, |g.players|, 0, g.currentPlayerIndex);
    ScanFindsFirstActive(g, 0, 0);
  }

  /** A roll while the game is stopped or not waiting changes nothing. */
  lemma RollRejected(g: Game, s: Settings, diceValue: int)
    requires WF(g) && !Accepts(g)
    ensures HandleDiceRoll(g, s, diceValue) == g
  {
  }

  /** A stopped game ignores every later roll. */
  lemma {:induction false} RollsAfterGameOver(g: Game, s: Settings, values: seq<int>)
    requires WF(g) && !g.isGameActive
    ensures Rolls(g, s, values) == g
    decreases |values|
  {
    if |values| > 0 {
      RollsAfterGameOver(HandleDiceRoll(g, s, values[0]), s, values[1..]);
    }
  }

  /** The game with an accepted roll recorded: `lastDiceValue` and `OnDiceRolled`. */
  function Recorded(g: Game, diceValue: int): (h: Game)
    ensures h.lastDiceValue == diceValue && h.events == g.events + [DiceRolled(diceValue)]
  {
    g.(lastDiceValue := diceValue, events := g.events + [DiceRolled(diceValue)])
  }

  /**
   * An accepted roll of the value that enters: the player starts on square 1 and,
   * being active, gets the next turn as well.
   */
  lemma EntryRoll(g: Game, s: Settings, diceValue: int)
    requires Ready(g) && Accepts(g)
    requires !g.players[g.currentPlayerIndex].hasStarted && diceValue == s.startingDiceValue
    ensures var r, i := HandleDiceRoll(g, s, diceValue), g.currentPlayerIndex;
            r.players[i] == StartedState(g.players[i])
            && r.players[i].hasStarted && r.players[i].currentSquare == 1
            && OthersUnchanged(g, r, i)
            && r.currentPlayerIndex == i && r.isGameActive && r.lastDiceValue == diceValue
            && Wins(r.events) == Wins(g.events)
  {
    var i := g.currentPlayerIndex;
    var h := Recorded(g, diceValue);
    var started := h.(players := h.players[i := StartedState(h.players[i])]);
    var entered := MovePlayerToSquare(started, i, 1);
    TurnGoesToCurrent(entered.(isWaitingForDiceRoll := false));
    WinsConcat(g.events, [DiceRolled(diceValue)]);
    WinsConcat(started.events, [MoverCommand(i, CSharp.Wrap32(1 - StartedState(g.players[i]).currentSquare), 1), PlayerMoved(i, 1)]);
    ScanNoWin(entered.(isWaitingForDiceRoll := false), 0);
  }

  /** An accepted roll of any other value by a player not yet started passes the turn. */
  lemma MissedEntry(g: Game, s: Settings, diceValue: int)
    requires Ready(g) && Accepts(g)
    requires !g.players[g.currentPlayerIndex].hasStarted && diceValue != s.startingDiceValue
    ensures var r := HandleDiceRoll(g, s, diceValue);
            r.players == g.players && r.isGameActive && r.lastDiceValue == diceValue
            && r.currentPlayerIndex == (g.currentPlayerIndex + 1) % |g.players|
            && Wins(r.events) == Wins(g.events)
  {
    var h := Recorded(g, diceValue);
    var passed := h.(isWaitingForDiceRoll := false, currentPlayerIndex := (g.currentPlayerIndex + 1) % |g.players|);
    TurnGoesToCurrent(passed);
    WinsConcat(g.events, [DiceRolled(diceValue)]);
    ScanNoWin(passed, 0);
  }

  /**
   * An accepted roll that reaches or passes the winning square: the player lands exactly
   * on it, the game stops with the index and the wait flag as they were, and
   * `OnPlayerWon` fires once, as the last event.
   */
  lemma WinningRoll(g: Game, s: Settings, diceValue: int)
    requires Ready(g) && Accepts(g)
    requires g.players[g.currentPlayerIndex].hasStarted
    requires CSharp.Wrap32(g.players[g.currentPlayerIndex].currentSquare + diceValue) >= s.winningSquare
    ensures var r, i := HandleDiceRoll(g, s, diceValue), g.currentPlayerIndex;
            r.players[i] == MovedState(g.players[i], s.winningSquare)
            && r.players[i].currentSquare == s.winningSquare && OthersUnchanged(g, r, i)
            && !r.isGameActive && r.isWaitingForDiceRoll && r.currentPlayerIndex == i
            && r.lastDiceValue == diceValue
            && r.events[|r.events| - 1] == PlayerWon(i) && Wins(r.events) == Wins(g.events) + 1
  {
    var i := g.currentPlayerIndex;
    var h := Recorded(g, diceValue);
    var moved := MovePlayerToSquare(h, i, s.winningSquare);
    var cmd := MoverCommand(i, CSharp.Wrap32(s.winningSquare - g.players[i].currentSquare), s.winningSquare);
    WinsConcat(g.events, [DiceRolled(diceValue)]);
    WinsConcat(h.events, [cmd, PlayerMoved(i, s.winningSquare)]);
    WinsConcat(moved.events, [PlayerWon(i)]);
  }

  /**
   * An accepted roll that stays short of the winning square: the player moves to the
   * 32-bit sum of square and roll; a 6 with `allowExtraTurnOnSix` keeps the turn, any
   * other roll passes it on.
   */
  lemma OrdinaryRoll(g: Game, s: Settings, diceValue: int)
    requires Ready(g) && Accepts(g)
    requires g.players[g.currentPlayerIndex].hasStarted
    requires CSharp.Wrap32(g.players[g.currentPlayerIndex].currentSquare + diceValue) < s.winningSquare
    ensures var r, i := HandleDiceRoll(g, s, diceValue), g.currentPlayerIndex;
            r.players[i] == MovedState(g.players[i], CSharp.Wrap32(g.players[i].currentSquare + diceValue))
            && OthersUnchanged(g, r, i) && r.isGameActive && r.lastDiceValue == diceValue
            && r.currentPlayerIndex
               == (if s.allowExtraTurnOnSix && diceValue == ExtraTurnValue then i else (i + 1) % |g.players|)
  {
    var i := g.currentPlayerIndex;
    var h := Recorded(g, diceValue);
    var moved := MovePlayerToSquare(h, i, CSharp.Wrap32(g.players[i].currentSquare + diceValue));
    if s.allowExtraTurnOnSix && diceValue == ExtraTurnValue {
      TurnGoesToCurrent(moved.(isWaitingForDiceRoll := false));
    } else {
      TurnGoesToCurrent(moved.(isWaitingForDiceRoll := false, currentPlayerIndex := (i + 1) % |g.players|));
    }
  }

  /** An ordinary roll announces no winner. */
  lemma OrdinaryRollNoWin(g: Game, s: Settings, diceValue: int)
    requires Ready(g) && Accepts(g)
    requires g.players[g.currentPlayerIndex].hasStarted
    requires CSharp.Wrap32(g.players[g.currentPlayerIndex].currentSquare + diceValue) < s.winningSquare
    ensures Wins(HandleDiceRoll(g, s, diceValue).events) == Wins(g.events)
  {
    var i := g.currentPlayerIndex;
    var h := Recorded(g, diceValue);
    var square := CSharp.Wrap32(g.players[i].currentSquare + diceValue);
    var moved := MovePlayerToSquare(h, i, square);
    assert HandleDiceRoll(g, s, diceValue) == PassTurn(moved, s.allowExtraTurnOnSix && diceValue == ExtraTurnValue);
    WinsConcat(g.events, [DiceRolled(diceValue)]);
    WinsConcat(h.events, [MoverCommand(i, CSharp.Wrap32(square - g.players[i].currentSquare), square), PlayerMoved(i, square)]);
    PassTurnNoWin(moved, s.allowExtraTurnOnSix && diceValue == ExtraTurnValue);
  }

  /** Passing the turn announces no winner. */
  lemma PassTurnNoWin(g: Game, again: bool)
    requires IndexOk(g) && |g.players| > 0
    ensures Wins(PassTurn(g, again).events) == Wins(g.events)
  {
    var i := g.currentPlayerIndex;
    ScanNoWin(g.(isWaitingForDiceRoll := false, currentPlayerIndex := if again then i else (i + 1) % |g.players|), 0);
  }

  /** Starting a turn announces no winner. */
  lemma BeginTurnNoWin(g: Game)
    requires 0 <= g.currentPlayerIndex < |g.players|
    ensures Wins(BeginTurn(g).events) == Wins(g.events)
  {
    var i := g.currentPlayerIndex;
    WinsConcat(g.events, [TurnStarted(i)]);
    WinsConcat(g.events + [TurnStarted(i)], [AITurnRequested(i)]);
  }

  /** Neither does handing the turn on, nor stopping for want of an active player. */
  lemma {:induction false} ScanNoWin(g: Game, attempts: nat)
    requires IndexOk(g)
    ensures Wins(Scan(g, attempts).events) == Wins(g.events)
    decreases |g.players| - attempts
  {
    if attempts < |g.players| {
      if g.players[g.currentPlayerIndex].isActive {
        BeginTurnNoWin(g);
      } else {
        ScanNoWin(g.(currentPlayerIndex := (g.currentPlayerIndex + 1) % |g.players|), attempts + 1);
      }
    }
  }

  /** Only a winning roll adds a `PlayerWon` event, and a win stops the game. */
  lemma RollWins(g: Game, s: Settings, diceValue: int)
    requires Ready(g)
    ensures var r := HandleDiceRoll(g, s, diceValue);
            Wins(r.events) <= Wins(g.events) + 1
            && (Wins(r.events) > Wins(g.events) ==> !r.isGameActive)
            && (r.isGameActive ==> g.isGameActive)
  {
    if Accepts(g) {
      var p := g.players[g.currentPlayerIndex];
      if !p.hasStarted && diceValue == s.startingDiceValue {
        EntryRoll(g, s, diceValue);
      } else if !p.hasStarted {
        MissedEntry(g, s, diceValue);
      } else if CSharp.Wrap32(p.currentSquare + diceValue) >= s.winningSquare {
        WinningRoll(g, s, diceValue);
      } else {
        OrdinaryRollNoWin(g, s, diceValue);
      }
    }
  }

  /**
   * One roll of the die keeps every invariant: the index stays valid, players stay
   * active with their objects, squares stay 0 (not started) or 1..winningSquare, and no
   * square decreases.
   */
  lemma RollKeepsInvariants(g: Game, s: Settings, diceValue: int)
    requires Ready(g) && SquaresInRange(g, s) && RollFits(s) && DieValue(diceValue)
    ensures var r := HandleDiceRoll(g, s, diceValue);
            Ready(r) && SquaresInRange(r, s) && NoneMovedBack(g, r)
  {
    if Accepts(g) {
      var p := g.players[g.currentPlayerIndex];
      if !p.hasStarted && diceValue == s.startingDiceValue {
        EntryRoll(g, s, diceValue);
      } else if !p.hasStarted {
        MissedEntry(g, s, diceValue);
      } else {
        assert CSharp.IsInt32(p.currentSquare + diceValue);
        if p.currentSquare + diceValue >= s.winningSquare {
          WinningRoll(g, s, diceValue);
        } else {
          OrdinaryRoll(g, s, diceValue);
        }
      }
    }
  }

  /**
   * A game played with rolls of the die: the invariants hold throughout, no square
   * ever decreases, and at most one player wins.
   */
  lemma {:induction false} RollsKeepInvariants(g: Game, s: Settings, values: seq<int>)
    requires Ready(g) && SquaresInRange(g, s) && RollFits(s)
    requires forall k :: 0 <= k < |values| ==> DieValue(values[k])
    ensures var r := Rolls(g, s, values);
            Ready(r) && SquaresInRange(r, s) && NoneMovedBack(g, r)
            && Wins(r.events) <= Wins(g.events) + 1
    decreases |values|
  {
    if |values| > 0 {
      var h := HandleDiceRoll(g, s, values[0]);
      RollKeepsInvariants(g, s, values[0]);
      RollWins(g, s, values[0]);
      RollsKeepInvariants(h, s, values[1..]);
      if Wins(h.events) > Wins(g.events) {
        RollsAfterGameOver(h, s, values[1..]);
      }
    }
  }

  /** `StartGame` without two players or without a generated board starts nothing. */
  lemma StartGameRefuses(g: Game, s: Settings, boardGenerated: bool)
    requires WF(g)
    requires var created := if |g.players| == 0 then CreatePlayers(g, s) else g;
             |created.players| < 2 || !boardGenerated
    ensures var r := StartGame(g, s, boardGenerated);
            r == (if |g.players| == 0 then CreatePlayers(g, s) else g)
            && r.isGameActive == g.isGameActive && r.currentPlayerIndex == g.currentPlayerIndex
  {
  }

  /**
   * `StartGame` with two or more active players (or none yet, and names for all of them)
   * on a generated board: the game runs and the first player has the turn.
   */
  lemma StartGameStarts(g: Game, s: Settings)
    requires WF(g)
    requires (|g.players| >= 2 && Populated(g))
             || (|g.players| == 0 && 2 <= g.numberOfPlayers <= |s.playerNames|)
    ensures var r := StartGame(g, s, true);
            r.isGameActive && r.currentPlayerIndex == 0 && |r.players| >= 2
            && r.aiPlayers == (if |g.players| == 0 then IndicesBelow(Clamp(g.numberOfAIPlayers, 0, |r.players|))
                               else g.aiPlayers)
            && (r.isWaitingForDiceRoll <==> !(r.players[0].isAI && 0 !in r.aiPlayers))
            && r.events == (if |g.players| == 0 then g.events + OffBoardPlacements(|r.players|) else g.events)
                           + [TurnStarted(0)] + (if r.players[0].isAI && 0 in r.aiPlayers then [AITurnRequested(0)] else [])
  {
    var created := if |g.players| == 0 then CreatePlayers(g, s) else g;
    var h := created.(isGameActive := true, currentPlayerIndex := 0);
    TurnGoesToCurrent(h);
  }

  /**
   * `ResetGame`: no turn in progress, index 0, last roll 0, every player back to a new
   * player's state with the same id, name, kind and object; AI components stay.
   */
  lemma ResetGameRestores(g: Game)
    ensures var r := ResetGame(g);
            !r.isGameActive && !r.isWaitingForDiceRoll && r.currentPlayerIndex == 0
            && r.lastDiceValue == 0 && |r.players| == |g.players| && r.aiPlayers == g.aiPlayers
            && forall i :: 0 <= i < |g.players| ==>
                 var p := g.players[i];
                 r.players[i] == InitialState(p.playerID, p.playerName, p.isAI, p.hasObject)
  {
  }

  /** After a reset the game is ready to be started again, on square 0 for everyone. */
  lemma ResetGameReady(g: Game, s: Settings)
    requires forall i :: 0 <= i < |g.players| ==> g.players[i].hasObject
    ensures var r := ResetGame(g);
            Ready(r) && SquaresInRange(r, s) && ResetGame(r).players == r.players
  {
    var r := ResetGame(g);
    forall i | 0 <= i < |r.players|
      ensures ResetGame(r).players[i] == r.players[i]
    {
      ResetIdempotent(g.players[i]);
    }
  }

  /**
   * `CreatePlayers` numbers the players from 1, gives them the configured names, makes
   * the first `numberOfAIPlayers` of them AI, and registers an AI component for exactly
   * the AI players.
   */
  lemma CreatePlayersAIFirst(g: Game, s: Settings)
    ensures var r := CreatePlayers(g, s);
            Populated(r) && SquaresInRange(r, s)
            && |r.players| == (if g.numberOfPlayers <= 0 then 0
                               else if CreatePlayersThrows(g, s) then |s.playerNames| else g.numberOfPlayers)
            && (forall i :: 0 <= i < |r.players| ==>
                  r.players[i].playerID == i + 1 && r.players[i].playerName == s.playerNames[i]
                  && (r.players[i].isAI <==> i < g.numberOfAIPlayers))
            && (forall i :: i in r.aiPlayers <==> 0 <= i < |r.players| && r.players[i].isAI)
  {
  }

  /**
   * `InitializeGame` on a generated board: the player count is brought into 2..10 only
   * when it was outside, the AI count is capped by it, and that many players are made
   * when there are names for them.
   */
  lemma InitializeGameClamps(g: Game, s: Settings)
    requires WF(g) && |g.players| == 0
    ensures var r := InitializeGame(g, s, true);
            WF(r) && 2 <= r.numberOfPlayers <= 10 && r.numberOfAIPlayers <= r.numberOfPlayers
            && (2 <= g.numberOfPlayers <= 10 ==> r.numberOfPlayers == g.numberOfPlayers)
            && (g.numberOfAIPlayers <= r.numberOfPlayers ==> r.numberOfAIPlayers == g.numberOfAIPlayers)
            && (r.numberOfPlayers <= |s.playerNames| ==> |r.players| == r.numberOfPlayers)
  {
  }

  /** Without a generated board `InitializeGame` does nothing. */
  lemma InitializeGameWaitsForBoard(g: Game, s: Settings)
    ensures InitializeGame(g, s, false) == g
  {
  }

  /**
   * What `MovePlayerToSquare` tells the mover agrees with what it records: on a board that
   * positions squares 1..100, a mover standing where the player stands ends on the
   * player's new square, whether it is told to step (a forward move of at most 100) or
   * to jump.
   */
  lemma MoverFollowsPlayer(view: Movement.BoardView, from: int, square: int)
    requires forall q :: 1 <= q <= Movement.LastSquare ==> q in view.positioned
    requires 1 <= from <= Movement.LastSquare && square <= Movement.LastSquare
    ensures var steps := square - from;
            steps > 0 ==> Movement.Reached(view, from, Movement.Target(from, steps)) == square
  {
    if square > from {
      Movement.MoveOnFullBoard(view, from, square - from);
    }
  }
}
