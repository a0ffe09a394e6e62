# Snakes & Ladders rules engine

A Dafny model of the rules engine of a Unity Snakes & Ladders game, with proofs about it.
The model keeps only the integer, turn-by-turn logic and drops the rendering, physics and
input handling. It covers:

- **Turn engine** (`GameManager`): a dice value arrives, then
  - a player who has not started must roll `startingDiceValue` to enter on square 1, and
    entering gives another turn;
  - a move that reaches or passes `winningSquare` lands exactly on it and wins;
  - a roll of 6 gives an extra turn when `allowExtraTurnOnSix` is set;
  - otherwise the turn passes to the next player, modulo the player count.
- **`Player` record**, with its lifecycle methods.
- **Snake/ladder registry**, built from a configured list.
- **Zigzag board numbering** of the board generator, with the grid it fills and rebuilds.
- **Stepping loop** of the piece mover.

Modules:

| module | file | contents |
|---|---|---|
| `TurnRules` | turn_rules.dfy | the manager's fields as a value `Game`, and each of its operations as a function on `Game` |
| `Manager` | game_manager.dfy | the class `GameManager`; each method is proved to change its fields exactly as the matching `TurnRules` function does |
| `TurnProperties` | turn_properties.dfy | what the rules promise: each kind of roll, the turn scan, start, reset, and invariants kept over a whole game |
| `Players` | player.dfy | the `Player` class and its state as a value |
| `SnakeLadderData` | snake_ladder_data.dfy | the `SnakeLadder` entry and its validity |
| `SnakeLadderManager` | snake_ladder_manager.dfy | the list-to-table construction, the lookups and the traditional layout |
| `BoardNumbering` | board_numbering.dfy | the square-number ↔ cell arithmetic and `Square_N` names |
| `BoardGenerator` | board_generator.dfy | the generator's children and the `boardSquares` grid |
| `Movement` | player_movement.dfy | the mover's busy flag, target clamping and stepping loop |
| `CSharp` | csharp.dfy | C# `int` semantics: 32-bit range, truncating `/` and `%`, `ToString`, `int.TryParse` |
| `Wrappers` | wrappers.dfy | `Option` |

The turn rules follow the code, with the differences listed under "Left out":

- No snake or ladder is applied during play: `ProcessDiceRoll` never consults the registry.
- Nothing waits for a move to finish.
- After a win, `isWaitingForDiceRoll` stays true. Later rolls are refused only because
  `isGameActive` is false.

The manager also gives orders to other components:

- it raises four events (`OnPlayerTurnStarted`, `OnDiceRolled`, `OnPlayerMoved`, `OnPlayerWon`);
- it asks AI components to take a turn;
- it tells each piece's mover to step or to jump.

These orders are appended to an `events` log in the order they are issued. The log is how
the proofs count wins.

Dice values are plain integers supplied by the caller, and the turn rules accept any of
them. A square plus a roll is a 32-bit `int` sum, wrapping as in C#. The lemmas about a
whole game take rolls that a six-sided die can show, 1..6, and a `winningSquare` that such
a roll cannot push past `int.MaxValue`, at most `int.MaxValue` - 6.

## Model

| member | source | states |
|---|---|---|
| TurnRules.NewGame | Assets/Scripts/GameManager.cs:29-34 | the manager before `Start`: no players, index 0, not running, not waiting, last value 0, no AI components, an empty log |
| TurnRules.Clamp | Assets/Scripts/GameManager.cs:135-139 | `Mathf.Clamp`: the result lies in min..max, and a value already in range is kept |
| TurnRules.MovePlayerToSquare | Assets/Scripts/GameManager.cs:515-536 | without a game object nothing changes. Otherwise only player i's square changes. The mover is told to step (32-bit distance > 0) or to jump, then `OnPlayerMoved` fires |
| TurnRules.MoverCommand | Assets/Scripts/GameManager.cs:523-531 | a positive distance is a `MovePlayer` order of that many steps, anything else a `SetPosition` jump to the square. `TurnProperties.MoverFollowsPlayer` shows a step order ends on the same square on a full board |
| TurnRules.BeginTurn | Assets/Scripts/GameManager.cs:324-357 | `OnPlayerTurnStarted` is logged for the current player, followed by a `TakeTurn` request exactly when that player is AI and has an AI component, and nothing else is logged. The game waits for a roll unless that player is AI and has no AI component. No other field changes |
| TurnRules.Scan | Assets/Scripts/GameManager.cs:321-366 | the search loop keeps the players, the counts and last value. It leaves a valid index and never starts a game that was stopped |
| TurnRules.StartNextTurn | Assets/Scripts/GameManager.cs:315-367 | a stopped game is left as it is. Otherwise the search runs, keeping the players and a valid index |
| TurnRules.PlayerWonStep | Assets/Scripts/GameManager.cs:538-548 | `PlayerWon`: the game stops and `OnPlayerWon` is logged. Everything else, including the index and the wait flag, stays |
| TurnRules.PassTurn | Assets/Scripts/GameManager.cs:502-510 | ending a roll that did not win: the players and counts are kept, the index stays valid, and a stopped game stays stopped |
| TurnRules.ProcessDiceRoll | Assets/Scripts/GameManager.cs:442-513 | every branch keeps the invariant (valid index, two players in a running game), the number of players, the counts and the last value |
| TurnRules.HandleDiceRoll | Assets/Scripts/GameManager.cs:387-403 | keeps the invariant, the number of players, and the AI components and counts |
| TurnRules.Rolls | Assets/Scripts/GameManager.cs:387-403 | a sequence of rolls keeps the invariant and the number of players |
| TurnRules.CreatedCount | Assets/Scripts/GameManager.cs:191-194 | the loop makes no more players than there are names |
| TurnRules.CreatedPlayers | Assets/Scripts/GameManager.cs:191-238 | one player per pass of the loop, `CreatedCount` in all |
| TurnRules.OffBoardPlacements | Assets/Scripts/GameManager.cs:233-234 | each created player's mover is put on square 0, in creation order |
| TurnRules.CreatePlayers | Assets/Scripts/GameManager.cs:178-248 | the players replaced by the created ones, with movers placed off the board; `TurnProperties.CreatePlayersAIFirst` states their ids, names, kinds and the AI set |
| TurnRules.StartGame | Assets/Scripts/GameManager.cs:251-286 | starting, refused or not, keeps the invariant |
| TurnRules.ResetStates | Assets/Scripts/GameManager.cs:296-298 | every player is reset, in order, and none is added or removed |
| TurnRules.ResetPlacements | Assets/Scripts/GameManager.cs:299-306 | the off-board placements a reset sends; `TurnRules.ResetPlacementsOffBoard` states which |
| TurnRules.ResetPlacementsOffBoard | Assets/Scripts/GameManager.cs:299-306 | at most one order per player, each a `SetPosition(0)` to a player with a game object. When every player has one, every mover is placed, in list order |
| TurnRules.ResetGame | Assets/Scripts/GameManager.cs:289-313 | a reset game satisfies the invariant |
| TurnRules.SetNumberOfPlayers | Assets/Scripts/GameManager.cs:576-579 | the count ends in 2..10, an in-range value is kept, and nothing else changes |
| TurnRules.SetNumberOfAIPlayers | Assets/Scripts/GameManager.cs:581-584 | the AI count ends in 0..numberOfPlayers, an in-range value is kept, and nothing else changes |
| TurnRules.InitializeGame | Assets/Scripts/GameManager.cs:108-162 | nothing without a generated board, otherwise the clamps and the player creation; `TurnProperties.InitializeGameClamps` and `InitializeGameWaitsForBoard` state what results |
| TurnProperties.ScanFindsFirstActive | Assets/Scripts/GameManager.cs:321-362 | the search gives the turn to the first active player found walking cyclically from the current index |
| TurnProperties.ScanNoneActive | Assets/Scripts/GameManager.cs:321-366 | with nobody active, the search walks once round the table and stops the game |
| TurnProperties.NoActivePlayerStopsGame | Assets/Scripts/GameManager.cs:364-366 | `StartNextTurn` with nobody active only clears `isGameActive`, and the index ends where it began |
| TurnProperties.TurnGoesToCurrent | Assets/Scripts/GameManager.cs:324-357 | an active current player keeps the turn. `OnPlayerTurnStarted` fires for them, then their AI component, if they are AI and have one, is asked to play. The game waits for a roll exactly when the player is not an AI without AI component |
| TurnProperties.RollRejected | Assets/Scripts/GameManager.cs:389-390 | a roll while the game is stopped or not waiting changes nothing |
| TurnProperties.RollsAfterGameOver | Assets/Scripts/GameManager.cs:389-390 | once the game has stopped, every later sequence of rolls changes nothing |
| TurnProperties.EntryRoll | Assets/Scripts/GameManager.cs:447-463 | rolling `startingDiceValue` to enter: the player is now started, on square 1, and the same player keeps the turn. Nobody else changes, the roll is recorded, and nobody wins |
| TurnProperties.MissedEntry | Assets/Scripts/GameManager.cs:464-476 | any other value by an unstarted player: no player changes. The index moves to (index + 1) mod count, the roll is recorded, and nobody wins |
| TurnProperties.WinningRoll | Assets/Scripts/GameManager.cs:481-489 | a move whose 32-bit sum reaches `winningSquare`: the player lands exactly on it and the game stops. The index stays, and `isWaitingForDiceRoll` stays true. `OnPlayerWon` fires once, as the last event |
| TurnProperties.OrdinaryRoll | Assets/Scripts/GameManager.cs:481-511 | a move short of the win: the player moves to the 32-bit sum of square and roll, and nobody else changes. A 6 with `allowExtraTurnOnSix` keeps the index. Any other roll advances it mod count |
| TurnProperties.OrdinaryRollNoWin | Assets/Scripts/GameManager.cs:492-511 | a move short of the win announces no winner |
| TurnProperties.PassTurnNoWin | Assets/Scripts/GameManager.cs:502-510 | passing the turn announces no winner |
| TurnProperties.BeginTurnNoWin | Assets/Scripts/GameManager.cs:333-350 | starting a turn announces no winner |
| TurnProperties.ScanNoWin | Assets/Scripts/GameManager.cs:321-366 | the search for the next player announces no winner |
| TurnProperties.RollWins | Assets/Scripts/GameManager.cs:481-489 | one roll adds at most one `PlayerWon`. A roll that adds one leaves the game stopped, and no roll starts a stopped game |
| TurnProperties.RollKeepsInvariants | Assets/Scripts/GameManager.cs:474-509 | one roll of 1..6, with `winningSquare` at most `int.MaxValue` - 6, keeps the index valid and every player active with a game object. Squares stay 0 before entering and in 1..`winningSquare` after. No square decreases |
| TurnProperties.RollsKeepInvariants | Assets/Scripts/GameManager.cs:387-513 | over any sequence of rolls of 1..6, with `winningSquare` at most `int.MaxValue` - 6, the invariants hold throughout, no square ever decreases, and at most one player wins |
| TurnProperties.StartGameRefuses | Assets/Scripts/GameManager.cs:254-270 | with fewer than two players or no generated board, `StartGame` only creates players (when there were none). It does not start the game or move the index |
| TurnProperties.StartGameStarts | Assets/Scripts/GameManager.cs:251-286 | with two or more players, or none yet and names for all, on a generated board: the game runs and player 0 has the turn. New players' movers are placed first, then `OnPlayerTurnStarted` for player 0 and, for an AI with a component, its `TakeTurn`. The game waits unless player 0 is AI without a component |
| TurnProperties.ResetGameRestores | Assets/Scripts/GameManager.cs:289-313 | after a reset: not running, not waiting, index 0, last value 0. Every player is back to a new player's state with the same identity, and the AI components stay |
| TurnProperties.ResetGameReady | Assets/Scripts/GameManager.cs:289-313 | a reset game satisfies every play invariant, and resetting it again leaves the players as they are |
| TurnProperties.CreatePlayersAIFirst | Assets/Scripts/GameManager.cs:191-246 | players are numbered from 1 with the configured names. The first `numberOfAIPlayers` are AI, and the AI set holds exactly their indices. Too few names stop the loop at the names' count |
| TurnProperties.InitializeGameClamps | Assets/Scripts/GameManager.cs:134-155 | on a generated board the player count ends in 2..10, changed only when it was outside. The AI count is capped by it, and that many players are made when there are names |
| TurnProperties.InitializeGameWaitsForBoard | Assets/Scripts/GameManager.cs:128-132 | without a generated board, initialisation changes nothing |
| TurnProperties.MoverFollowsPlayer | Assets/Scripts/GameManager.cs:523-527 | on a fully positioned board, a forward step order ends the mover on the player's new square |
| Manager.GameManager.constructor | Assets/Scripts/GameManager.cs:108-162 | the component after `InitializeGame`, given whether the board is generated |
| Manager.GameManager.CreatePlayers | Assets/Scripts/GameManager.cs:178-248 | the fields become `TurnRules.CreatePlayers` of the old ones, with fresh player objects. The result is false exactly where the C# loop runs out of names |
| Manager.GameManager.AddPlayer | Assets/Scripts/GameManager.cs:193-246 | one pass of the loop: a fresh player object joins, AI when its index is below `numberOfAIPlayers`, with its mover placed on square 0 |
| Manager.GameManager.StartNextTurn | Assets/Scripts/GameManager.cs:315-367 | the fields become `TurnRules.StartNextTurn` of the old ones |
| Manager.GameManager.FindActivePlayer | Assets/Scripts/GameManager.cs:321-366 | the `while` loop: the search ends at the player `TurnRules.Scan` gives the turn to, or finds nobody active |
| Manager.GameManager.BeginTurn | Assets/Scripts/GameManager.cs:324-357 | the fields become `TurnRules.BeginTurn` of the old ones |
| Manager.GameManager.MovePlayerToSquare | Assets/Scripts/GameManager.cs:515-536 | the fields become `TurnRules.MovePlayerToSquare` of the old ones. The player object is updated in place |
| Manager.GameManager.PlayerWon | Assets/Scripts/GameManager.cs:538-548 | the fields become `TurnRules.PlayerWonStep` of the old ones |
| Manager.GameManager.ProcessDiceRoll | Assets/Scripts/GameManager.cs:442-513 | the fields become `TurnRules.ProcessDiceRoll` of the old ones |
| Manager.GameManager.EntryRoll | Assets/Scripts/GameManager.cs:447-477 | the not-yet-started branch, as `TurnRules.ProcessDiceRoll` |
| Manager.GameManager.MoveRoll | Assets/Scripts/GameManager.cs:478-512 | the on-the-board branch, as `TurnRules.ProcessDiceRoll` |
| Manager.GameManager.PassTurn | Assets/Scripts/GameManager.cs:502-510 | the fields become `TurnRules.PassTurn` of the old ones |
| Manager.GameManager.HandleDiceRoll | Assets/Scripts/GameManager.cs:387-403 | the fields become `TurnRules.HandleDiceRoll` of the old ones |
| Manager.GameManager.StartGame | Assets/Scripts/GameManager.cs:251-286 | the fields become `TurnRules.StartGame` of the old ones |
| Manager.GameManager.ResetGame | Assets/Scripts/GameManager.cs:289-313 | the fields become `TurnRules.ResetGame` of the old ones |
| Manager.GameManager.ResetPlayers | Assets/Scripts/GameManager.cs:296-307 | the `foreach` loop: every player object is reset, and each mover with a game object is put on square 0, in order |
| Manager.GameManager.ResetPlayer | Assets/Scripts/GameManager.cs:298-306 | one pass of that loop: player k is reset, and its mover is placed on square 0 when it has a game object |
| Manager.GameManager.SetNumberOfPlayers | Assets/Scripts/GameManager.cs:576-579 | the fields become `TurnRules.SetNumberOfPlayers` of the old ones |
| Manager.GameManager.SetNumberOfAIPlayers | Assets/Scripts/GameManager.cs:581-584 | the fields become `TurnRules.SetNumberOfAIPlayers` of the old ones |
| Manager.GameManager.GetCurrentPlayer | Assets/Scripts/GameManager.cs:551-558 | the current player exactly when the index is in range, otherwise null |
| Players.InitialState | Assets/Scripts/Player.cs:14-23 | a new player keeps the given id, name, kind and object, on square 0, not started, active |
| Players.ResetState | Assets/Scripts/Player.cs:25-30 | a reset player is a new player with the same identity |
| Players.StartedState | Assets/Scripts/Player.cs:32-36 | started, on square 1, nothing else changed |
| Players.MovedState | Assets/Scripts/Player.cs:38-41 | only the square changes |
| Players.ResetIdempotent | Assets/Scripts/Player.cs:25-30 | resetting twice is resetting once |
| Players.ResetUndoesProgress | Assets/Scripts/Player.cs:25-41 | a reset erases starting and every move |
| Players.Player.constructor | Assets/Scripts/Player.cs:14-23 | the object holds `InitialState` of its arguments |
| Players.Player.Reset | Assets/Scripts/Player.cs:25-30 | the object goes to `ResetState` of its old state |
| Players.Player.StartGame | Assets/Scripts/Player.cs:32-36 | the object goes to `StartedState` of its old state |
| Players.Player.MoveToSquare | Assets/Scripts/Player.cs:38-41 | the object goes to `MovedState` of its old state |
| SnakeLadderData.SnakeLadder.IsValid | Assets/Scripts/SnakeLadderData.cs:21-31 | a valid entry never starts and ends on the same square |
| SnakeLadderData.NewSnakeLadder | Assets/Scripts/SnakeLadderData.cs:12-18 | start, end and kind are stored as given, and the name is "Ladder" or "Snake" by kind |
| SnakeLadderData.LadderValidIffGoesUp | Assets/Scripts/SnakeLadderData.cs:23-26 | a ladder is valid if and only if it goes up |
| SnakeLadderData.SnakeValidIffGoesDown | Assets/Scripts/SnakeLadderData.cs:27-30 | a snake is valid if and only if it goes down |
| SnakeLadderData.SelfLoopNeverValid | Assets/Scripts/SnakeLadderData.cs:21-31 | no entry from a square to itself is valid, of either kind |
| SnakeLadderData.ConstructorDoesNotValidate | Assets/Scripts/SnakeLadderData.cs:12-18 | the constructor takes any two squares: the entry is valid exactly when a ladder goes up or a snake goes down, so wrong-way entries are built too |
| SnakeLadderManager.BuildMap | Assets/Scripts/SnakeLadderManager.cs:32-63 | the table built by the insertion loop; `BuildMapFirstWins`, `BuildMapEntries` and `BuildMapSize` state its keys, entries and size |
| SnakeLadderManager.BuildMapFirstWins | Assets/Scripts/SnakeLadderManager.cs:38-55 | a square is in the table exactly when some valid entry starts there, and it maps to the first such entry in list order |
| SnakeLadderManager.BuildMapEntries | Assets/Scripts/SnakeLadderManager.cs:38-55 | every table entry is keyed by its own start square, is valid, and comes from the list |
| SnakeLadderManager.BuildMapSize | Assets/Scripts/SnakeLadderManager.cs:38-55 | the table has at most as many entries as the list |
| SnakeLadderManager.BuildMapAppendNew | Assets/Scripts/SnakeLadderManager.cs:40-45 | a valid entry for a square not yet in the table is added under its start square |
| SnakeLadderManager.BuildMapDistinct | Assets/Scripts/SnakeLadderManager.cs:38-55 | valid entries with distinct start squares are all kept: one table entry each, keyed by the start squares |
| SnakeLadderManager.TraditionalLayout | Assets/Scripts/SnakeLadderManager.cs:190-209 | the traditional layout has fifteen entries |
| SnakeLadderManager.TraditionalLayoutKinds | Assets/Scripts/SnakeLadderManager.cs:192-209 | seven ladders followed by eight snakes. All are valid, with both ends in 1..100 |
| SnakeLadderManager.TraditionalIndexOfLayout | Assets/Scripts/SnakeLadderManager.cs:192-209 | each start square of the layout is identified with its position, and no end square is a start square |
| SnakeLadderManager.TraditionalLayoutNoClashes | Assets/Scripts/SnakeLadderManager.cs:192-209 | no two entries share a start square, and no entry ends where another starts |
| SnakeLadderManager.TraditionalTableSize | Assets/Scripts/SnakeLadderManager.cs:188-211 | the table built from the layout holds all fifteen entries |
| SnakeLadderManager.SnakeLadderManager.constructor | Assets/Scripts/SnakeLadderManager.cs:8-21 | the configured list and an empty table |
| SnakeLadderManager.SnakeLadderManager.InitializeSnakesAndLadders | Assets/Scripts/SnakeLadderManager.cs:32-63 | the list is kept and the table becomes the one built from it: valid entries only, first per start square |
| SnakeLadderManager.SnakeLadderManager.HasSnakeOrLadder | Assets/Scripts/SnakeLadderManager.cs:66-69 | with a table built from the list: true exactly when a valid entry starts on the square |
| SnakeLadderManager.SnakeLadderManager.GetDestination | Assets/Scripts/SnakeLadderManager.cs:72-79 | the destination differs from the square exactly when something starts there. A ladder leads up and a snake down, to the end of the first valid entry for the square |
| SnakeLadderManager.SnakeLadderManager.GetSnakeLadder | Assets/Scripts/SnakeLadderManager.cs:82-89 | some entry exactly when `HasSnakeOrLadder`. It is the first valid entry starting on the square |
| SnakeLadderManager.SnakeLadderManager.AddSnakeLadder | Assets/Scripts/SnakeLadderManager.cs:167-179 | a valid entry is appended and the table rebuilt. An invalid entry leaves the list and the table as they were |
| SnakeLadderManager.Appended | Assets/Scripts/SnakeLadderManager.cs:167-179 | the list `AddSnakeLadder` leaves: extended by the entry only when it is valid, as that method's contract states |
| SnakeLadderManager.SnakeLadderManager.CreateTraditionalSnakesAndLadders | Assets/Scripts/SnakeLadderManager.cs:188-213 | the list becomes the traditional layout, and the table the one built from it |
| SnakeLadderManager.SnakeLadderManager.AddTraditionalLadders | Assets/Scripts/SnakeLadderManager.cs:192-199 | the seven ladder calls append the first seven entries of the layout |
| SnakeLadderManager.SnakeLadderManager.AddTraditionalSnakes | Assets/Scripts/SnakeLadderManager.cs:201-209 | the eight snake calls append the last eight entries of the layout |
| SnakeLadderManager.SnakeLadderManager.ClearAllSnakesAndLadders | Assets/Scripts/SnakeLadderManager.cs:216-222 | the list and the table are both empty, and consistent |
| CSharp.Wrap32 | Assets/Scripts/SnakeLadderBoardGenerator.cs:256 | unchecked `int` arithmetic: the result is in range, equals the true value when that fits, and differs from it by a multiple of 2^32 |
| CSharp.Quot | Assets/Scripts/SnakeLadderBoardGenerator.cs:256 | C# `/` by a positive divisor: floor division for a non-negative dividend, never positive for a negative one |
| CSharp.Rem | Assets/Scripts/SnakeLadderBoardGenerator.cs:257 | C# `%`: quotient × divisor + remainder is the dividend, and the remainder takes the dividend's sign |
| CSharp.IntToString | Assets/Scripts/SnakeLadderBoardGenerator.cs:102 | `ToString` of a non-negative value is its plain decimal digits |
| CSharp.TryParseInt32 | Assets/Scripts/SnakeLadderBoardGenerator.cs:254 | `int.TryParse` succeeds only with a 32-bit value and at least one digit |
| CSharp.NatToStringRoundTrip | Assets/Scripts/SnakeLadderBoardGenerator.cs:254 | parsing the rendering of a non-negative `int` gives it back |
| BoardNumbering.SquaresFitInt32 | Assets/Scripts/SnakeLadderBoardGenerator.cs:6 | every square number of a board side up to 46340 fits in an `int` |
| BoardNumbering.CellOf | Assets/Scripts/SnakeLadderBoardGenerator.cs:256-263 | the row, column and zigzag mirror with C#'s wrapping `-` and truncating `/` and `%`; `CellOfInRange`, `CellOfInBoundsIff`, `NumberAtCellOf` and `CellOfInjective` state its meaning |
| BoardNumbering.NumberAt | Assets/Scripts/SnakeLadderBoardGenerator.cs:43-66 | the number the generation loop writes into a cell; `NumberAtInRange` and `CellOfNumberAt` relate it to `CellOf` |
| BoardNumbering.NumberAtInRange | Assets/Scripts/SnakeLadderBoardGenerator.cs:43-66 | the number written into a cell of the board is in 1..size² |
| BoardNumbering.CellOfInRange | Assets/Scripts/SnakeLadderBoardGenerator.cs:293-300 | for squares 1..size²: row = (n-1)/size and col = (n-1)%size, with col mirrored on odd rows |
| BoardNumbering.CellOfInBoundsIff | Assets/Scripts/SnakeLadderBoardGenerator.cs:256-272 | the bounds check accepts the cell of an `int` n if and only if 1 ≤ n ≤ size². This includes negative n and the wrap at `int.MinValue` |
| BoardNumbering.NumberAtCellOf | Assets/Scripts/SnakeLadderBoardGenerator.cs:327-334 | the cell the lookup computes for square n carries the number n that the generator wrote |
| BoardNumbering.CellOfNumberAt | Assets/Scripts/SnakeLadderBoardGenerator.cs:53-64 | the cell in which the generator writes a number is the cell the lookup computes for that number |
| BoardNumbering.CellOfInjective | Assets/Scripts/SnakeLadderBoardGenerator.cs:293-300 | distinct squares 1..size² get distinct cells |
| BoardNumbering.ConsecutiveAdjacent | Assets/Scripts/SnakeLadderBoardGenerator.cs:45-66 | consecutive squares are neighbours in a row, or one above the other at a row's end |
| BoardNumbering.SquareName | Assets/Scripts/SnakeLadderBoardGenerator.cs:102 | a square's name starts with `Square_` |
| BoardNumbering.ParseSquareName | Assets/Scripts/SnakeLadderBoardGenerator.cs:250-254 | a name parses only if it starts with `Square_` and the rest is an `int` |
| BoardNumbering.SquareNameRoundTrip | Assets/Scripts/SnakeLadderBoardGenerator.cs:250-254 | the name given to square n parses back to n |
| BoardGenerator.GeneratedChildren | Assets/Scripts/SnakeLadderBoardGenerator.cs:43-66 | size² children, and the k-th is square k+1 with its cell |
| BoardGenerator.CreateSquare | Assets/Scripts/SnakeLadderBoardGenerator.cs:72-117 | the square object with its `Square_N` name and `SquareData`; `CreateSquareReadsBack` states how it reads back |
| BoardGenerator.CreateSquareReadsBack | Assets/Scripts/SnakeLadderBoardGenerator.cs:72-117 | a created square is filed under the cell it was created for and needs no fix. For a non-negative number its name parses back to the number |
| BoardGenerator.Locations | Assets/Scripts/SnakeLadderBoardGenerator.cs:233-266 | one cell per child: the one its data or its name gives |
| BoardGenerator.Location | Assets/Scripts/SnakeLadderBoardGenerator.cs:233-266 | one child's cell: from its data, else from its name, else (-1,-1); `NameLocationInBounds` and `FixedKeepsLocation` state its meaning |
| BoardGenerator.NeedsFix | Assets/Scripts/SnakeLadderBoardGenerator.cs:162-171 | a child without `SquareData` whose name parses as `Square_N`; `Fixed` and `FixCount` state what the fix does with it |
| BoardGenerator.NameLocationInBounds | Assets/Scripts/SnakeLadderBoardGenerator.cs:250-272 | a child placed by its name lands on the board exactly when the name is that of a square 1..size² |
| BoardGenerator.LastAt | Assets/Scripts/SnakeLadderBoardGenerator.cs:268-271 | a cell holds the last child placed there, or is empty when none is |
| BoardGenerator.PlacedCount | Assets/Scripts/SnakeLadderBoardGenerator.cs:268-272 | `squaresFound` never exceeds the number of children |
| BoardGenerator.Fixed | Assets/Scripts/SnakeLadderBoardGenerator.cs:161-191 | the name is kept. A child gets `SquareData` exactly when it had data already or its name parses, and a child with data is left alone |
| BoardGenerator.FixCount | Assets/Scripts/SnakeLadderBoardGenerator.cs:154-191 | `fixedCount` never exceeds the number of children |
| BoardGenerator.FindFrom | Assets/Scripts/SnakeLadderBoardGenerator.cs:308-313 | `Transform.Find`: the first child with the name, or none when no child has it |
| BoardGenerator.FixedKeepsLocation | Assets/Scripts/SnakeLadderBoardGenerator.cs:173-187 | the data a fix adds names the cell the child's name already gave |
| BoardGenerator.FixingPreservesLocations | Assets/Scripts/SnakeLadderBoardGenerator.cs:194-198 | rebuilding after a fix files every child where it would have been filed before the fix |
| BoardGenerator.NothingToFix | Assets/Scripts/SnakeLadderBoardGenerator.cs:195-203 | when nothing needs fixing, every child is left as it is |
| BoardGenerator.PlacedCountAllInBounds | Assets/Scripts/SnakeLadderBoardGenerator.cs:268-272 | when every cell is on the board, every child is counted |
| BoardGenerator.GeneratedLocation | Assets/Scripts/SnakeLadderBoardGenerator.cs:241-245 | on a generated board the k-th child is filed under the cell of square k+1 |
| BoardGenerator.GeneratedLastAt | Assets/Scripts/SnakeLadderBoardGenerator.cs:268-271 | on a generated board, each cell of the rebuilt grid holds the child numbered for it |
| BoardGenerator.GeneratedAllPlaced | Assets/Scripts/SnakeLadderBoardGenerator.cs:268-272 | on a generated board all size² children are counted as found |
| BoardGenerator.RebuildRestoresGenerated | Assets/Scripts/SnakeLadderBoardGenerator.cs:227-276 | rebuilding from a generated board's children gives back the grid the generator wrote, and finds every square |
| BoardGenerator.SnakeLadderBoardGenerator.constructor | Assets/Scripts/SnakeLadderBoardGenerator.cs:24-25 | the given side, 100 squares, the existing children, no grid |
| BoardGenerator.SnakeLadderBoardGenerator.ClearBoard | Assets/Scripts/SnakeLadderBoardGenerator.cs:139-149 | no children and no grid |
| BoardGenerator.SnakeLadderBoardGenerator.GenerateBoard | Assets/Scripts/SnakeLadderBoardGenerator.cs:28-70 | a fresh grid in which every cell holds the child numbered for it, and the children are squares 1..size² in creation order |
| BoardGenerator.SnakeLadderBoardGenerator.GenerateRow | Assets/Scripts/SnakeLadderBoardGenerator.cs:50-66 | the inner loop fills one row and advances the counter by the side |
| BoardGenerator.SnakeLadderBoardGenerator.GenerateSquare | Assets/Scripts/SnakeLadderBoardGenerator.cs:53-65 | one pass of the inner loop: the next square is created and filed in its zigzag cell |
| BoardGenerator.SnakeLadderBoardGenerator.ReadLocation | Assets/Scripts/SnakeLadderBoardGenerator.cs:238-266 | the cell a child is filed under: its data's, else its name's, else (-1, -1) |
| BoardGenerator.SnakeLadderBoardGenerator.RebuildBoardArray | Assets/Scripts/SnakeLadderBoardGenerator.cs:227-276 | each cell of a fresh grid holds the last child located there, and the result counts the children on the board |
| BoardGenerator.SnakeLadderBoardGenerator.FixSquare | Assets/Scripts/SnakeLadderBoardGenerator.cs:159-191 | one pass of the fixing loop, as `Fixed` and `NeedsFix` say |
| BoardGenerator.SnakeLadderBoardGenerator.FixMissingScripts | Assets/Scripts/SnakeLadderBoardGenerator.cs:152-204 | every child is fixed, and the count is that of the children needing a fix. Only a non-zero count rebuilds the grid, to the cells the children had before the fix |
| BoardGenerator.SnakeLadderBoardGenerator.IsBoardGenerated | Assets/Scripts/SnakeLadderBoardGenerator.cs:207-224 | true exactly when a grid exists or at least 100 children do. In the latter case the grid is rebuilt first |
| BoardGenerator.SnakeLadderBoardGenerator.Slot | Assets/Scripts/SnakeLadderBoardGenerator.cs:327-336 | a grid slot is read only for squares 1..100 whose cell is inside the grid |
| BoardGenerator.SnakeLadderBoardGenerator.SlotOfGenerated | Assets/Scripts/SnakeLadderBoardGenerator.cs:327-338 | on a generated board, square n's slot is filled exactly when n ≤ size², and then holds the child created for n |
| BoardGenerator.SnakeLadderBoardGenerator.GetSquare | Assets/Scripts/SnakeLadderBoardGenerator.cs:320-342 | null outside 1..100 or without a grid. On a generated board it returns the square created for n, exactly when n ≤ size² |
| BoardGenerator.SnakeLadderBoardGenerator.PositionLookup | Assets/Scripts/SnakeLadderBoardGenerator.cs:287-316 | zero outside 1..100. Otherwise the grid slot, else the first child named `Square_n`, else zero. On a generated board, square n's own child |
| BoardGenerator.SnakeLadderBoardGenerator.GetSquarePosition | Assets/Scripts/SnakeLadderBoardGenerator.cs:279-317 | zero on a board that does not answer as generated, otherwise the lookup |
| Movement.Target | Assets/Scripts/PlayerMovement.cs:114-120 | never above 100. A sum that fits in an `int` is kept up to 100 and clamped to 100 beyond |
| Movement.Reached | Assets/Scripts/PlayerMovement.cs:140-191 | the loop never moves back and never passes the target, and does nothing when the target is not ahead |
| Movement.ReachedFullPath | Assets/Scripts/PlayerMovement.cs:140-187 | with every square of the path positioned, the loop reaches the target |
| Movement.ReachedPathPositioned | Assets/Scripts/PlayerMovement.cs:140-187 | every square passed through has a position |
| Movement.ReachedStopsAtGap | Assets/Scripts/PlayerMovement.cs:148-152 | stopping short of the target happens only at a square, or its successor, without a position |
| Movement.MoveOnFullBoard | Assets/Scripts/PlayerMovement.cs:114-187 | on a fully positioned board a move ends on min(from + steps, 100), and a move of no steps or fewer stays put |
| Movement.PlayerMovement.constructor | Assets/Scripts/PlayerMovement.cs:17-20 | on square 1, idle, keyboard input allowed |
| Movement.PlayerMovement.MovePlayer | Assets/Scripts/PlayerMovement.cs:97-134 | ignored while moving, without a board or on an ungenerated board. Otherwise the piece ends where the loop reaches for the clamped target, idle |
| Movement.PlayerMovement.MoveToSquare | Assets/Scripts/PlayerMovement.cs:136-199 | the stepping loop ends on `Reached` of the start and the target, with `isMoving` false |
| Movement.PlayerMovement.SetPosition | Assets/Scripts/PlayerMovement.cs:209-239 | the square becomes the argument, even out of range. It stays unchanged without a board |

## Left out

- `DiceGenerator.cs` and `AIPlayer.cs` are not part of this model. A roll is a parameter of `HandleDiceRoll`. An AI component's `TakeTurn` is an `AITurnRequested` entry in the log.
- Floating point and geometry are left out: positions, `Vector3`, rotations, interpolation, colours, materials, text meshes and line indicators. `GetSquarePosition` answers with the child it would take the position from, or `Zero`.
- Coroutines and timing are left out. A move runs to completion inside the call that starts it, so `isMoving` is never seen true between calls, and stopping a running coroutine is not modelled.
- Unity wiring and debugging are left out: `Start`, `Update`, keyboard polling, `ConnectDiceGenerator`, `RollDiceForCurrentPlayer`, `PromptPlayerToRoll`, `TestInputSystem`, `FindFirstObjectByType`, `Debug.Log` and the `showDebugInfo` branches.
- `InitializeDefaultColors` and the player colours are left out. With no prefab, and fewer colours than players, C# throws `IndexOutOfRangeException` at `playerColors[i]`. The model does not capture that.
- The C# events are delegates; here they are log entries, and the listeners are not modelled. The same applies to the commands sent to each player's `PlayerMovement`. `TurnProperties.MoverFollowsPlayer` relates the two models on a fully positioned board.
- `GetAllPlayers`, `IsGameActive`, `IsWaitingForDiceRoll`, `GetCurrentSquare` and `GetAllSnakesAndLadders` are plain accessors of fields the model exposes, and have no members of their own. `Movement.PlayerMovement.IsMoving` is such an accessor too, and has no contract beyond its body.
- Manager.GameManager.constructor: `InitializeGame` asks `IsBoardGenerated` twice, and a first `false` returns early. The model takes one boolean for both answers. A missing board generator is the same as an ungenerated one.
- Manager.GameManager.StartGame: whether the board is generated is a parameter. With no board generator assigned, the C# code throws `NullReferenceException`, which is not modelled.
- Manager.GameManager.CreatePlayers: requires an empty player list. Both callers in the source create players only when there are none, so destroying the previous players' objects is not modelled.
- Manager.GameManager.CreatePlayers: the `IndexOutOfRangeException` when names run out is modelled as the result `false`, with the players made so far kept.
- Manager.GameManager.CreatePlayers: with a prefab, the `GetSquarePosition(1)` placement is part of the lost geometry. The mover component is modelled as always present, because the loop adds it when missing.
- Manager.GameManager.MovePlayerToSquare: takes the player's index rather than the `Player` reference. Every caller passes the current player.
- TurnProperties.RollKeepsInvariants: holds only for rolls 1..6 and a `winningSquare` at most `int.MaxValue` - 6. A larger roll, or a winning square nearer `int.MaxValue`, can wrap the sum negative and move the player back, and the model does so as C# does.
- TurnProperties.RollsKeepInvariants: takes the same bounds on every roll and on `winningSquare`, for the same reason.
- `(currentPlayerIndex + 1) % players.Count` is computed without wrap-around. The index is below the player count, so the sum cannot overflow.
- TurnRules.SetNumberOfAIPlayers: `Mathf.Clamp` with a negative `numberOfPlayers` (min above max) is modelled as the same chain of comparisons. The contract states the bounds only for `numberOfPlayers >= 0`.
- BoardGenerator.SnakeLadderBoardGenerator.constructor: requires a board side in 1..46340. A side of 0 makes the name arithmetic divide by zero. A larger side makes the C# `size * size` overflow; it is far beyond any array Unity could allocate.
- BoardGenerator.SnakeLadderBoardGenerator.IsBoardGenerated: the method is modelled on the generator's children. The game manager and the mover use only its answer, as a boolean.
- The movement model's squares reach at most 100, hard-coded as in the source, while `winningSquare` is a setting. With a win above 100 the mover stops at 100 while the player record says otherwise. The turn rules do not depend on it.
- `StartsWith("Square_")` is culture-sensitive in .NET. It is modelled as an ordinal prefix test, and `int.TryParse` as the invariant-culture `NumberStyles.Integer` grammar.
