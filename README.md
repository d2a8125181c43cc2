# Tic-tac-toe in Dafny

This is a verified model of the core of a terminal tic-tac-toe game. The game is played on a
3×3 board whose tiles carry the numbers of a magic square (8 1 6 / 3 5 7 / 4 9 2). A player
wins when three of their tiles add up to 15. The opponent can be a friend at the same
keyboard, an easy computer that plays a random empty spot, or an unbeatable computer that
runs an exhaustive minimax search. Numbered menus, chosen by typing a number on a line, lead
into and out of a game. The screens sit on a stack managed by a state manager.

The project has one Dafny module per part of the program:

- `Wrappers`: `Option` and `Result`.
- `Input`: `Key`, `InputEvent` and `InputMode`, as plain values.
- `Roles`: the two roles, O and X.
- `GameBoard` (`src/game/board.rs`):
  - The board is a class. `Set`, `Reset` and `HighlightSolution` change it in place.
  - `GetAvailableSpots` is a nested loop.
  - Win detection is the pure function `ComputeResult`. It follows the source's own
    pipeline: owned tiles, their 3-combinations in lexicographic order, the first one
    summing to 15.
  - It is proved to mean "the role holds one of the eight lines".
- `Search` (`src/game/artificial_intelligence.rs`):
  - `Minimax` places and takes back tiles on one board and keeps the first best move.
  - It is proved equal to the recursive function `BestMove`, and the minimax property is
    proved about that function.
- `Players` (`src/game/players.rs`): the three controllers, as a closed datatype.
  - What a key press does is a pure function.
  - What a controller does when its turn starts is one as well.
- `Menus` (`src/menus.rs`): numbered menus.
- `States` (`src/states`):
  - The playing state is a class over a board. Its `handle_action` turn cascade is proved
    equal to `Resolve`, a function on a `Game` value, and the end-of-game hand-off
    (scores, winner, highlighted line) is proved about `Resolve`.
  - The three menu states and the state manager (a stack of states) are classes too.

Randomness becomes parameters:

- `first < 2` is the player who opens a game.
- `dice: nat -> nat` gives the easy computer's draw for each turn number. The drawn
  index is `dice(turns) % |spots|`, so every spot can be drawn (`BasicComputerCanPickAnySpot`).

## Model

| member | source | states |
|---|---|---|
| Roles.Other | src/game/players.rs:11-15 | the other role differs from the given one |
| GameBoard.TileFor | src/game/board.rs:195-198 | the tile `set` writes keeps the cell's magic number and belongs to the role |
| GameBoard.Place | src/game/board.rs:194-199 | taking cell `i` gives it a tile of the role with the same magic number and leaves every other tile as it was |
| GameBoard.CountEmpty | src/game/board.rs:131-141 | the number of empty tiles among the first `k` is at most `k` |
| GameBoard.EmptyCount | src/game/board.rs:131-141 | a board has at most nine empty tiles |
| GameBoard.CountEmptyAfterPlace | src/game/board.rs:190-199 | placing a tile on an empty cell lowers the empty count of every prefix that holds it by one |
| GameBoard.PlaceDecreasesEmptyCount | src/game/board.rs:190-199 | a successful `set` leaves exactly one empty tile fewer, which bounds the minimax recursion and the turn cascade |
| GameBoard.CountEmptyAfterClear | src/game/board.rs:207-216 | clearing a taken cell raises the empty count of every prefix that holds it by one |
| GameBoard.NoEmptyCount | src/game/board.rs:131-141 | the empty count is zero exactly when no tile is empty |
| GameBoard.AvailableSpots | src/game/board.rs:131-141 | there are as many spots listed as empty tiles |
| GameBoard.SpotsInSpec | src/game/board.rs:131-141 | the spots the nested loop collects are exactly the empty cells scanned so far, in column-major order |
| GameBoard.AvailableSpotsSpec | src/game/board.rs:131-141 | the available spots are exactly the empty cells on the grid, each once, in column-major order (x outer, y inner), and there are as many as empty tiles |
| GameBoard.SpotsCountIsEmptyCount | src/game/board.rs:131-141 | there are as many available spots as empty tiles |
| GameBoard.OwnedFromSpec | src/game/board.rs:87-95 | the filtered indices are exactly the cells owned by the role, strictly increasing and in range |
| GameBoard.OwnedIndices | src/game/board.rs:87-95 | every owned index is a cell of the board |
| GameBoard.OwnedIndicesSpec | src/game/board.rs:87-95 | the indices `compute_result` filters are exactly the role's cells, in increasing order |
| GameBoard.FindWithPairSpec | src/game/board.rs:96-106 | the search over the third index finds the first triple summing to 15, or reports that none exists |
| GameBoard.FindWithFirstSpec | src/game/board.rs:96-106 | the search over the two last indices finds the lexicographically first qualifying triple, or none exists |
| GameBoard.FindTripleSpec | src/game/board.rs:96-106 | `combinations(3).find(..)` returns the lexicographically first owned triple summing to 15, and nothing exactly when no owned triple sums to 15 |
| GameBoard.SplitFirst | src/game/board.rs:96 | an ascending index list is its head followed by an ascending tail above it |
| GameBoard.MagicTripleIsLine | src/game/board.rs:65-69 | three distinct cells add up to 15 exactly when they form one of the eight winning lines (src/game/board.rs:232-240) |
| GameBoard.IndexPosition | src/game/board.rs:109-110 | `(index % 3, index / 3)` is a grid position whose row-major index is the index again |
| GameBoard.PositionIndex | src/game/board.rs:127 | the row-major index `y * 3 + x` of a grid position maps back to the position |
| GameBoard.SolutionFromIndices | src/game/board.rs:107-114 | converting a solution's cells to indices and back gives the solution |
| GameBoard.WinningSolutionShape | src/game/board.rs:232-240 | every winning line lists three grid cells in strictly increasing row-major order |
| GameBoard.FoundTripleIsOwnedLine | src/game/board.rs:96-114 | a qualifying triple, turned into positions, is a winning line the role holds entirely |
| GameBoard.OwnedLineQualifies | src/game/board.rs:96-106 | a line the role holds is a qualifying triple of its owned cells |
| GameBoard.ComputeResult | src/game/board.rs:86-123 | a win is reported for the role asked about; without a win the game is NotFinished exactly before the ninth turn, and a Draw from then on |
| GameBoard.ComputeResultSpec | src/game/board.rs:86-123 | `compute_result(r)` is a win for `r` exactly when `r` holds one of the eight lines; the win is on a held line, the first in index order; without a win the game is unfinished before turn 9 and a draw from then on |
| GameBoard.OnlyTriple | src/game/board.rs:96-106 | with exactly three owned cells that sum to 15, they are the triple found |
| GameBoard.NoTripleFromTwo | src/game/board.rs:96-106 | with two owned cells or fewer, no triple is found |
| GameBoard.OwnedAfterPlace | src/game/board.rs:195-198 | after placing for a role, the role owns the placed cell and keeps every other cell it had |
| GameBoard.WinningSolutionWins | src/game/board.rs:243-283 | taking the three cells of any winning line in order on a new board gives NotFinished, NotFinished, then a win on exactly that line, for either role |
| GameBoard.DrawOnNinthTurn | src/game/board.rs:285-291 | from turn 7, X on the centre is NotFinished and O below it on the ninth turn is a Draw |
| GameBoard.Board.constructor | src/game/board.rs:61-72 | a new board has nine empty tiles with the magic numbers 8 1 6 3 5 7 4 9 2 in row-major order, no turn taken, the cursor at (1, 1) and no highlight |
| GameBoard.Board.Get | src/game/board.rs:126-128 | on a consistent board, the tile at `(x, y)` carries the magic number of row-major cell `y * 3 + x` |
| GameBoard.Board.IsEmpty | src/game/board.rs:149-154 | a spot is empty exactly when it is among the available spots |
| GameBoard.Board.GetAvailableSpots | src/game/board.rs:131-141 | the nested loops return exactly the available spots |
| GameBoard.Board.HighlightSolution | src/game/board.rs:144-146 | the solution is highlighted and nothing else changes |
| GameBoard.Board.Set | src/game/board.rs:190-204 | on an empty cell the role's tile replaces it with the same magic number, the turn counter goes up and the result is `compute_result` for that role; on a taken cell nothing changes and the result is NotFinished |
| GameBoard.Board.Reset | src/game/board.rs:207-216 | the cell becomes empty with its magic number kept and the turn counter goes down, even on a cell that was already empty |
| GameBoard.Board.Clone | src/game/board.rs:50 | a new board with the same tiles, turns, cursor and highlight |
| GameBoard.NewTilesAllEmpty | src/game/board.rs:65-69 | the new board's nine tiles are all empty and carry the magic-square numbers |
| GameBoard.PlaceKeepsMagic | src/game/board.rs:194-198 | placing a tile keeps every magic number in place |
| GameBoard.ResetUndoesSet | src/game/board.rs:331-365 | resetting a cell right after setting it restores the tiles |
| Search.WithScore | src/game/artificial_intelligence.rs:17-19 | a move carrying only a score sits at (0, 0) |
| Search.TerminalScore | src/game/artificial_intelligence.rs:24-31 | the score of a full board is -10, 0 or 10, and 10 only when X has a line and O has none |
| Search.TerminalScoreSpec | src/game/artificial_intelligence.rs:24-31 | on a full board the score is -10 exactly when O holds a line, 10 exactly when X does and O does not, and 0 when neither does |
| Search.FirstBest | src/game/artificial_intelligence.rs:47-65 | the chosen index is a move no other move beats for the player, and every earlier move is strictly worse |
| Search.ChildScore | src/game/artificial_intelligence.rs:34-43 | a spot's score, searched with the other role to move on the board with that spot taken, is -10, 0 or 10 |
| Search.ChildMoves | src/game/artificial_intelligence.rs:32-46 | one move per available spot, in the same order, carrying that spot and a score of -10, 0 or 10 |
| Search.BestMove | src/game/artificial_intelligence.rs:23-66 | the best move's score is -10, 0 or 10, and with spots left its position is an available spot |
| Search.BestMoveSpec | src/game/artificial_intelligence.rs:23-66 | on a full board the move is the terminal score at (0, 0); otherwise it is the first available spot whose searched score no other spot beats for the player (X maximises, O minimises) |
| Search.ChildMovesScores | src/game/artificial_intelligence.rs:35-43 | each collected move is its spot with that spot's searched score |
| Search.Minimax | src/game/artificial_intelligence.rs:23-66 | `minimax` returns `BestMove` of the board it was given, and leaves the board's tiles, turns, cursor and highlight as it found them |
| Search.TryAll | src/game/artificial_intelligence.rs:32-46 | the loop over the available spots collects, in their order, one move per spot carrying that spot's searched score (`ChildMoves`), and leaves the board's tiles, turns, cursor and highlight as it found them |
| Search.TryMove | src/game/artificial_intelligence.rs:34-44 | one pass of the loop returns the spot with its searched score and restores the board |
| Search.PickBest | src/game/artificial_intelligence.rs:47-65 | the argmax/argmin loops, from a sentinel of -10000 or 10000, keep the first best move |
| Players.NewPlayer | src/game/players.rs:41-47 | a new player has the given controller and role and no win |
| Players.HumanKeyPress | src/game/players.rs:116-126 | Enter plays the cursor spot exactly when that spot is empty; an arrow key moves the cursor exactly when the spot one step that way is on the grid, and moves it to that spot; any other key does nothing |
| Players.HandleKeyPress | src/game/players.rs:94-97 | computers ignore keys; a human plays the cursor spot exactly on Enter over an empty spot, and moves the cursor exactly on an arrow key that keeps it on the grid (src/game/players.rs:116-126, 143-146) |
| Players.TurnAction | src/game/players.rs:99-104 | a human waits; the easy computer plays the available spot the draw selects; the unbeatable computer plays the position of the minimax best move for X (src/game/players.rs:128-131, 148-152); every play is on an empty spot |
| Players.BasicComputerCanPickAnySpot | src/game/players.rs:99-104 | every available spot is the easy computer's choice for some draw |
| Players.StartTurn | src/game/players.rs:148-152 | `start_turn` returns what `TurnAction` describes; the unbeatable computer searches a copy, so the board is left alone |
| Menus.NewEntry | src/menus.rs:24-35 | a new entry is white, enabled and visible, with the given key and text |
| Menus.ParseUsize | src/menus.rs:89 | a non-empty run of decimal digits parses to the number it denotes exactly when that number fits a `usize`; anything else, the empty line included, parses to nothing |
| Menus.Decimal | src/menus.rs:41 | a key's decimal text is a non-empty run of digits |
| Menus.DecimalRoundTrip | src/menus.rs:41 | reading back a key's decimal text gives the key |
| Menus.ParseDecimal | src/menus.rs:89 | any key that fits a `usize`, typed in decimal, parses to itself |
| Menus.ZerosValue | src/menus.rs:89 | a run of zeros denotes zero |
| Menus.LeadingZerosIgnored | src/menus.rs:89 | leading zeros do not change the number a run of digits denotes |
| Menus.ParseWithLeadingZeros | src/menus.rs:89 | a key typed with leading zeros ("01") parses to the key |
| Menus.FirstWithKey | src/menus.rs:90 | the position found is the first entry with the key; nothing is found only when no entry has it |
| Menus.Menu.constructor | src/menus.rs:80-85 | a new menu has no entries and hands out identifier 0 next |
| Menus.Menu.Push | src/menus.rs:100-105 | the entry is appended under the old next identifier, which is returned, and the next identifier goes up, so identifiers stay distinct and increasing |
| Menus.Menu.HandleInput | src/menus.rs:88-97 | an entry is selected exactly when the line parses and the first entry with that key is enabled and visible; the identifier returned is that first entry's, so a later entry with the same key is never chosen |
| Menus.NumberedMenuInput | src/menus.rs:88-97 | in a menu keyed 1, 2, 3, ... with every entry available, typing `n` selects the `n`-th entry and any other line selects nothing |
| Menus.MenuSelection | src/menus.rs:136-143 | a key event selects nothing; a line selects what the menu's `handle_input` gives |
| States.AwardWin | src/states/playing_state.rs:63-76 | the players keep their order, controllers and roles, and only the ones with the winning role gain one point |
| States.Resolve | src/states/playing_state.rs:44-93 | a move only moves the cursor and `None` changes nothing; a play claims an empty spot for the player to move; the game stays consistent with the same players, and taken spots stay taken; a win is highlighted on a line the winner holds and scored for the winner; a draw leaves no empty spot and the scores unchanged; the game only waits when a human is to move |
| States.Placed | src/states/playing_state.rs:47-52 | the current player's `set` claims an empty spot (one empty spot fewer) and leaves a taken one alone with NotFinished; a win is for the current role on a line it holds; a draw leaves no empty spot |
| States.PlacedSpec | src/states/playing_state.rs:47-52 | on an empty spot the tiles become the board's `Place`, the turn counter goes up, and the result is `compute_result` for the player: a win exactly when the player now holds a line, a draw exactly when it holds none and no spot is left (src/game/board.rs:190-201) |
| States.PlayOutcome | src/states/playing_state.rs:47-88 | a play that completes a line of the player to move ends the game with that player winning, the line `compute_result` reports highlighted and the player scored; a play on the last spot without a line is a draw with scores unchanged; any other play, one on a taken spot included, hands the turn to the other player (`(current + 1) % 2`) on the board as `set` left it |
| States.TakeTurn | src/states/playing_state.rs:80-86 | resolving the next player's `start_turn` keeps every `Resolve` guarantee; a human to move leaves the game as it is, waiting for keys; a computer to move claims the empty spot its `start_turn` picks |
| States.HumanAgainst | src/states/playing_state.rs:21-26 | two players: a human playing O, then the opponent playing X, both without a win |
| States.PlayingState.GameOf | src/states/playing_state.rs:13-17 | a consistent playing state is a consistent game |
| States.PlayingState.WithPlayers | src/states/playing_state.rs:29-42 | the state holds the given players on a new board, and is the opening game (all spots empty, cursor in the centre, player `first` to move) after its first turn |
| States.PlayingState.WithOpponent | src/states/playing_state.rs:21-26 | a human playing O against the given controller playing X, both without a win, after the opening turn |
| States.PlayingState.PlayTurn | src/states/playing_state.rs:80-86 | the state after the current player's `start_turn` is the one `TakeTurn` gives, and the transition is the one its outcome calls for |
| States.PlayingState.HandleAction | src/states/playing_state.rs:44-93 | the new state is the one `Resolve` gives; the transition is None while the game goes on, else a switch to an end-game menu with a copy of the final board, the updated players and the winner |
| States.PlayingState.PlayAt | src/states/playing_state.rs:47-88 | the `Play` arm follows `Resolve` for that play, state and transition alike |
| States.PlayingState.EndWith | src/states/playing_state.rs:53-78 | a switch to a new end-game menu holding a copy of the board, the given players and the winner |
| States.PlayingState.HandleInput | src/states/playing_state.rs:101-114 | Escape quits with the game untouched; any other key is resolved through the current player's `handle_key_press`; a line does nothing |
| States.MainMenuState.constructor | src/states/main_menu_state.rs:14-19 | the menu holds exactly "Play" (key 1, the play entry) and "Quit" (key 2) |
| States.MainMenuState.HandleSelection | src/states/main_menu_state.rs:27-32 | the play entry pushes a new opponent menu above the main menu; anything else quits |
| States.MainMenuState.HandleInput | src/states/main_menu_state.rs:27-32 | a line that parses to 1 (for example "1" or "01") pushes the opponent menu, a line that parses to 2 quits, anything else does nothing (src/menus.rs:136-143) |
| States.ChooseOpponentMenuState.constructor | src/states/choose_opponent_menu_state.rs:19-33 | the menu holds exactly friend, easy, unbeatable and back, keyed 1 to 4 in that order |
| States.ChooseOpponentMenuState.HandleSelection | src/states/choose_opponent_menu_state.rs:41-56 | the friend, easy and unbeatable entries each switch to a new game of a human (O) against that opponent (X); any other entry pops |
| States.ChooseOpponentMenuState.HandleInput | src/states/choose_opponent_menu_state.rs:41-56 | a line that parses to 1, 2 or 3 (for example "3" or "003") starts a game against a friend, the easy computer or the unbeatable computer; a line that parses to 4 goes back; anything else does nothing (src/menus.rs:136-143) |
| States.EndGameMenuState.constructor | src/states/end_game_menu_state.rs:21-32 | the board, players and winner are kept as given; the menu holds exactly "Play again" (key 1) and "Quit" (key 2) |
| States.EndGameMenuState.HandleSelection | src/states/end_game_menu_state.rs:40-47 | "Play again" switches to a new game between the same players, scores kept; anything else quits |
| States.EndGameMenuState.HandleInput | src/states/end_game_menu_state.rs:40-47 | a line that parses to 1 (for example "1" or "01") starts a new game between the same players, a line that parses to 2 quits, anything else does nothing (src/menus.rs:136-143) |
| States.InputModeOf | src/states/playing_state.rs:97-99 | the playing state reads keys and every menu state reads lines (src/menus.rs:132-134) |
| States.HandleStateInput | src/states/mod.rs:64 | the state answers as its own `handle_input` does (`Answered`): the menus by line number; the playing state ends up with the game of its `Reaction` before the call (unchanged on a line or Escape, otherwise the key resolved through the current player's `handle_key_press`), quits on Escape, ignores lines, and hands over the outcome of any other key; it stays consistent, and any state it hands over is new and consistent |
| States.Apply | src/states/mod.rs:70-84 | None and Quit keep the stack; Pop drops the top and keeps the rest (nothing on an empty stack); Push adds on top and keeps the rest; Switch replaces only the top |
| States.PopUndoesPush | src/states/mod.rs:73-76 | a pushed state that pops itself off leaves the stack as it was |
| States.StateManager.constructor | src/states/mod.rs:50-54 | a new manager holds exactly the first state |
| States.StateManager.GetCurrentState | src/states/mod.rs:57-59 | the top of the stack, and nothing exactly when the stack is empty |
| States.StateManager.HandleTransition | src/states/mod.rs:70-84 | the stack becomes the one `Apply` gives, the manager asks to quit exactly on Quit, and no state's objects, those on the stack or the one handed over, are touched |
| States.StateManager.HandleInput | src/states/mod.rs:62-68 | an empty stack gives `NoState` and changes nothing; otherwise the top state answers the input as its `handle_input` does, the transition it returns is applied, the manager quits exactly on Quit, and the objects of the states below the top lie outside the top state's and are untouched |

## Left out

- Rendering is not modelled: `src/rendering.rs`, every `render` and `render_header`, and the
  text wrapping of menu entries. These only produce terminal output. `StateManager::render`
  and the `Rendering` error variant go with them.
- Terminal input is not modelled: raw mode, reading a key or a line, and converting
  crossterm key events. `Key`, `InputEvent` and `InputMode` are kept as plain datatypes.
- The run loop in `src/app.rs` and the start-up in `src/main.rs` are not modelled. They are
  I/O plumbing around `StateManager`.
- Random draws are parameters: the first player is `first`, constrained to `first < 2`,
  and the easy computer's index is `dice(turns) % |spots|`. A draw from `gen_range` is
  uniform; the model only covers which values are possible.
- `box_clone` and the `Box<dyn PlayerController>` / `Box<dyn State>` trait objects are closed
  datatypes (`Controller`, `AppState`).
- `src/game/artificial_intelligence.rs` is written against an older board interface:
  - payload-less `Tile` players;
  - `compute_result()` without a role;
  - `set(.., Tile::Empty)` as the undo.
  The model runs the search on the board of `src/game/board.rs`: a `Role` to move, `Set` to
  try a spot, `Reset` to take it back. The terminal score asks `compute_result` for O first,
  so a full board on which both roles hold a line scores -10.
- The end-game menu's winner is typed `Option<Role>` (the source declares `Option<Tile>` and
  is given `Some(role)`).
- Players.StartTurn, Search.Minimax, Search.TryAll and Search.TryMove: the unbeatable
  computer's search requires `turns + empty tiles <= 255`, so that its `set` calls cannot
  overflow the `u8` turn counter. Every board of a game
  meets this, since its turns and empty tiles add up to 9.
- GameBoard.Board.Set: requires `turns < 255` when the cell is empty, and
  GameBoard.Board.Reset requires `turns > 0`. The source's `u8` arithmetic would overflow
  there, and that panics in a debug build. The counter is otherwise an unbounded `nat`.
- GameBoard.Board.Get, GameBoard.Board.IsEmpty, GameBoard.Board.Set and
  GameBoard.Board.Reset require `y * 3 + x < 9`. The source indexes the tile array with that
  value and panics on a larger one, for example `get(0, 3)`. The model leaves that panic out;
  every caller passes a position on the grid.
- Menus.ParseUsize: models `str::parse::<usize>` as a non-empty run of ASCII digits whose
  value is at most 2^64 − 1. A leading `+`, which Rust also accepts, is not modelled.
- The `usize` overflow of `next_id` and of a player's score is not modelled. Both are
  unbounded naturals.
- States.Resolve and States.PlayingState.HandleAction require a fitting action:
  - a cursor move or a play stays on the grid;
  - a play on a taken spot comes only while some spot is still empty.
  Every action a controller produces meets this. On a full board, a play on a taken spot
  would pass the turn on. A human to move would then stop the cascade. The easy computer
  would panic on an empty range. Two unbeatable computers would pass the turn between them
  forever.
