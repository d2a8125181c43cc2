// The screens of the game and the stack that holds them (src/states): the
// playing state, the three menu states and the state manager.

module States {
  import opened Wrappers
  import opened Input
  import opened Roles
  import opened GameBoard
  import opened Players
  import opened Menus

  /** A state on the stack (the `Box<dyn State>` implementations, as a closed set). */
  datatype AppState =
    | MainMenu(mainMenu: MainMenuState)
    | ChooseOpponent(chooseOpponent: ChooseOpponentMenuState)
    | Playing(playing: PlayingState)
    | EndGame(endGame: EndGameMenuState)

  /** What a state asks the manager to do after handling an input. */
  datatype StateTransition = None | Pop | Push(state: AppState) | Quit | Switch(state: AppState)

  /** The errors of the state manager (rendering errors are not modelled). */
  datatype StateManagerError = NoState

  // ---------------------------------------------------------------------
  // The game as a value, and the turn controller as a function on it.

  /** Everything `handle_action` reads or changes: the board's tiles, turn
      counter, cursor and highlight, the player to move and the players. */
  datatype Game = Game(
    tiles: Tiles, turns: nat, cursor: PlayingPosition, highlight: Option<Solution>,
    current: nat, players: seq<Player>)

  /** How resolving an action ends: the game goes on, or it is over with these
      players (scores updated) and this winner (none for a draw). */
  datatype Outcome = Continue | Finished(players: seq<Player>, winner: Option<Role>)

  /** A game in progress: the board is consistent, its turn counter counts the
      taken tiles, and there are two players, one of them to move. */
  ghost predicate GameValid(g: Game) {
    MagicTiles(g.tiles) && InGrid(g.cursor) && g.turns + EmptyCount(g.tiles) == 9 &&
    |g.players| == 2 && g.current < 2
  }

  /** An action the turn controller can resolve: cursor moves and plays stay
      on the grid, and a play on a taken spot only comes while some spot is
      still empty (on a full board it would hand the turn on forever). */
  ghost predicate ActionFits(g: Game, action: PlayerAction) {
    && (action.Move? ==> InGrid(action.pos))
    && (action.Play? ==> InGrid(action.pos) && (g.tiles[IndexOf(action.pos)].Empty? || EmptyCount(g.tiles) > 0))
  }

  /** The players after `winner` wins: same players in the same order, the
      ones with the winning role one point up. */
  function AwardWin(players: seq<Player>, winner: Role): (r: seq<Player>)
    ensures |r| == |players|
    ensures forall i :: 0 <= i < |players| ==>
      r[i].controller == players[i].controller && r[i].role == players[i].role &&
      r[i].score == players[i].score + (if players[i].role == winner then 1 else 0)
  {
    seq(|players|, i requires 0 <= i < |players| =>
      if players[i].role == winner then Player(players[i].controller, players[i].score + 1, winner)
      else players[i])
  }

  /** `winner` holds one of the eight lines, and that line is highlighted. */
  ghost predicate WonBy(g: Game, winner: Role) {
    g.highlight.Some? && g.highlight.value in WinningSolutions && OwnsSolution(g.tiles, winner, g.highlight.value)
  }

  /** What every resolution guarantees, from game `g` to `r`: the game stays
      consistent with the same players, taken spots stay taken, a win is
      highlighted and scored for the winner, and a draw leaves no spot and no
      score change. */
  ghost predicate Settles(g: Game, r: (Game, Outcome)) {
    && GameValid(r.0) && r.0.players == g.players
    && (forall i :: 0 <= i < 9 && !g.tiles[i].Empty? ==> r.0.tiles[i] == g.tiles[i])
    && (r.1.Finished? && r.1.winner.Some? ==>
          WonBy(r.0, r.1.winner.value) && r.1.players == AwardWin(g.players, r.1.winner.value))
    && (r.1.Finished? && r.1.winner.None? ==> EmptyCount(r.0.tiles) == 0 && r.1.players == g.players)
  }

  /** `g` is the game `with_players` starts from: every spot empty, no turn
      taken, the cursor in the centre, nothing highlighted, and `players`
      with player `first` to move. */
  ghost predicate IsOpening(g: Game, players: seq<Player>, first: nat) {
    && GameValid(g) && EmptyCount(g.tiles) == 9 && g.turns == 0
    && g.cursor == (1, 1) && g.highlight.None? && g.current == first && g.players == players
  }

  /** `handle_action` on the game as a value, with `dice` standing for the
      random draws of the basic computer (one per turn number). A move only
      moves the cursor and nothing changes on `None`; a play moves the cursor
      and places the current player's tile if the spot is empty. A draw or a
      win ends the game; otherwise the other player takes a turn. */
  function Resolve(g: Game, action: PlayerAction, dice: nat -> nat): (r: (Game, Outcome))
    requires GameValid(g) && ActionFits(g, action)
    decreases EmptyCount(g.tiles), if action.Play? && !g.tiles[IndexOf(action.pos)].Empty? then 2 else 0
    ensures Settles(g, r)
    ensures action.Move? ==> r == (g.(cursor := action.pos), Continue)
    ensures action.None? ==> r == (g, Continue)
    ensures action.Play? && g.tiles[IndexOf(action.pos)].Empty? ==>
      OwnedBy(r.0.tiles[IndexOf(action.pos)], g.players[g.current].role)
    ensures action.Play? && r.1.Continue? ==> r.0.players[r.0.current].controller.Human?
  {
    match action
    case Move(pos) => (g.(cursor := pos), Continue)
    case None => (g, Continue)
    case Play(pos) =>
      var (g1, result) := Placed(g.(cursor := pos), pos);
      match result
      case Draw =>
        (g1, Finished(g.players, Option.None))
      case Winner(winner, solution) =>
        (g1.(highlight := Some(solution)), Finished(AwardWin(g.players, winner), Some(winner)))
      case NotFinished =>
        TakeTurn(g1.(current := (g1.current + 1) % 2), dice)
  }

  /** `board.set` at `pos` for the player to move, on the game as a value: an
      empty spot gets the player's tile and the result of the board for that
      player; a taken spot changes nothing and the game is not finished. */
  function Placed(g: Game, pos: PlayingPosition): (r: (Game, GameResult))
    requires GameValid(g) && InGrid(pos)
    ensures GameValid(r.0) && r.0.players == g.players && r.0.current == g.current
    ensures r.0.cursor == g.cursor && r.0.highlight == g.highlight
    ensures forall i :: 0 <= i < 9 && !g.tiles[i].Empty? ==> r.0.tiles[i] == g.tiles[i]
    ensures g.tiles[IndexOf(pos)].Empty? ==>
      EmptyCount(r.0.tiles) == EmptyCount(g.tiles) - 1 && OwnedBy(r.0.tiles[IndexOf(pos)], g.players[g.current].role)
    ensures !g.tiles[IndexOf(pos)].Empty? ==> r == (g, NotFinished)
    ensures r.1.Winner? ==> (r.1.role == g.players[g.current].role &&
      r.1.solution in WinningSolutions && OwnsSolution(r.0.tiles, r.1.role, r.1.solution))
    ensures r.1.Draw? ==> EmptyCount(r.0.tiles) == 0
    ensures r.1.NotFinished? && g.tiles[IndexOf(pos)].Empty? ==> EmptyCount(r.0.tiles) > 0
  {
    var i := IndexOf(pos);
    var role := g.players[g.current].role;
    if g.tiles[i].Empty? then
      PlaceDecreasesEmptyCount(g.tiles, i, role);
      PlaceKeepsMagic(g.tiles, i, role);
      var g1 := g.(tiles := Place(g.tiles, i, role), turns := g.turns + 1);
      ComputeResultSpec(g1.tiles, g1.turns, role);
      (g1, ComputeResult(g1.tiles, g1.turns, role))
    else
      (g, NotFinished)
  }

  /** The current player's turn: resolve what its `start_turn` returns. The
      game only waits for input (`Continue`) when a human is to move. */
  function TakeTurn(g: Game, dice: nat -> nat): (r: (Game, Outcome))
    requires GameValid(g) && EmptyCount(g.tiles) > 0
    decreases EmptyCount(g.tiles), 1
    ensures Settles(g, r)
    ensures r.1.Continue? ==> r.0.players[r.0.current].controller.Human?
    ensures g.players[g.current].controller.Human? ==> r == (g, Continue)
    ensures !g.players[g.current].controller.Human? ==>
      var a := TurnAction(g.players[g.current].controller, g.tiles, g.turns, dice(g.turns));
      g.tiles[IndexOf(a.pos)].Empty? && OwnedBy(r.0.tiles[IndexOf(a.pos)], g.players[g.current].role)
  {
    Resolve(g, TurnAction(g.players[g.current].controller, g.tiles, g.turns, dice(g.turns)), dice)
  }

  /** `board.set` for the player to move, in the board's terms: on an empty
      spot the tiles become `Place`'s, the turn counter goes up, and the result
      is `compute_result` for that player, a win exactly when the player now
      holds a line and a draw exactly when it holds none and no spot is left. */
  lemma PlacedSpec(g: Game, pos: PlayingPosition)
    requires GameValid(g) && InGrid(pos) && g.tiles[IndexOf(pos)].Empty?
    ensures var role := g.players[g.current].role;
      var r := Placed(g, pos);
      && r.0.tiles == Place(g.tiles, IndexOf(pos), role) && r.0.turns == g.turns + 1
      && r.1 == ComputeResult(r.0.tiles, r.0.turns, role)
      && (r.1.Winner? <==> HoldsLine(r.0.tiles, role))
      && (r.1.Draw? <==> !HoldsLine(r.0.tiles, role) && EmptyCount(r.0.tiles) == 0)
  {
    var role := g.players[g.current].role;
    var i := IndexOf(pos);
    PlaceDecreasesEmptyCount(g.tiles, i, role);
    PlaceKeepsMagic(g.tiles, i, role);
    ComputeResultSpec(Place(g.tiles, i, role), g.turns + 1, role);
  }

  /** How a play ends. Claiming a spot that completes a line of the player to
      move ends the game: that player wins, the line `compute_result` reports
      is highlighted and the player is scored. Claiming the last spot without a
      line ends it in a draw with the scores unchanged. In every other case,
      a play on a taken spot included, the other player takes its turn on the
      board as `set` left it. */
  lemma PlayOutcome(g: Game, pos: PlayingPosition, dice: nat -> nat)
    requires GameValid(g) && ActionFits(g, Play(pos))
    ensures g.tiles[IndexOf(pos)].Empty? ==>
      Placed(g.(cursor := pos), pos).0.tiles == Place(g.tiles, IndexOf(pos), g.players[g.current].role)
    ensures var role := g.players[g.current].role;
      var claims := g.tiles[IndexOf(pos)].Empty?;
      var tiles := Place(g.tiles, IndexOf(pos), role);
      var r := Resolve(g, Play(pos), dice);
      && (claims && HoldsLine(tiles, role) ==>
            && r.0.tiles == tiles && r.0.turns == g.turns + 1 && r.0.cursor == pos && r.0.current == g.current
            && r.0.highlight.Some? && ComputeResult(tiles, g.turns + 1, role) == Winner(role, r.0.highlight.value)
            && r.1 == Finished(AwardWin(g.players, role), Some(role)))
      && (claims && !HoldsLine(tiles, role) && EmptyCount(tiles) == 0 ==>
            r == (g.(cursor := pos, tiles := tiles, turns := g.turns + 1), Finished(g.players, Option.None)))
      && (!(claims && (HoldsLine(tiles, role) || EmptyCount(tiles) == 0)) ==>
            r == TakeTurn(Placed(g.(cursor := pos), pos).0.(current := (g.current + 1) % 2), dice))
  {
    var p := Placed(g.(cursor := pos), pos);
    assert Resolve(g, Play(pos), dice) ==
      match p.1
      case Draw => (p.0, Finished(g.players, Option.None))
      case Winner(winner, solution) => (p.0.(highlight := Some(solution)), Finished(AwardWin(g.players, winner), Some(winner)))
      case NotFinished => TakeTurn(p.0.(current := (p.0.current + 1) % 2), dice);
    if g.tiles[IndexOf(pos)].Empty? {
      PlacedSpec(g.(cursor := pos), pos);
    }
  }

  // ---------------------------------------------------------------------
  // The playing state.

  /** The players of `with_opponent`: a human playing O, then `opponent`
      playing X, both without a win yet. */
  function HumanAgainst(opponent: Controller): (players: seq<Player>)
    ensures |players| == 2
    ensures players[0].controller == Human && players[0].role == Role.O
    ensures players[1].controller == opponent && players[1].role == Role.X
    ensures players[0].score == 0 && players[1].score == 0
  {
    [NewPlayer(Human, Role.O), NewPlayer(opponent, Role.X)]
  }

  /** The board of `b` is the board of game `g`. */
  ghost predicate BoardHolds(b: Board, g: Game)
    reads b
  {
    b.tiles == g.tiles && b.turns == g.turns && b.playing_position == g.cursor && b.highlighted_solution == g.highlight
  }

  /** The transition `handle_action` returns for outcome `r.1`: none while the
      game goes on, otherwise a switch to an end-game menu holding a copy of
      the final board, the players with their new scores, and the winner. */
  ghost predicate Hands(t: StateTransition, r: (Game, Outcome))
    reads if t.Switch? && t.state.EndGame? then {t.state.endGame.board} else {}
  {
    match r.1
    case Continue => t == StateTransition.None
    case Finished(players, winner) =>
      && t.Switch? && t.state.EndGame?
      && t.state.endGame.players == players && t.state.endGame.winner == winner
      && BoardHolds(t.state.endGame.board, r.0)
  }

  /** `p` is where the first turn of a new game, player `first` opening,
      leaves it. */
  ghost predicate Opened(p: PlayingState, first: nat, dice: nat -> nat)
    reads p, p.board
  {
    exists g0 :: IsOpening(g0, p.players, first) && p.GameOf() == TakeTurn(g0, dice).0
  }

  /** The state where the game is played. */
  class PlayingState {
    const board: Board
    var current_player: nat
    const players: seq<Player>

    /** A consistent board whose turn counter counts its taken tiles, two
        players and one of them to move. */
    ghost predicate Valid()
      reads this, board
    {
      board.Valid() && board.TurnsMatchTiles() && |players| == 2 && current_player < 2
    }

    /** This state as a game value. */
    ghost function GameOf(): (g: Game)
      reads this, board
      ensures Valid() ==> GameValid(g)
    {
      Game(board.tiles, board.turns, board.playing_position, board.highlighted_solution, current_player, players)
    }

    /** `with_players`: a new board, player `first` (the random draw, 0 or 1)
        to move, and its first turn resolved; the transition is dropped. */
    constructor WithPlayers(players: seq<Player>, first: nat, dice: nat -> nat)
      requires |players| == 2 && first < 2
      ensures Valid() && fresh(board)
      ensures this.players == players && Opened(this, first, dice)
    {
      board := new Board();
      current_player := first;
      this.players := players;
      new;
      NewTilesAllEmpty();
      ghost var g0 := GameOf();
      assert IsOpening(g0, players, first);
      var _ := PlayTurn(dice);
    }

    /** `with_opponent`: a human playing O against `controller` playing X,
        both without a win yet. */
    static method WithOpponent(controller: Controller, first: nat, dice: nat -> nat) returns (p: PlayingState)
      requires first < 2
      ensures fresh(p) && fresh(p.board) && p.Valid()
      ensures p.players == HumanAgainst(controller)
      ensures Opened(p, first, dice)
    {
      p := new PlayingState.WithPlayers(HumanAgainst(controller), first, dice);
    }

    /** The current player's `start_turn`, handed to `handle_action`. */
    method PlayTurn(dice: nat -> nat) returns (t: StateTransition)
      requires Valid() && EmptyCount(board.tiles) > 0
      modifies this, board
      decreases EmptyCount(board.tiles), 1, 2
      ensures Valid()
      ensures GameOf() == TakeTurn(old(GameOf()), dice).0
      ensures Hands(t, TakeTurn(old(GameOf()), dice))
      ensures t.Switch? ==> fresh(StateRepr(t.state)) && StateValid(t.state)
    {
      AvailableSpotsSpec(board.tiles);
      var action := StartTurn(players[current_player].controller, board, dice(board.turns));
      t := HandleAction(action, dice);
    }

    /** `handle_action`, proved to follow `Resolve`. */
    method HandleAction(action: PlayerAction, dice: nat -> nat) returns (t: StateTransition)
      requires Valid() && ActionFits(GameOf(), action)
      modifies this, board
      decreases EmptyCount(board.tiles), if action.Play? && !board.tiles[IndexOf(action.pos)].Empty? then 2 else 0, 1
      ensures Valid()
      ensures GameOf() == Resolve(old(GameOf()), action, dice).0
      ensures Hands(t, Resolve(old(GameOf()), action, dice))
      ensures t.Switch? ==> fresh(StateRepr(t.state)) && StateValid(t.state)
    {
      match action
      case Move(pos) =>
        board.playing_position := pos;
        t := StateTransition.None;
      case None =>
        t := StateTransition.None;
      case Play(pos) =>
        t := PlayAt(pos, dice);
    }

    /** The `Play` arm of `handle_action`: move the cursor to `pos`, set the
        current player's tile there, then end the game or hand the turn on. */
    method PlayAt(pos: PlayingPosition, dice: nat -> nat) returns (t: StateTransition)
      requires Valid() && ActionFits(GameOf(), Play(pos))
      modifies this, board
      decreases EmptyCount(board.tiles), if !board.tiles[IndexOf(pos)].Empty? then 2 else 0, 0
      ensures Valid()
      ensures GameOf() == Resolve(old(GameOf()), Play(pos), dice).0
      ensures Hands(t, Resolve(old(GameOf()), Play(pos), dice))
      ensures t.Switch? ==> fresh(StateRepr(t.state)) && StateValid(t.state)
    {
      board.playing_position := pos;
      ghost var g1 := GameOf();
      var result := board.Set(pos.0, pos.1, players[current_player].role);
      assert (GameOf(), result) == Placed(g1, pos);
      match result
      case Draw =>
        t := EndWith(players, Option.None);
      case Winner(role, solution) =>
        board.HighlightSolution(solution);
        t := EndWith(AwardWin(players, role), Some(role));
      case NotFinished =>
        current_player := (current_player + 1) % 2;
        t := PlayTurn(dice);
    }

    /** The switch to the end-game menu over a copy of this board. */
    method EndWith(players: seq<Player>, winner: Option<Role>) returns (t: StateTransition)
      requires |players| == 2
      ensures t.Switch? && t.state.EndGame? && fresh(StateRepr(t.state)) && StateValid(t.state)
      ensures t.state.endGame.players == players && t.state.endGame.winner == winner
      ensures BoardHolds(t.state.endGame.board, GameOf())
    {
      var copy := board.Clone();
      var e := new EndGameMenuState(copy, players, winner);
      t := Switch(EndGame(e));
      assert StateRepr(t.state) == {e, e.menu, e.board};
    }

    /** `handle_input`: Escape quits and leaves the game as it is; any other
        key goes through the current player's `handle_key_press` and
        `handle_action`; a line does nothing. */
    method HandleInput(input: InputEvent, dice: nat -> nat) returns (t: StateTransition)
      requires Valid()
      modifies this, board
      ensures Valid()
      ensures input.Line? ==> t == StateTransition.None && GameOf() == old(GameOf())
      ensures input == Key(Escape) ==> t == Quit && GameOf() == old(GameOf())
      ensures input.Key? && input.key != Escape ==>
        var r := old(Resolve(GameOf(), HandleKeyPress(players[current_player].controller, board, input.key), dice));
        GameOf() == r.0 && Hands(t, r)
      ensures t.Switch? ==> fresh(StateRepr(t.state)) && StateValid(t.state)
    {
      match input
      case Key(k) =>
        if k == Escape {
          t := Quit;
        } else {
          var action := HandleKeyPress(players[current_player].controller, board, k);
          t := HandleAction(action, dice);
        }
      case Line(_) =>
        t := StateTransition.None;
    }
  }

  // ---------------------------------------------------------------------
  // The menu states.

  /** The main menu: "Play" (key 1) and "Quit" (key 2). */
  class MainMenuState {
    const menu: Menu
    const play_entry: MenuEntryId

    ghost predicate Valid()
      reads menu
    {
      && menu.entries == [(MenuEntryId(0), NewEntry("Play", 1)), (MenuEntryId(1), NewEntry("Quit", 2))]
      && menu.next_id == 2 && play_entry == MenuEntryId(0)
    }

    /** `MainMenuState::new`. */
    constructor ()
      ensures Valid() && fresh(menu)
    {
      var m := new Menu();
      var play := m.Push(NewEntry("Play", 1));
      var _ := m.Push(NewEntry("Quit", 2));
      menu := m;
      play_entry := play;
    }

    /** `handle_selection`: "Play" pushes the opponent menu above this one;
        anything else quits. */
    method HandleSelection(entry: MenuEntryId) returns (t: StateTransition)
      ensures entry == play_entry ==>
        t.Push? && t.state.ChooseOpponent? && fresh(StateRepr(t.state)) && StateValid(t.state)
      ensures entry != play_entry ==> t == Quit
    {
      if entry == play_entry {
        var c := new ChooseOpponentMenuState();
        t := Push(ChooseOpponent(c));
        assert StateRepr(t.state) == {c, c.menu};
      } else {
        t := Quit;
      }
    }

    /** The menu state's `handle_input`: line "1" pushes the opponent menu,
        line "2" quits, anything else does nothing. */
    method HandleInput(input: InputEvent) returns (t: StateTransition)
      requires Valid()
      ensures t.Push? <==> input.Line? && ParseUsize(input.line) == Some(1)
      ensures t == Quit <==> input.Line? && ParseUsize(input.line) == Some(2)
      ensures t.Push? || t == Quit || t == StateTransition.None
      ensures t.Push? ==> t.state.ChooseOpponent? && fresh(StateRepr(t.state)) && StateValid(t.state)
    {
      if input.Line? {
        NumberedMenuInput(menu, input.line);
      }
      var selection := MenuSelection(menu, input);
      if selection.Some? {
        t := HandleSelection(selection.value);
      } else {
        t := StateTransition.None;
      }
    }
  }

  /** `t` switches to a new game between `players`, player `first` opening. */
  ghost predicate StartsWith(t: StateTransition, players: seq<Player>, first: nat, dice: nat -> nat)
    reads if t.Switch? && t.state.Playing? then {t.state.playing, t.state.playing.board} else {}
  {
    t.Switch? && t.state.Playing? && t.state.playing.players == players && Opened(t.state.playing, first, dice)
  }

  /** The choice of opponent: a friend (key 1), the easy computer (key 2), the
      unbeatable computer (key 3), or back (key 4). */
  class ChooseOpponentMenuState {
    const against_computer_easy_entry: MenuEntryId
    const against_computer_unbeatable_entry: MenuEntryId
    const against_friend_entry: MenuEntryId
    const menu: Menu

    ghost predicate Valid()
      reads menu
    {
      && menu.entries == [
           (MenuEntryId(0), NewEntry("Against a friend", 1)),
           (MenuEntryId(1), NewEntry("Against the computer (easy)", 2)),
           (MenuEntryId(2), NewEntry("Against the computer (unbeatable)", 3)),
           (MenuEntryId(3), NewEntry("Go back", 4))]
      && menu.next_id == 4 && EntryIds()
    }

    /** The identifiers of the friend, easy and unbeatable entries. */
    predicate EntryIds() {
      && against_friend_entry == MenuEntryId(0)
      && against_computer_easy_entry == MenuEntryId(1)
      && against_computer_unbeatable_entry == MenuEntryId(2)
    }

    /** `ChooseOpponentMenuState::new`. */
    constructor ()
      ensures Valid() && fresh(menu)
    {
      var m := new Menu();
      var friend := m.Push(NewEntry("Against a friend", 1));
      var easy := m.Push(NewEntry("Against the computer (easy)", 2));
      var unbeatable := m.Push(NewEntry("Against the computer (unbeatable)", 3));
      var _ := m.Push(NewEntry("Go back", 4));
      against_computer_easy_entry := easy;
      against_computer_unbeatable_entry := unbeatable;
      against_friend_entry := friend;
      menu := m;
    }

    /** `handle_selection`: an opponent entry replaces this menu with a game
        of a human (O) against that opponent (X); "Go back" pops this menu. */
    method HandleSelection(entry: MenuEntryId, first: nat, dice: nat -> nat) returns (t: StateTransition)
      requires EntryIds() && first < 2
      ensures entry == against_friend_entry ==> StartsWith(t, HumanAgainst(Human), first, dice)
      ensures entry == against_computer_easy_entry ==> StartsWith(t, HumanAgainst(BasicComputer), first, dice)
      ensures entry == against_computer_unbeatable_entry ==> StartsWith(t, HumanAgainst(UnbeatableComputer), first, dice)
      ensures (entry != against_friend_entry && entry != against_computer_easy_entry &&
        entry != against_computer_unbeatable_entry) ==> t == Pop
      ensures t.Switch? ==> fresh(StateRepr(t.state)) && StateValid(t.state)
    {
      var opponent;
      if entry == against_computer_easy_entry {
        opponent := BasicComputer;
      } else if entry == against_computer_unbeatable_entry {
        opponent := UnbeatableComputer;
      } else if entry == against_friend_entry {
        opponent := Human;
      } else {
        return Pop;
      }
      var p := PlayingState.WithOpponent(opponent, first, dice);
      t := Switch(Playing(p));
      assert StateRepr(t.state) == {p, p.board};
    }

    /** The menu state's `handle_input`: lines "1", "2" and "3" start a game
        against a friend, the easy computer and the unbeatable computer; "4"
        goes back; anything else does nothing. */
    method HandleInput(input: InputEvent, first: nat, dice: nat -> nat) returns (t: StateTransition)
      requires Valid() && first < 2
      ensures t.Switch? <==> input.Line? && ParseUsize(input.line).Some? && 1 <= ParseUsize(input.line).value <= 3
      ensures t.Switch? ==>
        StartsWith(t, HumanAgainst([Human, BasicComputer, UnbeatableComputer][ParseUsize(input.line).value - 1]), first, dice)
      ensures t.Switch? ==> fresh(StateRepr(t.state)) && StateValid(t.state)
      ensures t == Pop <==> input.Line? && ParseUsize(input.line) == Some(4)
      ensures t.Switch? || t == Pop || t == StateTransition.None
    {
      if input.Line? {
        NumberedMenuInput(menu, input.line);
      }
      var selection := MenuSelection(menu, input);
      if selection.Some? {
        t := HandleSelection(selection.value, first, dice);
      } else {
        t := StateTransition.None;
      }
    }
  }

  /** The menu shown when a game ends, over the final board: "Play again"
      (key 1) and "Quit" (key 2). */
  class EndGameMenuState {
    const board: Board
    const menu: Menu
    const play_again_entry: MenuEntryId
    const players: seq<Player>
    const winner: Option<Role>

    ghost predicate Valid()
      reads menu
    {
      && menu.entries == [(MenuEntryId(0), NewEntry("Play again", 1)), (MenuEntryId(1), NewEntry("Quit", 2))]
      && menu.next_id == 2 && play_again_entry == MenuEntryId(0) && |players| == 2
    }

    /** `EndGameMenuState::new`: keeps the board, players and winner it is given. */
    constructor (board: Board, players: seq<Player>, winner: Option<Role>)
      requires |players| == 2
      ensures Valid() && fresh(menu)
      ensures this.board == board && this.players == players && this.winner == winner
    {
      var m := new Menu();
      var again := m.Push(NewEntry("Play again", 1));
      var _ := m.Push(NewEntry("Quit", 2));
      this.board := board;
      menu := m;
      play_again_entry := again;
      this.players := players;
      this.winner := winner;
    }

    /** `handle_selection`: "Play again" replaces this menu with a new game
        between the same players, scores kept; anything else quits. */
    method HandleSelection(entry: MenuEntryId, first: nat, dice: nat -> nat) returns (t: StateTransition)
      requires |players| == 2 && first < 2
      ensures entry == play_again_entry ==> StartsWith(t, players, first, dice)
      ensures entry != play_again_entry ==> t == Quit
      ensures t.Switch? ==> fresh(StateRepr(t.state)) && StateValid(t.state)
    {
      if entry == play_again_entry {
        var p := new PlayingState.WithPlayers(players, first, dice);
        t := Switch(Playing(p));
        assert StateRepr(t.state) == {p, p.board};
      } else {
        t := Quit;
      }
    }

    /** The menu state's `handle_input`: line "1" plays again, line "2" quits,
        anything else does nothing. */
    method HandleInput(input: InputEvent, first: nat, dice: nat -> nat) returns (t: StateTransition)
      requires Valid() && first < 2
      ensures t.Switch? <==> input.Line? && ParseUsize(input.line) == Some(1)
      ensures t == Quit <==> input.Line? && ParseUsize(input.line) == Some(2)
      ensures t.Switch? || t == Quit || t == StateTransition.None
      ensures t.Switch? ==> StartsWith(t, players, first, dice)
      ensures t.Switch? ==> fresh(StateRepr(t.state)) && StateValid(t.state)
    {
      if input.Line? {
        NumberedMenuInput(menu, input.line);
      }
      var selection := MenuSelection(menu, input);
      if selection.Some? {
        t := HandleSelection(selection.value, first, dice);
      } else {
        t := StateTransition.None;
      }
    }
  }

  // ---------------------------------------------------------------------
  // Dispatch over the states.

  /** The objects a state owns. */
  ghost function StateRepr(s: AppState): set<object> {
    match s
    case MainMenu(m) => {m, m.menu}
    case ChooseOpponent(c) => {c, c.menu}
    case Playing(p) => {p, p.board}
    case EndGame(e) => {e, e.menu, e.board}
  }

  ghost predicate StateValid(s: AppState)
    reads StateRepr(s)
  {
    match s
    case MainMenu(m) => m.Valid()
    case ChooseOpponent(c) => c.Valid()
    case Playing(p) => p.Valid()
    case EndGame(e) => e.Valid()
  }

  /** How a playing state answers `input`, as a function of the state before
      the call: a line or Escape leaves the game as it is with the turn open;
      any other key is resolved through the current player's
      `handle_key_press`. Menus carry no game, hence `None`. */
  ghost function Reaction(s: AppState, input: InputEvent, dice: nat -> nat): (r: Option<(Game, Outcome)>)
    reads StateRepr(s)
    requires StateValid(s)
    ensures r.Some? <==> s.Playing?
  {
    match s
    case Playing(p) =>
      if input.Key? && input.key != Escape then
        Some(Resolve(p.GameOf(), HandleKeyPress(p.players[p.current_player].controller, p.board, input.key), dice))
      else
        Some((p.GameOf(), Continue))
    case _ => Option.None
  }

  /** What a state's `handle_input` does with `input`, returning `t`;
      `reaction` is the state's `Reaction` before the call. The main menu pushes the
      opponent menu on "1" and quits on "2". The opponent menu starts a game
      against a friend, the easy or the unbeatable computer on "1", "2" or "3"
      and goes back on "4". The end-game menu starts a new game between the
      same players on "1" and quits on "2". A menu does nothing on any other
      input. The playing state ends up with the game of its reaction, quits on
      Escape, ignores lines, and hands over the outcome of any other key. */
  ghost predicate Answered(s: AppState, reaction: Option<(Game, Outcome)>, input: InputEvent, first: nat, dice: nat -> nat, t: StateTransition)
    reads StateRepr(s), if t.Push? || t.Switch? then StateRepr(t.state) else {}
  {
    match s
    case MainMenu(_) =>
      && (t.Push? <==> input.Line? && ParseUsize(input.line) == Some(1))
      && (t == Quit <==> input.Line? && ParseUsize(input.line) == Some(2))
      && (t.Push? || t == Quit || t == StateTransition.None)
      && (t.Push? ==> t.state.ChooseOpponent?)
    case ChooseOpponent(_) =>
      && (t.Switch? <==> input.Line? && ParseUsize(input.line).Some? && 1 <= ParseUsize(input.line).value <= 3)
      && (t.Switch? ==>
            && input.Line? && ParseUsize(input.line).Some? && 1 <= ParseUsize(input.line).value <= 3
            && StartsWith(t, HumanAgainst([Human, BasicComputer, UnbeatableComputer][ParseUsize(input.line).value - 1]), first, dice))
      && (t == Pop <==> input.Line? && ParseUsize(input.line) == Some(4))
      && (t.Switch? || t == Pop || t == StateTransition.None)
    case Playing(p) =>
      && reaction.Some? && p.GameOf() == reaction.value.0
      && (input.Line? ==> t == StateTransition.None)
      && (input == Key(Escape) ==> t == Quit)
      && (input.Key? && input.key != Escape ==> Hands(t, reaction.value))
    case EndGame(e) =>
      && (t.Switch? <==> input.Line? && ParseUsize(input.line) == Some(1))
      && (t == Quit <==> input.Line? && ParseUsize(input.line) == Some(2))
      && (t.Switch? || t == Quit || t == StateTransition.None)
      && (t.Switch? ==> StartsWith(t, e.players, first, dice))
  }

  /** `get_input_mode`: the playing state reads keys, the menus read lines. */
  function InputModeOf(s: AppState): (m: InputMode)
    ensures m == KeyMode <==> s.Playing?
    ensures m == LineMode <==> !s.Playing?
  {
    if s.Playing? then KeyMode else LineMode
  }

  /** A state's `handle_input`. A state it hands over is new and consistent. */
  method HandleStateInput(s: AppState, input: InputEvent, first: nat, dice: nat -> nat) returns (t: StateTransition)
    requires StateValid(s) && first < 2
    modifies StateRepr(s)
    ensures StateValid(s)
    ensures t.Push? || t.Switch? ==> fresh(StateRepr(t.state)) && StateValid(t.state)
    ensures Answered(s, old(Reaction(s, input, dice)), input, first, dice, t)
  {
    match s
    case MainMenu(m) =>
      t := m.HandleInput(input);
    case ChooseOpponent(c) =>
      t := c.HandleInput(input, first, dice);
    case Playing(p) =>
      t := p.HandleInput(input, dice);
    case EndGame(e) =>
      t := e.HandleInput(input, first, dice);
  }

  // ---------------------------------------------------------------------
  // The state manager.

  /** The objects of every state on `stack`. */
  ghost function StackRepr(stack: seq<AppState>): set<object> {
    if |stack| == 0 then {} else StackRepr(stack[..|stack| - 1]) + StateRepr(stack[|stack| - 1])
  }

  /** When every state's objects lie in `bound` and avoid `other`, so do those
      of the whole stack. */
  lemma {:induction false} StackReprWithin(stack: seq<AppState>, bound: set<object>, other: set<object>)
    requires forall i :: 0 <= i < |stack| ==> StateRepr(stack[i]) <= bound && StateRepr(stack[i]) !! other
    ensures StackRepr(stack) <= bound && StackRepr(stack) !! other
  {
    if |stack| > 0 {
      var rest := stack[..|stack| - 1];
      assert forall i :: 0 <= i < |rest| ==> rest[i] == stack[i];
      StackReprWithin(rest, bound, other);
    }
  }

  /** The stack after a transition: None and Quit keep it; Pop drops the top
      (if any); Push adds a state on top; Switch pops, then pushes. */
  function Apply(stack: seq<AppState>, t: StateTransition): (r: seq<AppState>)
    decreases if t.Switch? then 1 else 0
    ensures t.None? || t.Quit? ==> r == stack
    ensures t.Pop? && |stack| > 0 ==> |r| == |stack| - 1 && r == stack[..|r|]
    ensures t.Pop? && |stack| == 0 ==> r == []
    ensures t.Push? ==> |r| == |stack| + 1 && r[..|stack|] == stack && r[|stack|] == t.state
    ensures t.Switch? && |stack| > 0 ==> |r| == |stack| && r[..|r| - 1] == stack[..|r| - 1] && r[|r| - 1] == t.state
    ensures t.Switch? && |stack| == 0 ==> r == [t.state]
  {
    match t
    case None => stack
    case Pop => if |stack| == 0 then stack else stack[..|stack| - 1]
    case Push(s) => stack + [s]
    case Quit => stack
    case Switch(s) => Apply(Apply(stack, Pop), Push(s))
  }

  /** A pushed state that pops itself off leaves the stack as it was (the
      opponent menu's "Go back" returns to the main menu). */
  lemma PopUndoesPush(stack: seq<AppState>, s: AppState)
    ensures Apply(Apply(stack, Push(s)), Pop) == stack
  {
    assert (stack + [s])[..|stack|] == stack;
  }

  /** The stack of states; the top one is shown and gets the input. */
  class StateManager {
    var states: seq<AppState>
    ghost var Repr: set<object>

    /** Every state is consistent, owns its objects alone, and they are
        all in `Repr`. */
    ghost predicate Valid()
      reads this, Repr
    {
      && this !in Repr
      && (forall i :: 0 <= i < |states| ==> StateRepr(states[i]) <= Repr && StateValid(states[i]))
      && (forall i, j :: 0 <= i < j < |states| ==> StateRepr(states[i]) !! StateRepr(states[j]))
    }

    /** `StateManager::new`: a stack holding exactly `first`. */
    constructor (first: AppState)
      requires StateValid(first)
      ensures Valid() && states == [first]
    {
      states := [first];
      Repr := StateRepr(first);
    }

    /** `get_current_state`: the top of the stack, if any. */
    function GetCurrentState(): (r: Option<AppState>)
      reads this
      ensures r.None? <==> |states| == 0
      ensures r.Some? ==> r.value == states[|states| - 1]
    {
      if |states| == 0 then Option.None else Some(states[|states| - 1])
    }

    /** `handle_transition`: applies `t` to the stack and tells whether to quit. */
    method HandleTransition(t: StateTransition) returns (quit: bool)
      requires Valid()
      requires t.Push? || t.Switch? ==> StateValid(t.state) && StateRepr(t.state) !! Repr && this !in StateRepr(t.state)
      modifies this
      ensures Valid()
      ensures states == Apply(old(states), t)
      ensures quit <==> t.Quit?
      ensures unchanged(old(Repr)) && (t.Push? || t.Switch? ==> unchanged(StateRepr(t.state)))
    {
      quit := false;
      match t
      case None =>
      case Pop =>
        if |states| > 0 {
          states := states[..|states| - 1];
        }
      case Push(s) =>
        states := states + [s];
        Repr := Repr + StateRepr(s);
      case Quit =>
        quit := true;
      case Switch(s) =>
        if |states| > 0 {
          states := states[..|states| - 1];
        }
        states := states + [s];
        Repr := Repr + StateRepr(s);
    }

    /** `handle_input`: with no state, `NoState` and nothing changes; otherwise
        the top state handles the input and the manager applies the
        transition `t` it returns, telling whether to quit. */
    method HandleInput(input: InputEvent, first: nat, dice: nat -> nat)
      returns (r: Result<bool, StateManagerError>, ghost t: StateTransition)
      requires Valid() && first < 2
      modifies this, Repr
      ensures Valid()
      ensures |old(states)| == 0 ==> r == Err(NoState) && states == old(states)
      ensures |old(states)| > 0 ==> r == Ok(t.Quit?) && states == Apply(old(states), t)
      ensures |old(states)| > 0 ==>
        Answered(old(states)[|old(states)| - 1], old(Reaction(states[|states| - 1], input, dice)), input, first, dice, t)
      ensures |old(states)| > 0 ==>
        var below := StackRepr(old(states)[..|old(states)| - 1]);
        below <= old(Repr) - StateRepr(old(states)[|old(states)| - 1]) && unchanged(below)
    {
      t := StateTransition.None;
      if |states| == 0 {
        r := Err(NoState);
        return;
      }
      var top := states[|states| - 1];
      ghost var below := states[..|states| - 1];
      assert forall i :: 0 <= i < |below| ==> below[i] == states[i];
      StackReprWithin(below, Repr, StateRepr(top));
      var transition := HandleStateInput(top, input, first, dice);
      var quit := HandleTransition(transition);
      r := Ok(quit);
      t := transition;
    }
  }
}
