// The players and the three ways of controlling one (src/game/players.rs):
// a human at the keyboard, a computer playing a random spot, and an
// unbeatable computer running the minimax search.

module Players {
  import opened Input
  import opened Roles
  import opened GameBoard
  import Search

  /** The way a player interacts with the board (the `PlayerController`
      implementations, as a closed set). */
  datatype Controller = Human | BasicComputer | UnbeatableComputer

  /** A player: its controller, its count of wins and the tile it places. */
  datatype Player = Player(controller: Controller, score: nat, role: Role)

  /** `Player::new`: a player with no win yet. */
  function NewPlayer(controller: Controller, role: Role): (p: Player)
    ensures p.controller == controller && p.role == role && p.score == 0
  {
    Player(controller, 0, role)
  }

  /** What a player does: move the cursor, nothing, or place a tile. */
  datatype PlayerAction = Move(pos: PlayingPosition) | None | Play(pos: PlayingPosition)

  /** The cursor step an arrow key asks for, as a column and a row offset. */
  function Step(key: Key): (int, int) {
    match key
    case Down => (0, 1)
    case Left => (-1, 0)
    case Right => (1, 0)
    case Up => (0, -1)
    case _ => (0, 0)
  }

  predicate IsArrow(key: Key) {
    key.Down? || key.Left? || key.Right? || key.Up?
  }

  /** The human's `handle_key_press`: Enter plays the cursor spot when it is
      empty, an arrow key moves the cursor one spot as long as it stays on
      the grid, and anything else does nothing. */
  function HumanKeyPress(board: Board, key: Key): (a: PlayerAction)
    reads board
    requires board.Valid()
    ensures a.Play? <==> key == Char('\n') && board.tiles[IndexOf(board.playing_position)].Empty?
    ensures a.Play? ==> a.pos == board.playing_position && InGrid(a.pos)
    ensures a.Move? <==> (IsArrow(key) &&
      0 <= board.playing_position.0 + Step(key).0 < 3 && 0 <= board.playing_position.1 + Step(key).1 < 3)
    ensures a.Move? ==> (InGrid(a.pos) &&
      a.pos.0 == board.playing_position.0 + Step(key).0 && a.pos.1 == board.playing_position.1 + Step(key).1)
  {
    var pos := board.playing_position;
    if key == Char('\n') && board.IsEmpty(pos.0, pos.1) then Play(pos)
    else if key.Down? && pos.1 < 2 then Move((pos.0, pos.1 + 1))
    else if key.Left? && pos.0 > 0 then Move((pos.0 - 1, pos.1))
    else if key.Right? && pos.0 < 2 then Move((pos.0 + 1, pos.1))
    else if key.Up? && pos.1 > 0 then Move((pos.0, pos.1 - 1))
    else PlayerAction.None
  }

  /** `handle_key_press` of a player's controller: the computers ignore keys;
      a human commits on Enter when the cursor spot is empty and moves the
      cursor one spot with an arrow key as long as it stays on the grid. */
  function HandleKeyPress(controller: Controller, board: Board, key: Key): (a: PlayerAction)
    reads board
    requires board.Valid()
    ensures !controller.Human? ==> a == PlayerAction.None
    ensures a.Play? <==>
      controller.Human? && key == Char('\n') && board.tiles[IndexOf(board.playing_position)].Empty?
    ensures a.Play? ==> a.pos == board.playing_position
    ensures a.Play? ==> InGrid(a.pos) && board.tiles[IndexOf(a.pos)].Empty?
    ensures a.Move? <==> (controller.Human? && IsArrow(key) &&
      0 <= board.playing_position.0 + Step(key).0 < 3 && 0 <= board.playing_position.1 + Step(key).1 < 3)
    ensures a.Move? ==> (InGrid(a.pos) &&
      a.pos.0 == board.playing_position.0 + Step(key).0 && a.pos.1 == board.playing_position.1 + Step(key).1)
  {
    match controller
    case Human => HumanKeyPress(board, key)
    case BasicComputer => PlayerAction.None
    case UnbeatableComputer => PlayerAction.None
  }

  /** What `start_turn` does, as a function of the board: a human waits for
      keys; the basic computer plays the available spot the random draw `roll`
      selects (`roll` taken modulo the number of spots, so every spot can be
      drawn); the unbeatable computer plays, as X, the spot of the minimax
      search's best move. */
  function TurnAction(controller: Controller, tiles: Tiles, turns: nat, roll: nat): (a: PlayerAction)
    requires controller.BasicComputer? ==> EmptyCount(tiles) > 0
    ensures controller.Human? ==> a == PlayerAction.None
    ensures !controller.Human? ==> a.Play?
    ensures !controller.Human? && EmptyCount(tiles) > 0 ==> a.pos in AvailableSpots(tiles)
    ensures !controller.Human? && EmptyCount(tiles) > 0 ==> InGrid(a.pos) && tiles[IndexOf(a.pos)].Empty?
    ensures controller.BasicComputer? ==> (|AvailableSpots(tiles)| > 0 &&
      a.pos == AvailableSpots(tiles)[roll % |AvailableSpots(tiles)|])
    ensures controller.UnbeatableComputer? ==> a.pos == Search.BestMove(tiles, turns, Role.X).pos
  {
    AvailableSpotsSpec(tiles);
    match controller
    case Human => PlayerAction.None
    case BasicComputer =>
      var spots := AvailableSpots(tiles);
      Play(spots[roll % |spots|])
    case UnbeatableComputer => Play(Search.BestMove(tiles, turns, Role.X).pos)
  }

  /** Every available spot is the basic computer's choice for some draw. */
  lemma BasicComputerCanPickAnySpot(tiles: Tiles, turns: nat, p: PlayingPosition)
    requires p in AvailableSpots(tiles)
    ensures EmptyCount(tiles) > 0
    ensures exists roll: nat :: TurnAction(BasicComputer, tiles, turns, roll) == Play(p)
  {
    AvailableSpotsSpec(tiles);
    var spots := AvailableSpots(tiles);
    var i :| 0 <= i < |spots| && spots[i] == p;
    assert i % |spots| == i;
    assert TurnAction(BasicComputer, tiles, turns, i).pos == spots[i];
  }

  /** `start_turn`: the action `TurnAction` describes; the unbeatable computer
      runs the minimax search on a copy, so the caller's board is untouched. */
  method StartTurn(controller: Controller, board: Board, roll: nat) returns (a: PlayerAction)
    requires board.Valid()
    requires controller.BasicComputer? ==> EmptyCount(board.tiles) > 0
    requires controller.UnbeatableComputer? ==> board.turns + EmptyCount(board.tiles) <= U8Max
    ensures a == TurnAction(controller, board.tiles, board.turns, roll)
  {
    AvailableSpotsSpec(board.tiles);
    match controller
    case Human =>
      a := PlayerAction.None;
    case BasicComputer =>
      var spots := board.GetAvailableSpots();
      a := Play(spots[roll % |spots|]);
    case UnbeatableComputer =>
      var copy := board.Clone();
      var m := Search.Minimax(copy, Role.X);
      a := Play(m.pos);
  }
}
