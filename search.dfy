// The computer's minimax search (game/artificial_intelligence.rs), run on
// the board's own operations: `Set` to try a spot and `Reset` to take it back.

module Search {
  import opened GameBoard
  import opened Roles

  /** A move the computer can play: a spot and the score the search gave it. */
  datatype Move = Move(pos: PlayingPosition, score: int)

  /** A move carrying only a score; its spot is the corner `(0, 0)`. */
  function WithScore(score: int): (m: Move)
    ensures m.pos == (0, 0) && m.score == score
  {
    Move((0, 0), score)
  }

  /** The score of a board with no spot left: -10 when O holds a line (checked
      first), 10 when X does, 0 otherwise. */
  function TerminalScore(tiles: Tiles, turns: nat): (s: int)
    ensures s == -10 || s == 0 || s == 10
    ensures s == 10 ==> ComputeResult(tiles, turns, Role.X).Winner? && !ComputeResult(tiles, turns, Role.O).Winner?
  {
    if ComputeResult(tiles, turns, Role.O).Winner? then -10
    else if ComputeResult(tiles, turns, Role.X).Winner? then 10
    else 0
  }

  /** O holding a line means -10; X holding one (and O none) means 10; a board
      where neither holds a line scores 0. */
  lemma TerminalScoreSpec(tiles: Tiles, turns: nat)
    requires MagicTiles(tiles)
    ensures TerminalScore(tiles, turns) == -10 <==>
      exists k :: 0 <= k < 8 && OwnsSolution(tiles, Role.O, WinningSolutions[k])
    ensures TerminalScore(tiles, turns) == 10 <==>
      (exists k :: 0 <= k < 8 && OwnsSolution(tiles, Role.X, WinningSolutions[k])) &&
      !(exists k :: 0 <= k < 8 && OwnsSolution(tiles, Role.O, WinningSolutions[k]))
    ensures TerminalScore(tiles, turns) == 0 <==>
      !(exists k :: 0 <= k < 8 && OwnsSolution(tiles, Role.X, WinningSolutions[k])) &&
      !(exists k :: 0 <= k < 8 && OwnsSolution(tiles, Role.O, WinningSolutions[k]))
  {
    ComputeResultSpec(tiles, turns, Role.O);
    ComputeResultSpec(tiles, turns, Role.X);
  }

  /** Every spot of `spots` is on the grid and empty. */
  ghost predicate EmptySpots(tiles: Tiles, spots: seq<PlayingPosition>) {
    forall j :: 0 <= j < |spots| ==> InGrid(spots[j]) && tiles[IndexOf(spots[j])].Empty?
  }

  /** `a` is strictly better than `b` for `player`: X maximises, O minimises. */
  predicate Prefers(player: Role, a: int, b: int) {
    if player == Role.X then a > b else a < b
  }

  /** The first move of `moves` that no other move beats for `player`. */
  function FirstBest(moves: seq<Move>, player: Role): (i: nat)
    requires |moves| > 0
    ensures i < |moves|
    ensures forall j :: 0 <= j < |moves| ==> !Prefers(player, moves[j].score, moves[i].score)
    ensures forall j :: 0 <= j < i ==> Prefers(player, moves[i].score, moves[j].score)
  {
    if |moves| == 1 then 0
    else
      var k := FirstBest(moves[..|moves| - 1], player);
      if Prefers(player, moves[|moves| - 1].score, moves[k].score) then |moves| - 1 else k
  }

  /** The score the search gives to `player` taking `spot`: the value of the
      resulting board with the other role to move. */
  function ChildScore(tiles: Tiles, turns: nat, player: Role, spot: PlayingPosition): (s: int)
    requires InGrid(spot) && tiles[IndexOf(spot)].Empty?
    decreases EmptyCount(tiles), 0, 0
    ensures s == -10 || s == 0 || s == 10
  {
    PlaceDecreasesEmptyCount(tiles, IndexOf(spot), player);
    BestMove(Place(tiles, IndexOf(spot), player), turns + 1, Other(player)).score
  }

  /** One move per spot, in the order of `spots`, each scored by the search. */
  function ChildMoves(tiles: Tiles, turns: nat, player: Role, spots: seq<PlayingPosition>): (moves: seq<Move>)
    requires EmptySpots(tiles, spots)
    decreases EmptyCount(tiles), 0, |spots|
    ensures |moves| == |spots|
    ensures forall j :: 0 <= j < |spots| ==>
      moves[j].pos == spots[j] && (moves[j].score == -10 || moves[j].score == 0 || moves[j].score == 10)
  {
    if |spots| == 0 then []
    else
      var last := spots[|spots| - 1];
      ChildMoves(tiles, turns, player, spots[..|spots| - 1]) + [Move(last, ChildScore(tiles, turns, player, last))]
  }

  /** The move `minimax(board, player)` returns: on a board with no spot left,
      the terminal score at `(0, 0)`; otherwise the first available spot whose
      score no other spot beats for `player`. */
  function BestMove(tiles: Tiles, turns: nat, player: Role): (m: Move)
    decreases EmptyCount(tiles), 1
    ensures m.score == -10 || m.score == 0 || m.score == 10
    ensures |AvailableSpots(tiles)| > 0 ==> m.pos in AvailableSpots(tiles)
  {
    AvailableSpotsSpec(tiles);
    var spots := AvailableSpots(tiles);
    if |spots| == 0 then WithScore(TerminalScore(tiles, turns))
    else
      var moves := ChildMoves(tiles, turns, player, spots);
      moves[FirstBest(moves, player)]
  }

  /** The minimax property of the chosen move: with spots left, it is one of
      them, it carries that spot's score, no spot scores better for `player`,
      and every earlier spot scores strictly worse. */
  lemma BestMoveSpec(tiles: Tiles, turns: nat, player: Role)
    ensures var spots := AvailableSpots(tiles);
      var m := BestMove(tiles, turns, player);
      (|spots| == 0 ==> m == Move((0, 0), TerminalScore(tiles, turns))) &&
      (|spots| > 0 ==>
        (exists i :: 0 <= i < |spots| && spots[i] == m.pos &&
          EmptySpots(tiles, spots) &&
          m.score == ChildScore(tiles, turns, player, spots[i]) &&
          (forall j :: 0 <= j < |spots| ==> !Prefers(player, ChildScore(tiles, turns, player, spots[j]), m.score)) &&
          (forall j :: 0 <= j < i ==> Prefers(player, m.score, ChildScore(tiles, turns, player, spots[j])))))
  {
    AvailableSpotsSpec(tiles);
    var spots := AvailableSpots(tiles);
    if |spots| > 0 {
      var moves := ChildMoves(tiles, turns, player, spots);
      var i := FirstBest(moves, player);
      ChildMovesScores(tiles, turns, player, spots);
      assert spots[i] == BestMove(tiles, turns, player).pos;
    }
  }

  /** Each move of `ChildMoves` carries its spot's score. */
  lemma {:induction false} ChildMovesScores(tiles: Tiles, turns: nat, player: Role, spots: seq<PlayingPosition>)
    requires EmptySpots(tiles, spots)
    ensures forall j :: 0 <= j < |spots| ==>
      ChildMoves(tiles, turns, player, spots)[j] == Move(spots[j], ChildScore(tiles, turns, player, spots[j]))
  {
    if |spots| > 0 {
      var front := spots[..|spots| - 1];
      ChildMovesScores(tiles, turns, player, front);
      forall j | 0 <= j < |spots| - 1
        ensures spots[j] == front[j]
      {
      }
    }
  }

  /** `minimax`: tries every available spot in turn (set, search for the other
      role, reset), then keeps the first best move, starting from a sentinel
      of -10000 for X and 10000 for O. The board is left as it was found. */
  method Minimax(board: Board, player: Role) returns (m: Move)
    requires board.Valid()
    requires board.turns + EmptyCount(board.tiles) <= U8Max
    modifies board
    decreases EmptyCount(board.tiles), 2
    ensures board.Valid()
    ensures board.tiles == old(board.tiles) && board.turns == old(board.turns)
    ensures board.playing_position == old(board.playing_position)
    ensures unchanged(board`highlighted_solution)
    ensures m == BestMove(old(board.tiles), old(board.turns), player)
  {
    var spots := board.GetAvailableSpots();
    AvailableSpotsSpec(board.tiles);
    if |spots| == 0 {
      return WithScore(TerminalScore(board.tiles, board.turns));
    }
    var moves := TryAll(board, player, spots);
    var best := PickBest(moves, player);
    m := moves[best];
  }

  /** `minimax`'s first loop: tries every spot of `spots` in order, leaving
      the board as it was found, and collects one scored move per spot. */
  method TryAll(board: Board, player: Role, spots: seq<PlayingPosition>) returns (moves: seq<Move>)
    requires board.Valid()
    requires board.turns + EmptyCount(board.tiles) <= U8Max
    requires EmptySpots(board.tiles, spots)
    modifies board
    decreases EmptyCount(board.tiles), 1
    ensures board.Valid()
    ensures board.tiles == old(board.tiles) && board.turns == old(board.turns)
    ensures board.playing_position == old(board.playing_position)
    ensures unchanged(board`highlighted_solution)
    ensures moves == ChildMoves(old(board.tiles), old(board.turns), player, spots)
  {
    ghost var tiles0 := board.tiles;
    ghost var turns0 := board.turns;
    moves := [];
    for i := 0 to |spots|
      invariant board.Valid()
      invariant board.tiles == tiles0 && board.turns == turns0
      invariant board.playing_position == old(board.playing_position)
      invariant unchanged(board`highlighted_solution)
      invariant moves == ChildMoves(tiles0, turns0, player, spots[..i])
    {
      assert spots[..i + 1] == spots[..i] + [spots[i]];
      var move := TryMove(board, player, spots[i]);
      moves := moves + [move];
    }
    assert spots[..|spots|] == spots;
  }

  /** One pass of `minimax`'s first loop: take `spot` for `player`, search the
      resulting board for the other role, then reset the spot. */
  method TryMove(board: Board, player: Role, spot: PlayingPosition) returns (move: Move)
    requires board.Valid()
    requires board.turns + EmptyCount(board.tiles) <= U8Max
    requires InGrid(spot) && board.tiles[IndexOf(spot)].Empty?
    modifies board
    decreases EmptyCount(board.tiles), 0
    ensures board.Valid()
    ensures board.tiles == old(board.tiles) && board.turns == old(board.turns)
    ensures board.playing_position == old(board.playing_position)
    ensures unchanged(board`highlighted_solution)
    ensures move == Move(spot, ChildScore(old(board.tiles), old(board.turns), player, spot))
  {
    PlaceDecreasesEmptyCount(board.tiles, IndexOf(spot), player);
    var _ := board.Set(spot.0, spot.1, player);
    var next := Minimax(board, Other(player));
    board.Reset(spot.0, spot.1);
    move := Move(spot, next.score);
  }

  /** The index `minimax` keeps: scanning the moves in order, X keeps a move
      whose score beats the best so far (starting from -10000) and O one whose
      score is below it (starting from 10000); this is the first best move. */
  method PickBest(moves: seq<Move>, player: Role) returns (best: nat)
    requires |moves| > 0
    requires forall j :: 0 <= j < |moves| ==> -10000 < moves[j].score < 10000
    ensures best == FirstBest(moves, player)
  {
    best := 0;
    if player == Role.X {
      var bestScore := -10000;
      for i := 0 to |moves|
        invariant i == 0 ==> best == 0 && bestScore == -10000
        invariant i > 0 ==> best == FirstBest(moves[..i], player) && bestScore == moves[best].score
      {
        assert moves[..i + 1][..i] == moves[..i];
        if moves[i].score > bestScore {
          bestScore := moves[i].score;
          best := i;
        }
      }
    } else {
      var bestScore := 10000;
      for i := 0 to |moves|
        invariant i == 0 ==> best == 0 && bestScore == 10000
        invariant i > 0 ==> best == FirstBest(moves[..i], player) && bestScore == moves[best].score
      {
        assert moves[..i + 1][..i] == moves[..i];
        if moves[i].score < bestScore {
          bestScore := moves[i].score;
          best := i;
        }
      }
    }
    assert moves[..|moves|] == moves;
  }
}
