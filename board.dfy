/** The tic-tac-toe board (src/game/board.rs): nine tiles in row-major order,
    each carrying the number of its cell in the magic square

        8 1 6
        3 5 7
        4 9 2

    A role wins when three of its tiles carry numbers adding up to 15; on this
    layout that happens exactly when the role holds a full row, column or
    diagonal (`MagicTripleIsLine`). */
module GameBoard {
  import opened Wrappers
  import opened Roles

  /** Board coordinates `(x, y)`: column, then row. */
  type PlayingPosition = (nat, nat)

  type MagicSquareNumber = nat

  /** The three spots of a winning line (`[PlayingPosition; 3]`). */
  type Solution = s: seq<PlayingPosition> | |s| == 3 witness [(0, 0), (0, 0), (0, 0)]

  /** The largest value of the board's `u8` turn counter. */
  const U8Max: nat := 255

  /** The result of the game at a given point in time. */
  datatype GameResult = Draw | NotFinished | Winner(role: Role, solution: Solution)

  /** A tile: empty or taken by a role, always carrying its magic-square number. */
  datatype Tile = Empty(n: MagicSquareNumber) | O(n: MagicSquareNumber) | X(n: MagicSquareNumber)

  /** The board's tile vector; it never changes length. */
  type Tiles = s: seq<Tile> | |s| == 9 witness NewTiles

  /** The magic-square number of each cell, in row-major order. */
  const MagicSquare: seq<MagicSquareNumber> := [8, 1, 6, 3, 5, 7, 4, 9, 2]

  /** The tiles of a new board. */
  const NewTiles: seq<Tile> := [
    Tile.Empty(8), Tile.Empty(1), Tile.Empty(6),
    Tile.Empty(3), Tile.Empty(5), Tile.Empty(7),
    Tile.Empty(4), Tile.Empty(9), Tile.Empty(2)
  ]

  /** The eight winning lines, as the board's tests list them. */
  const WinningSolutions: seq<Solution> := [
    [(0, 0), (1, 0), (2, 0)],
    [(0, 1), (1, 1), (2, 1)],
    [(0, 2), (1, 2), (2, 2)],
    [(0, 0), (0, 1), (0, 2)],
    [(1, 0), (1, 1), (1, 2)],
    [(2, 0), (2, 1), (2, 2)],
    [(0, 0), (1, 1), (2, 2)],
    [(2, 0), (1, 1), (0, 2)]
  ]

  predicate InGrid(p: PlayingPosition) {
    p.0 < 3 && p.1 < 3
  }

  /** Row-major index of a position. */
  function IndexOf(p: PlayingPosition): nat {
    p.1 * 3 + p.0
  }

  /** The position of a row-major index, `(index % 3, index / 3)`. */
  function PositionOf(index: nat): PlayingPosition {
    (index % 3, index / 3)
  }

  /** Every tile carries the magic number of its cell. */
  ghost predicate MagicTiles(tiles: Tiles) {
    forall i :: 0 <= i < 9 ==> tiles[i].n == MagicSquare[i]
  }

  /** The tile a role places on a cell carrying magic number `n`. */
  function TileFor(r: Role, n: MagicSquareNumber): (t: Tile)
    ensures t.n == n && !t.Empty? && OwnedBy(t, r)
  {
    match r
    case O => Tile.O(n)
    case X => Tile.X(n)
  }

  /** Whether a tile belongs to role `r`. */
  predicate OwnedBy(t: Tile, r: Role) {
    match t
    case Empty(_) => false
    case O(_) => r == Role.O
    case X(_) => r == Role.X
  }

  /** The tiles after `r` takes the cell at row-major index `i`. */
  function Place(tiles: Tiles, i: nat, r: Role): (t: Tiles)
    requires i < 9
    ensures OwnedBy(t[i], r) && t[i].n == tiles[i].n
    ensures t == tiles[i := t[i]]
  {
    tiles[i := TileFor(r, tiles[i].n)]
  }

  // ---------------------------------------------------------------------------
  // Counting empty cells

  /** The number of Empty tiles among the first `k`. */
  function CountEmpty(tiles: Tiles, k: nat): (c: nat)
    requires k <= 9
    ensures c <= k
  {
    if k == 0 then 0 else CountEmpty(tiles, k - 1) + (if tiles[k - 1].Empty? then 1 else 0)
  }

  /** The number of Empty tiles on the board. */
  function EmptyCount(tiles: Tiles): (c: nat)
    ensures c <= 9
  {
    CountEmpty(tiles, 9)
  }

  lemma {:induction false} CountEmptyAfterPlace(tiles: Tiles, i: nat, r: Role, k: nat)
    requires i < 9 && k <= 9 && tiles[i].Empty?
    ensures CountEmpty(Place(tiles, i, r), k) == CountEmpty(tiles, k) - (if i < k then 1 else 0)
  {
    if k > 0 {
      CountEmptyAfterPlace(tiles, i, r, k - 1);
    }
  }

  /** Taking an empty cell leaves one empty cell fewer. */
  lemma PlaceDecreasesEmptyCount(tiles: Tiles, i: nat, r: Role)
    requires i < 9 && tiles[i].Empty?
    ensures EmptyCount(Place(tiles, i, r)) == EmptyCount(tiles) - 1
  {
    CountEmptyAfterPlace(tiles, i, r, 9);
  }

  lemma {:induction false} CountEmptyAfterClear(tiles: Tiles, i: nat, k: nat)
    requires i < 9 && k <= 9 && !tiles[i].Empty?
    ensures CountEmpty(tiles[i := Tile.Empty(tiles[i].n)], k) == CountEmpty(tiles, k) + (if i < k then 1 else 0)
  {
    if k > 0 {
      CountEmptyAfterClear(tiles, i, k - 1);
    }
  }

  /** A board with no empty cell is one where every cell is taken. */
  lemma {:induction false} NoEmptyCount(tiles: Tiles, k: nat)
    requires k <= 9
    ensures CountEmpty(tiles, k) == 0 <==> forall i :: 0 <= i < k ==> !tiles[i].Empty?
  {
    if k > 0 {
      NoEmptyCount(tiles, k - 1);
    }
  }

  // ---------------------------------------------------------------------------
  // Available spots, in the order `get_available_spots` lists them:
  // x outer, y inner (column-major).

  /** The `k`-th position in column-major order. */
  function ColumnMajor(k: nat): PlayingPosition {
    (k / 3, k % 3)
  }

  /** Rank of a position in column-major order. */
  function ColumnRank(p: PlayingPosition): nat {
    p.0 * 3 + p.1
  }

  /** The empty spots among the first `k` positions in column-major order. */
  function SpotsIn(tiles: Tiles, k: nat): seq<PlayingPosition>
    requires k <= 9
  {
    if k == 0 then []
    else
      var p := ColumnMajor(k - 1);
      SpotsIn(tiles, k - 1) + (if tiles[IndexOf(p)].Empty? then [p] else [])
  }

  /** Every empty spot of the board, in column-major order. */
  function AvailableSpots(tiles: Tiles): (spots: seq<PlayingPosition>)
    ensures |spots| == EmptyCount(tiles)
  {
    SpotsCountIsEmptyCount(tiles);
    SpotsIn(tiles, 9)
  }

  lemma {:induction false} SpotsInSpec(tiles: Tiles, k: nat)
    requires k <= 9
    ensures forall p :: p in SpotsIn(tiles, k) <==> InGrid(p) && ColumnRank(p) < k && tiles[IndexOf(p)].Empty?
    ensures forall i, j :: 0 <= i < j < |SpotsIn(tiles, k)| ==>
      ColumnRank(SpotsIn(tiles, k)[i]) < ColumnRank(SpotsIn(tiles, k)[j])
  {
    if k > 0 {
      SpotsInSpec(tiles, k - 1);
      var p := ColumnMajor(k - 1);
      var prev := SpotsIn(tiles, k - 1);
      assert SpotsIn(tiles, k) == prev + (if tiles[IndexOf(p)].Empty? then [p] else []);
      assert InGrid(p) && ColumnRank(p) == k - 1;
      forall q | InGrid(q) && ColumnRank(q) == k - 1
        ensures q == p
      {
      }
      forall i | 0 <= i < |prev|
        ensures ColumnRank(prev[i]) < k - 1
      {
        assert prev[i] in prev;
      }
    }
  }

  /** `get_available_spots` lists exactly the empty cells, each once, in
      column-major order, and there are `EmptyCount` of them. */
  lemma AvailableSpotsSpec(tiles: Tiles)
    ensures forall p :: p in AvailableSpots(tiles) <==> InGrid(p) && tiles[IndexOf(p)].Empty?
    ensures forall i, j :: 0 <= i < j < |AvailableSpots(tiles)| ==>
      ColumnRank(AvailableSpots(tiles)[i]) < ColumnRank(AvailableSpots(tiles)[j])
    ensures |AvailableSpots(tiles)| == EmptyCount(tiles)
  {
    SpotsInSpec(tiles, 9);
    SpotsCountIsEmptyCount(tiles);
  }

  /** 1 when the tile at index `i` is Empty, else 0. */
  function EmptyAt(tiles: Tiles, i: nat): nat
    requires i < 9
  {
    if tiles[i].Empty? then 1 else 0
  }

  /** Both orders visit the nine cells once, so they count the same empty cells. */
  lemma SpotsCountIsEmptyCount(tiles: Tiles)
    ensures |SpotsIn(tiles, 9)| == EmptyCount(tiles)
  {
    var e := i requires i < 9 => EmptyAt(tiles, i);
    assert |SpotsIn(tiles, 1)| == e(0);
    assert |SpotsIn(tiles, 2)| == e(0) + e(3);
    assert |SpotsIn(tiles, 3)| == e(0) + e(3) + e(6);
    assert |SpotsIn(tiles, 4)| == e(0) + e(3) + e(6) + e(1);
    assert |SpotsIn(tiles, 5)| == e(0) + e(3) + e(6) + e(1) + e(4);
    assert |SpotsIn(tiles, 6)| == e(0) + e(3) + e(6) + e(1) + e(4) + e(7);
    assert |SpotsIn(tiles, 7)| == e(0) + e(3) + e(6) + e(1) + e(4) + e(7) + e(2);
    assert |SpotsIn(tiles, 8)| == e(0) + e(3) + e(6) + e(1) + e(4) + e(7) + e(2) + e(5);
    assert |SpotsIn(tiles, 9)| == e(0) + e(3) + e(6) + e(1) + e(4) + e(7) + e(2) + e(5) + e(8);
    assert CountEmpty(tiles, 1) == e(0);
    assert CountEmpty(tiles, 2) == e(0) + e(1);
    assert CountEmpty(tiles, 3) == e(0) + e(1) + e(2);
    assert CountEmpty(tiles, 4) == e(0) + e(1) + e(2) + e(3);
    assert CountEmpty(tiles, 5) == e(0) + e(1) + e(2) + e(3) + e(4);
    assert CountEmpty(tiles, 6) == e(0) + e(1) + e(2) + e(3) + e(4) + e(5);
    assert CountEmpty(tiles, 7) == e(0) + e(1) + e(2) + e(3) + e(4) + e(5) + e(6);
    assert CountEmpty(tiles, 8) == e(0) + e(1) + e(2) + e(3) + e(4) + e(5) + e(6) + e(7);
    assert CountEmpty(tiles, 9) == e(0) + e(1) + e(2) + e(3) + e(4) + e(5) + e(6) + e(7) + e(8);
  }

  // ---------------------------------------------------------------------------
  // compute_result: the owned tiles, their 3-combinations in lexicographic
  // order, and the first one whose magic numbers add up to 15.

  /** Strictly increasing. */
  ghost predicate Ascending(l: seq<nat>) {
    forall i, j :: 0 <= i < j < |l| ==> l[i] < l[j]
  }

  /** The indices, counted from `base`, of the tiles of `ts` that belong to `r`,
      in order. */
  function OwnedFrom(ts: seq<Tile>, r: Role, base: nat): seq<nat>
    decreases |ts|
  {
    if |ts| == 0 then []
    else (if OwnedBy(ts[0], r) then [base] else []) + OwnedFrom(ts[1..], r, base + 1)
  }

  lemma {:induction false} OwnedFromSpec(ts: seq<Tile>, r: Role, base: nat)
    decreases |ts|
    ensures var l := OwnedFrom(ts, r, base);
      && (forall i: nat :: i in l <==> base <= i < base + |ts| && OwnedBy(ts[i - base], r))
      && Ascending(l)
      && forall k :: 0 <= k < |l| ==> base <= l[k] < base + |ts|
  {
    if |ts| > 0 {
      OwnedFromSpec(ts[1..], r, base + 1);
    }
  }

  /** The indices of the tiles that belong to `r`, in increasing order (the
      `enumerate().filter(..)` of `compute_result`). */
  function OwnedIndices(tiles: Tiles, r: Role): (l: seq<nat>)
    ensures Below9(l)
  {
    OwnedFromSpec(tiles, r, 0);
    OwnedFrom(tiles, r, 0)
  }

  /** The owned indices are exactly the cells `r` holds, strictly increasing. */
  lemma OwnedIndicesSpec(tiles: Tiles, r: Role)
    ensures var l := OwnedIndices(tiles, r);
      (forall i: nat :: i in l <==> i < 9 && OwnedBy(tiles[i], r)) && Ascending(l)
  {
    OwnedFromSpec(tiles, r, 0);
  }

  /** The sum of the magic numbers carried by three tiles. */
  function MagicSum(tiles: Tiles, a: nat, b: nat, c: nat): nat
    requires a < 9 && b < 9 && c < 9
  {
    tiles[a].n + tiles[b].n + tiles[c].n
  }

  ghost predicate Below9(l: seq<nat>) {
    forall k :: 0 <= k < |l| ==> l[k] < 9
  }

  /** Every member of `l` is greater than `a`. */
  ghost predicate Above(l: seq<nat>, a: nat) {
    forall k :: 0 <= k < |l| ==> a < l[k]
  }

  type Triple = (nat, nat, nat)

  /** `(a, b, c)` comes before `(d, e, f)` in lexicographic order, or is it. */
  predicate LexLe(t: (nat, nat, nat), u: (nat, nat, nat)) {
    t.0 < u.0 || (t.0 == u.0 && (t.1 < u.1 || (t.1 == u.1 && t.2 <= u.2)))
  }

  /** A combination `a < b < c` of members of `l` whose numbers add up to 15. */
  ghost predicate Qualifies(tiles: Tiles, l: seq<nat>, t: (nat, nat, nat)) {
    t.0 in l && t.1 in l && t.2 in l && t.0 < t.1 < t.2 < 9 && MagicSum(tiles, t.0, t.1, t.2) == 15
  }

  /** The first `c` in `l` completing `a, b` to 15. */
  function FindWithPair(tiles: Tiles, a: nat, b: nat, l: seq<nat>): Option<(nat, nat, nat)>
    requires a < 9 && b < 9 && Below9(l)
  {
    if |l| == 0 then None
    else if MagicSum(tiles, a, b, l[0]) == 15 then Some((a, b, l[0]))
    else FindWithPair(tiles, a, b, l[1..])
  }

  /** The first pair `b, c` (in order) of `l` completing `a` to 15. */
  function FindWithFirst(tiles: Tiles, a: nat, l: seq<nat>): Option<(nat, nat, nat)>
    requires a < 9 && Below9(l)
  {
    if |l| == 0 then None
    else
      match FindWithPair(tiles, a, l[0], l[1..])
      case Some(t) => Some(t)
      case None => FindWithFirst(tiles, a, l[1..])
  }

  /** The first 3-combination of `l`, in the order `combinations(3)` produces
      them, whose numbers add up to 15. */
  function FindTriple(tiles: Tiles, l: seq<nat>): Option<(nat, nat, nat)>
    requires Below9(l)
  {
    if |l| == 0 then None
    else
      match FindWithFirst(tiles, l[0], l[1..])
      case Some(t) => Some(t)
      case None => FindTriple(tiles, l[1..])
  }

  lemma {:induction false} FindWithPairSpec(tiles: Tiles, a: nat, b: nat, l: seq<nat>)
    requires a < b < 9 && Below9(l) && Ascending(l) && Above(l, b)
    ensures FindWithPair(tiles, a, b, l).Some? ==>
      var t := FindWithPair(tiles, a, b, l).value;
      t.0 == a && t.1 == b && t.2 in l && MagicSum(tiles, a, b, t.2) == 15 &&
      forall c :: c in l && MagicSum(tiles, a, b, c) == 15 ==> t.2 <= c
    ensures FindWithPair(tiles, a, b, l).None? ==>
      forall c :: c in l ==> MagicSum(tiles, a, b, c) != 15
  {
    if |l| > 0 {
      FindWithPairSpec(tiles, a, b, l[1..]);
      assert forall c :: c in l ==> c == l[0] || c in l[1..];
    }
  }

  /** `b < c` are members of `l` completing `a` to 15. */
  ghost predicate PairQualifies(tiles: Tiles, a: nat, l: seq<nat>, b: nat, c: nat) {
    b in l && c in l && a < 9 && b < c < 9 && MagicSum(tiles, a, b, c) == 15
  }

  lemma {:induction false} FindWithFirstSpec(tiles: Tiles, a: nat, l: seq<nat>)
    requires a < 9 && Below9(l) && Ascending(l) && Above(l, a)
    ensures FindWithFirst(tiles, a, l).Some? ==>
      var t := FindWithFirst(tiles, a, l).value;
      t.0 == a && PairQualifies(tiles, a, l, t.1, t.2) &&
      forall b, c :: PairQualifies(tiles, a, l, b, c) ==> t.1 < b || (t.1 == b && t.2 <= c)
    ensures FindWithFirst(tiles, a, l).None? ==>
      forall b, c :: !PairQualifies(tiles, a, l, b, c)
  {
    if |l| > 0 {
      var b0 := l[0];
      var rest := l[1..];
      assert forall c :: c in l ==> c == b0 || c in rest;
      FindWithPairSpec(tiles, a, b0, rest);
      FindWithFirstSpec(tiles, a, rest);
      forall b, c | PairQualifies(tiles, a, l, b, c)
        ensures b0 <= b && c in rest
        ensures b != b0 ==> PairQualifies(tiles, a, rest, b, c)
      {
      }
    }
  }

  /** `FindTriple` finds the lexicographically first qualifying combination of
      an increasing list, and finds nothing only when none qualifies. */
  lemma {:induction false} FindTripleSpec(tiles: Tiles, l: seq<nat>)
    requires Below9(l) && Ascending(l)
    ensures FindTriple(tiles, l).Some? ==>
      var t := FindTriple(tiles, l).value;
      Qualifies(tiles, l, t) && forall u: Triple :: Qualifies(tiles, l, u) ==> LexLe(t, u)
    ensures FindTriple(tiles, l).None? ==> forall u: Triple :: !Qualifies(tiles, l, u)
  {
    if |l| > 0 {
      var a := l[0];
      var rest := l[1..];
      SplitFirst(l);
      FindWithFirstSpec(tiles, a, rest);
      FindTripleSpec(tiles, rest);
      forall u: Triple | Qualifies(tiles, l, u)
        ensures u.0 == a ==> PairQualifies(tiles, a, rest, u.1, u.2)
        ensures u.0 != a ==> Qualifies(tiles, rest, u) && a < u.0
      {
      }
    }
  }

  /** The members of an increasing list are its head and the members of its
      tail, all greater than the head. */
  lemma SplitFirst(l: seq<nat>)
    requires |l| > 0 && Ascending(l) && Below9(l)
    ensures forall c :: c in l <==> c == l[0] || c in l[1..]
    ensures Above(l[1..], l[0]) && Ascending(l[1..]) && Below9(l[1..]) && l[0] < 9
  {
  }

  /** The result of the game for `forRole` (`compute_result`): a win when
      three of its tiles add up to 15, otherwise not finished before the ninth
      turn and a draw from then on. */
  function ComputeResult(tiles: Tiles, turns: nat, forRole: Role): (res: GameResult)
    ensures res.Winner? ==> res.role == forRole
    ensures !res.Winner? ==> (res.NotFinished? <==> turns < 9)
  {
    match FindTriple(tiles, OwnedIndices(tiles, forRole))
    case Some(t) => GameResult.Winner(forRole, [PositionOf(t.0), PositionOf(t.1), PositionOf(t.2)])
    case None => if 9 > turns then NotFinished else Draw
  }

  /** Role `r` holds every spot of `sol`. */
  ghost predicate OwnsSolution(tiles: Tiles, r: Role, sol: Solution) {
    forall j :: 0 <= j < 3 ==> InGrid(sol[j]) && OwnedBy(tiles[IndexOf(sol[j])], r)
  }

  /** Role `r` holds one of the eight winning lines. */
  ghost predicate HoldsLine(tiles: Tiles, r: Role) {
    exists k :: 0 <= k < 8 && OwnsSolution(tiles, r, WinningSolutions[k])
  }

  /** On the magic square, three distinct cells add up to 15 exactly when they
      form one of the eight lines (listed by increasing index). */
  lemma MagicTripleIsLine(a: nat, b: nat, c: nat)
    requires a < b < c < 9
    ensures MagicSquare[a] + MagicSquare[b] + MagicSquare[c] == 15 <==>
      [PositionOf(a), PositionOf(b), PositionOf(c)] in WinningSolutions
  {
    if a == 0 {
      if b == 1 {} else if b == 2 {} else if b == 3 {} else if b == 4 {} else if b == 5 {} else if b == 6 {} else {}
    } else if a == 1 {
      if b == 2 {} else if b == 3 {} else if b == 4 {} else if b == 5 {} else if b == 6 {} else {}
    } else if a == 2 {
      if b == 3 {} else if b == 4 {} else if b == 5 {} else if b == 6 {} else {}
    } else if a == 3 {
      if b == 4 {} else if b == 5 {} else if b == 6 {} else {}
    } else if a == 4 {
      if b == 5 {} else if b == 6 {} else {}
    } else if a == 5 {
      if b == 6 {} else {}
    } else {
    }
  }

  /** Row-major indices of the three spots of a solution. */
  function Indices(sol: Solution): Triple {
    (IndexOf(sol[0]), IndexOf(sol[1]), IndexOf(sol[2]))
  }

  lemma IndexPosition(i: nat)
    requires i < 9
    ensures InGrid(PositionOf(i)) && IndexOf(PositionOf(i)) == i
  {
  }

  lemma PositionIndex(p: PlayingPosition)
    requires InGrid(p)
    ensures IndexOf(p) < 9 && PositionOf(IndexOf(p)) == p
  {
  }

  /** A solution on the grid is rebuilt from its indices. */
  lemma SolutionFromIndices(sol: Solution)
    requires InGrid(sol[0]) && InGrid(sol[1]) && InGrid(sol[2])
    ensures [PositionOf(Indices(sol).0), PositionOf(Indices(sol).1), PositionOf(Indices(sol).2)] == sol
  {
    PositionIndex(sol[0]);
    PositionIndex(sol[1]);
    PositionIndex(sol[2]);
  }

  /** Every winning line lies on the grid and lists its cells by increasing index. */
  lemma WinningSolutionShape(k: nat)
    requires k < 8
    ensures forall p :: p in WinningSolutions[k] ==> InGrid(p)
    ensures Indices(WinningSolutions[k]).0 < Indices(WinningSolutions[k]).1 < Indices(WinningSolutions[k]).2 < 9
  {
    if k == 0 {} else if k == 1 {} else if k == 2 {} else if k == 3 {}
    else if k == 4 {} else if k == 5 {} else if k == 6 {} else {}
  }

  /** A combination found among the tiles `r` owns is a line that `r` holds,
      and its spots, listed in order, carry the combination's indices. */
  lemma FoundTripleIsOwnedLine(tiles: Tiles, r: Role, t: Triple)
    requires MagicTiles(tiles)
    requires Qualifies(tiles, OwnedIndices(tiles, r), t)
    ensures var sol: Solution := [PositionOf(t.0), PositionOf(t.1), PositionOf(t.2)];
      sol in WinningSolutions && OwnsSolution(tiles, r, sol) && Indices(sol) == t
  {
    OwnedIndicesSpec(tiles, r);
    MagicTripleIsLine(t.0, t.1, t.2);
    IndexPosition(t.0);
    IndexPosition(t.1);
    IndexPosition(t.2);
  }

  /** A line that `r` holds is a qualifying combination of its owned tiles. */
  lemma OwnedLineQualifies(tiles: Tiles, r: Role, k: nat)
    requires MagicTiles(tiles) && k < 8
    requires OwnsSolution(tiles, r, WinningSolutions[k])
    ensures Qualifies(tiles, OwnedIndices(tiles, r), Indices(WinningSolutions[k]))
  {
    var sol := WinningSolutions[k];
    OwnedIndicesSpec(tiles, r);
    WinningSolutionShape(k);
    var u := Indices(sol);
    PositionIndex(sol[0]);
    PositionIndex(sol[1]);
    PositionIndex(sol[2]);
    MagicTripleIsLine(u.0, u.1, u.2);
  }

  /** `compute_result(r)` reports a win exactly when `r` holds a full line; the
      reported solution is such a line, listed by increasing index, and it is
      the first such line in lexicographic index order. Without a win the game
      is unfinished before the ninth turn and a draw from then on. */
  lemma ComputeResultSpec(tiles: Tiles, turns: nat, r: Role)
    requires MagicTiles(tiles)
    ensures ComputeResult(tiles, turns, r).Winner? <==>
      exists k :: 0 <= k < 8 && OwnsSolution(tiles, r, WinningSolutions[k])
    ensures ComputeResult(tiles, turns, r).Winner? ==>
      var res := ComputeResult(tiles, turns, r);
      res.role == r && res.solution in WinningSolutions && OwnsSolution(tiles, r, res.solution) &&
      forall k :: 0 <= k < 8 && OwnsSolution(tiles, r, WinningSolutions[k]) ==>
        LexLe(Indices(res.solution), Indices(WinningSolutions[k]))
    ensures !ComputeResult(tiles, turns, r).Winner? ==>
      ComputeResult(tiles, turns, r) == if turns < 9 then NotFinished else Draw
  {
    var l := OwnedIndices(tiles, r);
    OwnedIndicesSpec(tiles, r);
    FindTripleSpec(tiles, l);
    forall k | 0 <= k < 8 && OwnsSolution(tiles, r, WinningSolutions[k])
      ensures Qualifies(tiles, l, Indices(WinningSolutions[k]))
    {
      OwnedLineQualifies(tiles, r, k);
    }
    if FindTriple(tiles, l).Some? {
      var t := FindTriple(tiles, l).value;
      FoundTripleIsOwnedLine(tiles, r, t);
      var sol: Solution := [PositionOf(t.0), PositionOf(t.1), PositionOf(t.2)];
      var k :| 0 <= k < |WinningSolutions| && WinningSolutions[k] == sol;
    }
  }

  /** The only combination of a list holding at most `a < b < c` is `(a, b, c)`. */
  lemma OnlyTriple(tiles: Tiles, l: seq<nat>, a: nat, b: nat, c: nat)
    requires Below9(l) && Ascending(l)
    requires forall i :: i in l ==> i == a || i == b || i == c
    requires Qualifies(tiles, l, (a, b, c))
    ensures FindTriple(tiles, l) == Some((a, b, c))
  {
    FindTripleSpec(tiles, l);
  }

  /** A list holding at most two values has no combination of three. */
  lemma NoTripleFromTwo(tiles: Tiles, l: seq<nat>, a: nat, b: nat)
    requires Below9(l) && Ascending(l)
    requires forall i :: i in l ==> i == a || i == b
    ensures FindTriple(tiles, l) == None
  {
    FindTripleSpec(tiles, l);
  }

  /** After a placement, `r` owns the placed cell and what it owned before. */
  lemma OwnedAfterPlace(tiles: Tiles, i: nat, r: Role, j: nat)
    requires i < 9 && j < 9
    ensures OwnedBy(Place(tiles, i, r)[j], r) <==> j == i || OwnedBy(tiles[j], r)
  {
  }

  /** The board tests: taking the three cells of any winning line on a new board,
      in the listed order, reports NotFinished, NotFinished, then a win on exactly
      that line. */
  lemma WinningSolutionWins(k: nat, r: Role)
    requires k < 8
    ensures var sol := WinningSolutions[k];
      InGrid(sol[0]) && InGrid(sol[1]) && InGrid(sol[2]) &&
      var t1 := Place(NewTiles, IndexOf(sol[0]), r);
      var t2 := Place(t1, IndexOf(sol[1]), r);
      var t3 := Place(t2, IndexOf(sol[2]), r);
      ComputeResult(t1, 1, r) == NotFinished &&
      ComputeResult(t2, 2, r) == NotFinished &&
      ComputeResult(t3, 3, r) == Winner(r, sol)
  {
    var sol := WinningSolutions[k];
    WinningSolutionShape(k);
    var (a, b, c) := Indices(sol);
    PositionIndex(sol[0]);
    PositionIndex(sol[1]);
    PositionIndex(sol[2]);
    NewTilesAllEmpty();
    var t1 := Place(NewTiles, a, r);
    var t2 := Place(t1, b, r);
    var t3 := Place(t2, c, r);
    var l1 := OwnedIndices(t1, r);
    var l2 := OwnedIndices(t2, r);
    var l3 := OwnedIndices(t3, r);
    OwnedIndicesSpec(t1, r);
    OwnedIndicesSpec(t2, r);
    OwnedIndicesSpec(t3, r);
    forall i | i in l1 ensures i == a {
      OwnedAfterPlace(NewTiles, a, r, i);
    }
    forall i | i in l2 ensures i == a || i == b {
      OwnedAfterPlace(t1, b, r, i);
      OwnedAfterPlace(NewTiles, a, r, i);
    }
    forall i | i in l3 ensures i == a || i == b || i == c {
      OwnedAfterPlace(t2, c, r, i);
      OwnedAfterPlace(t1, b, r, i);
      OwnedAfterPlace(NewTiles, a, r, i);
    }
    OwnedAfterPlace(t2, c, r, a);
    OwnedAfterPlace(t2, c, r, b);
    OwnedAfterPlace(t2, c, r, c);
    OwnedAfterPlace(t1, b, r, a);
    NoTripleFromTwo(t1, l1, a, a);
    NoTripleFromTwo(t2, l2, a, b);
    PlaceKeepsMagic(NewTiles, a, r);
    PlaceKeepsMagic(t1, b, r);
    PlaceKeepsMagic(t2, c, r);
    SolutionFromIndices(sol);
    MagicTripleIsLine(a, b, c);
    assert MagicSum(t3, a, b, c) == MagicSquare[a] + MagicSquare[b] + MagicSquare[c] == 15;
    assert a in l3 && b in l3 && c in l3;
    OnlyTriple(t3, l3, a, b, c);
  }

  /** The board's draw tests: with the turn counter forced to 7, one X then one
      O on an otherwise empty board report NotFinished, then Draw on turn 9. */
  lemma DrawOnNinthTurn()
    ensures ComputeResult(Place(NewTiles, IndexOf((1, 1)), Role.X), 8, Role.X) == NotFinished
    ensures ComputeResult(Place(Place(NewTiles, IndexOf((1, 1)), Role.X), IndexOf((1, 2)), Role.O), 9, Role.O) == Draw
  {
    NewTilesAllEmpty();
    var t1 := Place(NewTiles, 4, Role.X);
    var t2 := Place(t1, 7, Role.O);
    var l1 := OwnedIndices(t1, Role.X);
    var l2 := OwnedIndices(t2, Role.O);
    OwnedIndicesSpec(t1, Role.X);
    OwnedIndicesSpec(t2, Role.O);
    forall i | i in l1 ensures i == 4 {
      OwnedAfterPlace(NewTiles, 4, Role.X, i);
    }
    forall i | i in l2 ensures i == 7 {
      OwnedAfterPlace(t1, 7, Role.O, i);
    }
    NoTripleFromTwo(t1, l1, 4, 4);
    NoTripleFromTwo(t2, l2, 7, 7);
  }

  /** A tic-tac-toe board. */
  class Board {
    /** The winning line to draw, once a game is won. */
    var highlighted_solution: Option<Solution>
    /** The visual indication of the last played spot (the cursor). */
    var playing_position: PlayingPosition
    var tiles: Tiles
    var turns: nat

    /** The tiles keep their magic numbers, the cursor stays on the grid and
        the turn counter fits in its `u8`. */
    ghost predicate Valid()
      reads this
    {
      MagicTiles(tiles) && InGrid(playing_position) && turns <= U8Max
    }

    /** The turn counter counts the taken tiles. */
    ghost predicate TurnsMatchTiles()
      reads this
    {
      turns + EmptyCount(tiles) == 9
    }

    /** A new board (`Board::new`): nine empty tiles carrying 8 1 6 / 3 5 7 / 4 9 2,
        no turn taken, the cursor in the centre and nothing highlighted. */
    constructor ()
      ensures Valid() && TurnsMatchTiles()
      ensures tiles == NewTiles && turns == 0
      ensures playing_position == (1, 1) && highlighted_solution == None
      ensures forall i :: 0 <= i < 9 ==> tiles[i] == Tile.Empty(MagicSquare[i])
    {
      highlighted_solution := None;
      playing_position := (1, 1);
      tiles := NewTiles;
      turns := 0;
      NewTilesAllEmpty();
    }

    /** The tile at `(x, y)`; it carries the magic number of its cell. */
    function Get(x: nat, y: nat): (t: Tile)
      reads this
      requires y * 3 + x < 9
      ensures Valid() ==> t.n == MagicSquare[y * 3 + x]
    {
      tiles[y * 3 + x]
    }

    /** Whether the spot `(x, y)` is empty: on the grid, exactly when it is
        one of the available spots. */
    function IsEmpty(x: nat, y: nat): (b: bool)
      reads this
      requires y * 3 + x < 9
      ensures InGrid((x, y)) ==> (b <==> (x, y) in AvailableSpots(tiles))
    {
      AvailableSpotsSpec(tiles);
      Get(x, y).Empty?
    }

    /** All empty spots, visiting x in the outer loop and y in the inner one. */
    method GetAvailableSpots() returns (spots: seq<PlayingPosition>)
      ensures spots == AvailableSpots(tiles)
    {
      spots := [];
      for x := 0 to 3
        invariant spots == SpotsIn(tiles, x * 3)
      {
        for y := 0 to 3
          invariant spots == SpotsIn(tiles, x * 3 + y)
        {
          assert ColumnMajor(x * 3 + y) == (x, y);
          if IsEmpty(x, y) {
            spots := spots + [(x, y)];
          }
        }
      }
    }

    /** Stores the winning line to draw. */
    method HighlightSolution(solution: Solution)
      modifies this
      ensures highlighted_solution == Some(solution)
      ensures tiles == old(tiles) && turns == old(turns) && playing_position == old(playing_position)
    {
      highlighted_solution := Some(solution);
    }

    /** Places `forRole`'s tile at `(x, y)` and returns the new result for that
        role; an occupied spot is left alone and reports NotFinished. */
    method Set(x: nat, y: nat, forRole: Role) returns (result: GameResult)
      requires Valid()
      requires y * 3 + x < 9
      requires tiles[y * 3 + x].Empty? ==> turns < U8Max
      modifies this
      ensures Valid()
      ensures playing_position == old(playing_position) && unchanged(this`highlighted_solution)
      ensures old(tiles[y * 3 + x]).Empty? ==>
        && tiles == Place(old(tiles), y * 3 + x, forRole)
        && turns == old(turns) + 1
        && result == ComputeResult(tiles, turns, forRole)
      ensures !old(tiles[y * 3 + x]).Empty? ==>
        tiles == old(tiles) && turns == old(turns) && result == NotFinished
      ensures old(TurnsMatchTiles()) ==> TurnsMatchTiles()
    {
      var index := y * 3 + x;
      if tiles[index].Empty? {
        PlaceDecreasesEmptyCount(tiles, index, forRole);
        PlaceKeepsMagic(tiles, index, forRole);
        tiles := Place(tiles, index, forRole);
        turns := turns + 1;
        result := ComputeResult(tiles, turns, forRole);
      } else {
        result := NotFinished;
      }
    }

    /** Makes the tile at `(x, y)` Empty again, keeping its magic number, and
        takes one off the turn counter, even when the tile was already empty. */
    method Reset(x: nat, y: nat)
      requires Valid()
      requires y * 3 + x < 9
      requires turns > 0
      modifies this
      ensures Valid()
      ensures tiles == old(tiles)[y * 3 + x := Tile.Empty(old(tiles[y * 3 + x]).n)]
      ensures turns == old(turns) - 1
      ensures playing_position == old(playing_position) && highlighted_solution == old(highlighted_solution)
      ensures old(TurnsMatchTiles()) && !old(tiles[y * 3 + x]).Empty? ==> TurnsMatchTiles()
    {
      var index := y * 3 + x;
      if !tiles[index].Empty? {
        CountEmptyAfterClear(tiles, index, 9);
      }
      tiles := tiles[index := Tile.Empty(tiles[index].n)];
      turns := turns - 1;
    }

    /** An independent copy of this board (`#[derive(Clone)]`). */
    method Clone() returns (b: Board)
      ensures fresh(b)
      ensures b.tiles == tiles && b.turns == turns
      ensures b.playing_position == playing_position && b.highlighted_solution == highlighted_solution
    {
      b := new Board();
      b.tiles := tiles;
      b.turns := turns;
      b.playing_position := playing_position;
      b.highlighted_solution := highlighted_solution;
    }
  }

  /** A new board has nine empty cells. */
  lemma NewTilesAllEmpty()
    ensures EmptyCount(NewTiles) == 9
    ensures MagicTiles(NewTiles)
    ensures forall i :: 0 <= i < 9 ==> NewTiles[i] == Tile.Empty(MagicSquare[i])
  {
  }

  /** Taking a tile keeps every cell's magic number. */
  lemma PlaceKeepsMagic(tiles: Tiles, i: nat, r: Role)
    requires i < 9 && MagicTiles(tiles)
    ensures MagicTiles(Place(tiles, i, r))
  {
  }

  /** Undoing a placement on an empty cell (`reset` after a successful `set`)
      gives back the tiles as they were. */
  lemma ResetUndoesSet(tiles: Tiles, i: nat, r: Role)
    requires i < 9 && tiles[i].Empty?
    ensures Place(tiles, i, r)[i := Tile.Empty(Place(tiles, i, r)[i].n)] == tiles
  {
  }
}
