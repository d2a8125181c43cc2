/** The two sides of a game (`Role` in src/game/players.rs). It lives in its
    own module because both the board and the players refer to it. */
module Roles {

  datatype Role = O | X

  /** The role that moves after `r`. */
  function Other(r: Role): (o: Role)
    ensures o != r
  {
    if r == O then X else O
  }
}
