/**
 * The kind of a board cell. The constructors are declared in the order of the
 * source's enum, so that `Ordinal` gives the numbers the board text shows:
 * Empty (the enum's NONE) 0, Coin 1, Wall 2, Piece 3, Finish 4.
 */
module Squares {

  datatype Square = Empty | Coin | Wall | Piece | Finish

  /** The enum's `ordinal()`, the position of the kind in its declaration. */
  function Ordinal(k: Square): (n: nat)
    ensures n < 5
  {
    match k
    case Empty => 0
    case Coin => 1
    case Wall => 2
    case Piece => 3
    case Finish => 4
  }
}
