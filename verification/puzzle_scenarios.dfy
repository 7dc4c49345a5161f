/**
 * The situations the puzzle's unit tests set up, played on new `PuzzleModel`
 * objects: each method's contract states the values the tests expect,
 * proved from the class contracts and the lemmas about a new puzzle.
 */
module PuzzleScenarios {
  import opened Squares
  import opened Positions
  import opened PuzzleSpec
  import opened PuzzleModels

  /** `getSquare` on a new puzzle: the piece, an empty cell, a coin, a wall, the finish, and a failure off the board. */
  method NewPuzzleSquares() returns (piece: Result<Square>, empty: Result<Square>, coin: Result<Square>,
                                     wall: Result<Square>, finish: Result<Square>, off: Result<Square>)
    ensures piece == Ok(Piece) && empty == Ok(Empty) && coin == Ok(Coin)
    ensures wall == Ok(Wall) && finish == Ok(Finish) && off == Err(IndexOutOfBounds)
  {
    var m := new PuzzleModel();
    piece := m.GetSquare(Position(0, 0));
    empty := m.GetSquare(Position(0, 2));
    coin := m.GetSquare(Position(0, 4));
    wall := m.GetSquare(Position(2, 2));
    finish := m.GetSquare(Position(7, 7));
    off := m.GetSquare(Position(8, 8));
  }

  /** The kind tests on a new puzzle, each asked of a cell that has the kind and of one that has not. */
  method NewPuzzleKinds() returns (walls: seq<Result<bool>>, finishes: seq<Result<bool>>,
                                   coins: seq<Result<bool>>, pieces: seq<Result<bool>>)
    ensures walls == [Ok(true), Ok(false)] && finishes == [Ok(true), Ok(false)]
    ensures coins == [Ok(true), Ok(false)] && pieces == [Ok(true), Ok(false)]
  {
    var m := new PuzzleModel();
    var w1 := m.IsWall(Position(2, 2));
    var w2 := m.IsWall(Position(0, 0));
    walls := [w1, w2];
    var f1 := m.IsFinish(Position(7, 7));
    var f2 := m.IsFinish(Position(0, 0));
    finishes := [f1, f2];
    var c1 := m.IsCoin(Position(0, 4));
    var c2 := m.IsCoin(Position(0, 0));
    coins := [c1, c2];
    var p1 := m.IsPiece(Position(0, 0));
    var p2 := m.IsPiece(Position(0, 2));
    pieces := [p1, p2];
  }

  /**
   * Distances and legality on a new puzzle: (0, 2) is one step of two from
   * the piece and empty, so a legal move; (0, 4) is too far; (2, 2) is a wall.
   */
  method NewPuzzleMoves() returns (near: bool, far: bool, toEmpty: bool, toCoin: bool, toWall: bool)
    ensures near && !far
    ensures toEmpty && !toCoin && !toWall
  {
    var m := new PuzzleModel();
    near := m.IsLegalStepDistance(Position(0, 0), Position(0, 2));
    far := m.IsLegalStepDistance(Position(0, 0), Position(0, 4));
    toEmpty := m.IsLegalMove(Position(0, 2));
    toCoin := m.IsLegalMove(Position(0, 4));
    toWall := m.IsLegalMove(Position(2, 2));
  }

  /** The text of a new puzzle. */
  method NewPuzzleText() returns (s: string)
    ensures s ==
      "3 0 0 0 1 0 0 0 \n" +
      "0 0 1 0 0 0 1 0 \n" +
      "0 0 2 0 0 0 0 2 \n" +
      "0 0 1 0 1 0 0 0 \n" +
      "1 2 0 1 0 0 0 1 \n" +
      "0 0 0 1 0 2 1 0 \n" +
      "0 0 1 0 0 0 0 1 \n" +
      "1 0 0 2 0 0 0 4 \n"
  {
    var m := new PuzzleModel();
    s := m.ToString();
    InitialText();
  }

  /** A new puzzle is not solved, and its legal moves are (0, 2) and (2, 0). */
  method NewPuzzleStart() returns (solved: bool, moves: Result<set<Position>>)
    ensures !solved
    ensures moves == Ok({Position(0, 2), Position(2, 0)})
  {
    var m := new PuzzleModel();
    solved := m.IsSolved();
    moves := m.GetLegalMoves();
    InitialLegalMoves();
  }

  /**
   * A clone of a new puzzle: it is not equal to its original, since it owns
   * another flag cell, yet it hashes the same; a puzzle equals itself and
   * hashes the same twice.
   */
  method CloneOfNewPuzzle() returns (cloneEqual: bool, selfEqual: bool, sameHash: bool, cloneHash: bool)
    ensures !cloneEqual && selfEqual
    ensures sameHash && cloneHash
  {
    var m := new PuzzleModel();
    var clone := m.Clone();
    cloneEqual := clone.Equals(m);
    selfEqual := m.Equals(m);
    var h1 := m.HashCode();
    var h2 := m.HashCode();
    sameHash := h1 == h2;
    var h3 := clone.HashCode();
    cloneHash := h1 == h3;
  }

  /**
   * A clone moved to (0, 2) is not equal to its original, which keeps the
   * state of a new puzzle; no puzzle equals null or an object of another class.
   */
  method MovedClone() returns (original: PuzzleModel, movedEqual: bool, nullEqual: bool, otherEqual: bool)
    ensures original.Valid() && original.Snapshot() == Initial()
    ensures !movedEqual && !nullEqual && !otherEqual
  {
    original := new PuzzleModel();
    var clone := original.Clone();
    var moved := clone.MakeMove(Position(0, 2));
    movedEqual := clone.Equals(original);
    nullEqual := original.Equals(null);
    var other := new SolvedFlag(false);
    otherEqual := original.Equals(other);
  }
}
