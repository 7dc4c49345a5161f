/**
 * The `PuzzleModel` class: an 8x8 array of cells, the step size, the piece's
 * cell, the move counter and the solved flag, updated in place. Every method
 * is proved against the value-level definitions of module PuzzleSpec through
 * `Snapshot()`, the state the fields hold.
 */
module PuzzleModels {
  import opened Wrappers
  import opened Squares
  import opened PuzzleSpec
  import opened Positions

  /**
   * The `gameOver` wrapper: a cell holding the solved flag. Each puzzle owns
   * its own, and `equals` compares these cells by reference.
   */
  class SolvedFlag {
    var value: bool

    constructor(value: bool)
      ensures this.value == value
    {
      this.value := value;
    }
  }

  /** A new 8x8 array filled cell by cell, row by row, from the table `t`. */
  method Tabulate(t: Grid) returns (b: array2<Square>)
    requires IsGrid(t)
    ensures fresh(b) && b.Length0 == BoardSize && b.Length1 == BoardSize
    ensures forall i, j :: 0 <= i < BoardSize && 0 <= j < BoardSize ==> b[i, j] == t[i][j]
  {
    b := new Square[BoardSize, BoardSize];
    for i := 0 to BoardSize
      invariant forall r, c :: 0 <= r < i && 0 <= c < BoardSize ==> b[r, c] == t[r][c]
    {
      for j := 0 to BoardSize
        invariant forall r, c :: 0 <= r < i && 0 <= c < BoardSize ==> b[r, c] == t[r][c]
        invariant forall c :: 0 <= c < j ==> b[i, c] == t[i][c]
      {
        b[i, j] := t[i][j];
      }
    }
  }

  class PuzzleModel {
    var board: array2<Square>
    /** The cells of `board` as a grid value. */
    ghost var cells: Grid
    /** `STEP_SIZE`: how far the piece moves, 2 or 3. */
    var stepSize: int
    var fromPosition: Position
    var numberOfMoves: nat
    var gameOver: SolvedFlag

    ghost predicate Valid()
      reads this, board
    {
      && board.Length0 == BoardSize && board.Length1 == BoardSize
      && IsGrid(cells)
      && (forall i, j :: 0 <= i < BoardSize && 0 <= j < BoardSize ==> board[i, j] == cells[i][j])
      && (stepSize == 2 || stepSize == 3)
      && OnBoard(fromPosition)
    }

    /** The state the fields hold, as a value. */
    ghost function Snapshot(): (s: State)
      reads this, board, gameOver
      requires Valid()
      ensures WellFormed(s)
    {
      State(cells, fromPosition, stepSize, numberOfMoves, gameOver.value)
    }

    /** A new puzzle: the starting table, the piece at (0, 0), step 2, no moves, not solved. */
    constructor()
      ensures Valid() && fresh(board) && fresh(gameOver)
      ensures Snapshot() == Initial()
    {
      var b := Tabulate(InitialTable);
      board := b;
      cells := InitialTable;
      stepSize := 2;
      fromPosition := Position(0, 0);
      numberOfMoves := 0;
      gameOver := new SolvedFlag(false);
    }

    /**
     * The copy `clone` makes: the fields copied, a new array filled cell by
     * cell from the source's, and a new flag holding the source's value.
     */
    constructor Copy(source: PuzzleModel)
      requires source.Valid()
      ensures Valid() && fresh(board) && fresh(gameOver)
      ensures Snapshot() == source.Snapshot()
    {
      var b := new Square[BoardSize, BoardSize];
      for i := 0 to BoardSize
        invariant forall r, c :: 0 <= r < i && 0 <= c < BoardSize ==> b[r, c] == source.cells[r][c]
      {
        for j := 0 to BoardSize
          invariant forall r, c :: 0 <= r < i && 0 <= c < BoardSize ==> b[r, c] == source.cells[r][c]
          invariant forall c :: 0 <= c < j ==> b[i, c] == source.cells[i][c]
        {
          b[i, j] := source.board[i, j];
        }
      }
      board := b;
      cells := source.cells;
      stepSize := source.stepSize;
      fromPosition := source.fromPosition;
      numberOfMoves := source.numberOfMoves;
      gameOver := new SolvedFlag(source.gameOver.value);
    }

    /** `makeBoardCopy`: a new array holding the fixed layout, which has no piece. */
    static method MakeBoardCopy() returns (copy: array2<Square>)
      ensures fresh(copy) && copy.Length0 == BoardSize && copy.Length1 == BoardSize
      ensures forall q :: OnBoard(q) ==> copy[q.row, q.col] == FixedLayout(q)
    {
      copy := Tabulate(LayoutTable);
    }

    /** `getSquare`: the cell at `p`, or the index failure when `p` is off the board. */
    function GetSquare(p: Position): (r: Result<Square>)
      reads this, board
      requires Valid()
      ensures r.Ok? <==> OnBoard(p)
      ensures r.Ok? ==> r.value == At(cells, p)
      ensures r.Err? ==> r.failure == IndexOutOfBounds
    {
      if OnBoard(p) then Ok(board[p.row, p.col]) else Err(IndexOutOfBounds)
    }

    /**
     * `setSquare`: the cell at `p` becomes `k` and nothing else changes; off
     * the board it fails and changes nothing.
     */
    method SetSquare(p: Position, k: Square) returns (r: Result<()>)
      requires Valid()
      modifies this, board
      ensures Valid() && board == old(board) && gameOver == old(gameOver)
      ensures r.Ok? <==> OnBoard(p)
      ensures r.Err? ==> r.failure == IndexOutOfBounds
      ensures Snapshot() == if OnBoard(p) then old(Snapshot()).(grid := Put(old(cells), p, k)) else old(Snapshot())
    {
      if !OnBoard(p) {
        return Err(IndexOutOfBounds);
      }
      board[p.row, p.col] := k;
      cells := Put(cells, p, k);
      r := Ok(());
    }

    /** `isWall`: whether the cell at `p` is a wall; off the board `getSquare` fails. */
    function IsWall(p: Position): (r: Result<bool>)
      reads this, board
      requires Valid()
      ensures r.Ok? <==> OnBoard(p)
      ensures r.Ok? ==> (r.value <==> At(cells, p) == Wall)
      ensures r.Err? ==> r.failure == IndexOutOfBounds
    {
      match GetSquare(p)
      case Ok(k) => Ok(k == Wall)
      case Err(e) => Err(e)
    }

    /** `isFinish`: whether the cell at `p` is the finish; off the board `getSquare` fails. */
    function IsFinish(p: Position): (r: Result<bool>)
      reads this, board
      requires Valid()
      ensures r.Ok? <==> OnBoard(p)
      ensures r.Ok? ==> (r.value <==> At(cells, p) == Finish)
      ensures r.Err? ==> r.failure == IndexOutOfBounds
    {
      match GetSquare(p)
      case Ok(k) => Ok(k == Finish)
      case Err(e) => Err(e)
    }

    /** `isCoin`: whether the cell at `p` is a coin; off the board `getSquare` fails. */
    function IsCoin(p: Position): (r: Result<bool>)
      reads this, board
      requires Valid()
      ensures r.Ok? <==> OnBoard(p)
      ensures r.Ok? ==> (r.value <==> At(cells, p) == Coin)
      ensures r.Err? ==> r.failure == IndexOutOfBounds
    {
      match GetSquare(p)
      case Ok(k) => Ok(k == Coin)
      case Err(e) => Err(e)
    }

    /** `isPiece`: whether the cell at `p` is the piece; off the board `getSquare` fails. */
    function IsPiece(p: Position): (r: Result<bool>)
      reads this, board
      requires Valid()
      ensures r.Ok? <==> OnBoard(p)
      ensures r.Ok? ==> (r.value <==> At(cells, p) == Piece)
      ensures r.Err? ==> r.failure == IndexOutOfBounds
    {
      match GetSquare(p)
      case Ok(k) => Ok(k == Piece)
      case Err(e) => Err(e)
    }

    /** `isLegalStepDistance`: `to` is one of the four cells at the current step size from `from`. */
    function IsLegalStepDistance(from: Position, to: Position): (r: bool)
      reads this
      requires stepSize == 2 || stepSize == 3
      ensures r <==> to in Candidates(from, stepSize)
    {
      LegalStepDistance(stepSize, from, to)
    }

    /**
     * `isLegalMove`: on the board, one step from `fromPosition`, not a wall.
     * The board test comes first, so the wall test never reads off the board.
     */
    function IsLegalMove(p: Position): (r: bool)
      reads this, board, gameOver
      requires Valid()
      ensures r <==> OnBoard(p) && p in Candidates(fromPosition, stepSize) && At(cells, p) != Wall
      ensures r == LegalMove(Snapshot(), p)
    {
      OnBoard(p) && IsLegalStepDistance(fromPosition, p) && IsWall(p) == Ok(false)
    }

    /** `isSolved`: the solved flag's value. */
    function IsSolved(): (r: bool)
      reads this, board, gameOver
      requires Valid()
      ensures r == Snapshot().solved
    {
      gameOver.value
    }

    /**
     * The end of `makeMove`: `p` becomes the piece, then the cell the piece
     * leaves becomes `vacated`, and `p` is the new `fromPosition`.
     */
    method MovePiece(p: Position, vacated: Square)
      requires Valid() && OnBoard(p)
      modifies this, board
      ensures Valid() && board == old(board) && gameOver == old(gameOver)
      ensures Snapshot() == old(Snapshot()).(grid := Put(Put(old(cells), p, Piece), old(fromPosition), vacated), from := p)
    {
      var placed := SetSquare(p, Piece);
      var left := SetSquare(fromPosition, vacated);
      fromPosition := p;
    }

    /**
     * `makeMove`: performs `Step` on the state, with no legality check. Off
     * the board, `isCoin` fails before anything has changed.
     */
    method MakeMove(p: Position) returns (r: Result<()>)
      requires Valid()
      modifies this, board, gameOver
      ensures Valid() && board == old(board) && gameOver == old(gameOver)
      ensures r.Ok? <==> OnBoard(p)
      ensures r.Err? ==> r.failure == IndexOutOfBounds
      ensures Snapshot() == if OnBoard(p) then Step(old(Snapshot()), p) else old(Snapshot())
    {
      var boardCopy := MakeBoardCopy();
      var coin := IsCoin(p);
      if coin.Err? {
        return Err(coin.failure);
      }
      if coin.value {
        stepSize := if stepSize == 2 then 3 else 2;
      }
      var finish := IsFinish(p);
      if finish.value {
        gameOver.value := true;
      }
      // The source's two branches differ only in what the vacated cell becomes.
      var vacated := if boardCopy[fromPosition.row, fromPosition.col] == Coin then Coin else Empty;
      MovePiece(p, vacated);
      numberOfMoves := numberOfMoves + 1;
      r := Ok(());
    }

    /**
     * The first half of `getLegalMoves`: the scan for the piece, row by row.
     * Its `break` leaves only the row being scanned, so a piece in a later row
     * overrides one found earlier.
     */
    method FindPiece() returns (positionOfPiece: Option<Position>)
      requires Valid()
      ensures positionOfPiece == PieceScan(cells, BoardSize)
    {
      positionOfPiece := None;
      for i := 0 to BoardSize
        invariant positionOfPiece == PieceScan(cells, i)
      {
        ghost var found := false;
        for j := 0 to BoardSize
          invariant positionOfPiece == PieceScan(cells, i)
          invariant forall c :: 0 <= c < j ==> cells[i][c] != Piece
        {
          var isPiece := IsPiece(Position(i, j));
          if isPiece.value {
            positionOfPiece := Some(Position(i, j));
            PieceScanFound(cells, i, j);
            found := true;
            break;
          }
        }
        if !found {
          PieceScanMissing(cells, i);
        }
      }
    }

    /**
     * The second half of `getLegalMoves`: the four cells `stepSize` away from
     * `at`, in the order of the source's `directions` table, kept when
     * `isLegalMove` accepts them.
     */
    method LegalAround(at: Position) returns (moves: set<Position>)
      requires Valid()
      ensures moves == Filtered(Snapshot(), Candidates(at, stepSize))
    {
      ghost var s := Snapshot();
      ghost var cands := Candidates(at, stepSize);
      var directions := [Position(stepSize, 0), Position(-stepSize, 0), Position(0, stepSize), Position(0, -stepSize)];
      moves := {};
      for k := 0 to |directions|
        invariant forall q :: q in moves <==> q in cands[..k] && LegalMove(s, q)
      {
        var newPosition := Position(at.row + directions[k].row, at.col + directions[k].col);
        assert newPosition == cands[k];
        assert cands[..k + 1] == cands[..k] + [newPosition];
        if IsLegalMove(newPosition) {
          moves := moves + {newPosition};
        }
      }
      assert cands[..4] == cands;
      FilteredMembers(s, cands);
    }

    /**
     * `getLegalMoves`: the legal cells around the piece the scan finds; with
     * no piece on the board the source dereferences null.
     */
    method GetLegalMoves() returns (r: Result<set<Position>>)
      requires Valid()
      ensures r == LegalMoves(Snapshot())
    {
      var positionOfPiece := FindPiece();
      if positionOfPiece.None? {
        return Err(NullPointer);
      }
      var moves := LegalAround(positionOfPiece.value);
      r := Ok(moves);
    }

    /** `clone`: a new puzzle with its own array and flag, holding the same state. */
    method Clone() returns (copy: PuzzleModel)
      requires Valid()
      ensures fresh(copy) && fresh(copy.board) && fresh(copy.gameOver)
      ensures copy.Valid() && copy.Snapshot() == Snapshot()
    {
      copy := new PuzzleModel.Copy(this);
    }

    /**
     * `equals`: true for the same object; false for null and for anything not
     * a puzzle; otherwise true exactly when the move counts are equal, the
     * two share one `gameOver` cell and the cells are equal. Equal puzzles
     * hash alike.
     */
    method Equals(o: object?) returns (r: bool)
      requires Valid()
      requires o is PuzzleModel ==> (o as PuzzleModel).Valid()
      ensures o == this ==> r
      ensures !(o is PuzzleModel) ==> !r
      ensures o is PuzzleModel && o != this ==>
        (r <==> numberOfMoves == (o as PuzzleModel).numberOfMoves
                && gameOver == (o as PuzzleModel).gameOver
                && cells == (o as PuzzleModel).cells)
      ensures r ==> o is PuzzleModel
      ensures o is PuzzleModel && r ==>
        HashOf(numberOfMoves, gameOver.value, cells) ==
        HashOf((o as PuzzleModel).numberOfMoves, (o as PuzzleModel).gameOver.value, (o as PuzzleModel).cells)
    {
      if o == this {
        return true;
      }
      if !(o is PuzzleModel) {
        return false;
      }
      var that := o as PuzzleModel;
      if numberOfMoves != that.numberOfMoves {
        return false;
      }
      if gameOver != that.gameOver {
        return false;
      }
      for i := 0 to BoardSize
        invariant forall r, c :: 0 <= r < i && 0 <= c < BoardSize ==> cells[r][c] == that.cells[r][c]
      {
        for j := 0 to BoardSize
          invariant forall c :: 0 <= c < j ==> cells[i][c] == that.cells[i][c]
        {
          if board[i, j] != that.board[i, j] {
            return false;
          }
        }
      }
      GridExtensionality(cells, that.cells);
      return true;
    }

    /**
     * `hashCode`: `Objects.hash(numberOfMoves, solved)`, then
     * `31 * result + hash(cell)` over the cells in row-major order.
     */
    method HashCode() returns (h: int)
      requires Valid()
      ensures h == HashOf(numberOfMoves, gameOver.value, cells)
    {
      var result := SeedHash(numberOfMoves, gameOver.value);
      for i := 0 to BoardSize
        invariant result == GridHash(SeedHash(numberOfMoves, gameOver.value), cells[..i])
      {
        ghost var acc := result;
        for j := 0 to BoardSize
          invariant result == RowHash(acc, cells[i][..j])
        {
          assert cells[i][..j + 1][..j] == cells[i][..j];
          result := Wrap32(31 * result + SquareHash(board[i, j]));
        }
        assert cells[i][..BoardSize] == cells[i];
        assert cells[..i + 1][..i] == cells[..i];
      }
      assert cells[..BoardSize] == cells;
      h := result;
    }

    /** `toString`: each cell's ordinal and a space, each row ended by a newline. */
    method ToString() returns (s: string)
      requires Valid()
      ensures s == GridText(cells)
    {
      s := "";
      for i := 0 to BoardSize
        invariant s == GridText(cells[..i])
      {
        s := AppendRow(s, i);
        AppendLineEnd(cells, i);
        s := s + "\n";
      }
      assert cells[..BoardSize] == cells;
    }

    /** The inner loop of `toString`: the cells of row `i` appended to `prefix`. */
    method AppendRow(prefix: string, i: nat) returns (s: string)
      requires Valid() && i < BoardSize
      ensures s == prefix + RowText(cells[i])
    {
      s := prefix;
      assert cells[i][..0] == [];
      for j := 0 to BoardSize
        invariant s == prefix + RowText(cells[i][..j])
      {
        AppendCellText(prefix, cells[i], j);
        s := s + CellText(board[i, j]);
      }
      assert cells[i][..BoardSize] == cells[i];
    }
  }
}
