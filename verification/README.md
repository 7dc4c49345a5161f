# Puzzle game model in Dafny

This project models the state machine of a one-player board puzzle. An 8x8
board holds one piece, coins, walls and a finish cell. The piece starts in the
top-left corner (0, 0) and moves straight along a row or a column by exactly
the current step size, which starts at 2. It may not land on a wall. Landing on
a coin flips the step size between 2 and 3. Landing on the finish cell (7, 7)
solves the puzzle. The cell the piece leaves shows a coin again if the fixed
starting layout has a coin there, and is empty otherwise. Every move counts.

The Java class `PuzzleModel` keeps this state. It holds the board as an array
of cells, the piece's cell (`fromPosition`), the step size (`STEP_SIZE`), a
move counter and a solved flag (`gameOver`), and updates them in place. It
also provides:

- the `State` operations a search engine calls: `getLegalMoves`, `makeMove`,
  `isSolved`, `clone`, `equals` and `hashCode`;
- a text form of the board, `toString`.

`Position` is an immutable `(row, col)` record whose text form is
`"(row, col)"`.

The project has seven modules:

- `Wrappers` (`wrappers.dfy`): the `Option` type.
- `Decimal` (`decimal.dfy`): the decimal text Java writes for an `int`, and a
  reader for it.
- `Squares` (`squares.dfy`): the cell kinds with their enum ordinals: Empty
  (the source's `NONE`) 0, Coin 1, Wall 2, Piece 3, Finish 4.
- `Positions` (`positions.dfy`): the `Position` record, its `equals` and
  `toString`, and a parser that reads the text back.
- `PuzzleSpec` (`puzzle_spec.dfy`): the puzzle's state as a value, and the
  rules of every operation stated over that value. These include the starting
  table and the fixed layout, legality, one move (`Step`), the piece scan and
  the legal-move set of `getLegalMoves`, the board text and the hash. This
  module also holds the lemmas about whole games played with legal moves.
- `PuzzleModels` (`puzzle_model.dfy`): the class `PuzzleModel`.
  - The board is an `array2<Square>` tied to a ghost grid value by `Valid()`.
  - `gameOver` is a `SolvedFlag` reference cell, because `equals` compares
    these cells by reference.
  - Every method is proved against the `PuzzleSpec` definitions through
    `Snapshot()`, the state value its fields hold.
- `PuzzleScenarios` (`puzzle_scenarios.dfy`): the situations of the unit
  tests, played on new `PuzzleModel` objects, with the expected values as
  postconditions.

Java's unchecked exceptions become values of a `Result` type:

- A board access off the board (`ArrayIndexOutOfBoundsException`) gives
  `Err(IndexOutOfBounds)` from:
  - `getSquare` and `setSquare`;
  - `isWall`, `isFinish`, `isCoin` and `isPiece`;
  - `makeMove`, which fails in its first `isCoin` call before it changes
    anything.
- `getLegalMoves` on a board without a piece gives `Err(NullPointer)`,
  because its scan leaves `positionOfPiece` null.

Three behaviours of the code are easy to misread:

- **Vacated cell.** `makeMove` looks the cell the piece leaves up in the
  fixed layout that `makeBoardCopy` rebuilds. So the cell shows a coin
  exactly when the starting layout has one there, whatever it held before
  the piece arrived (`PuzzleSpec.Vacated`).
- **Equality.** `equals` compares the `gameOver` cells by reference
  (`Objects.equals` on the wrapper objects). Every puzzle owns its cell, so
  a clone never equals its original.
- **Finding the piece.** `getLegalMoves` scans the board for the piece,
  while `isLegalMove` measures from `fromPosition`. `LegalMovesUnderInv`
  with `Reachable` shows that the two agree in every state reached by legal
  moves.

## Model

| member | source | states |
|---|---|---|
| Decimal.IntToString | src/main/java/puzzle/model/Position.java:12 | The `%d` text of an integer is non-empty and made of digits, with a leading minus sign exactly when the integer is negative. It has no leading zeros: the first digit is `0` only in the text "0". |
| Decimal.ParseIntToString | src/main/java/puzzle/model/Position.java:12 | The decimal text of every integer reads back to that integer. |
| Positions.Equals | src/main/java/puzzle/model/Position.java:9 | Two positions are equal exactly when their rows are equal and their columns are equal. |
| Positions.ToString | src/main/java/puzzle/model/Position.java:11-13 | The text of a position has at least six characters, starts with "(" and ends with ")". |
| Positions.ParseToString | src/main/java/puzzle/model/Position.java:11-13 | Reading the row between "(" and ", " and the column between ", " and ")" gives back the position the text was made from. |
| Positions.ToStringInjective | src/main/java/puzzle/model/Position.java:11-13 | Two positions have the same text exactly when they are equal. |
| Positions.OriginText | src/test/java/puzzle/model/PositionTest.java:21-29 | The origin's text is "(0, 0)". |
| PuzzleSpec.OnBoard | src/main/java/puzzle/model/PuzzleModel.java:236-238 | `isOnBoard`: both coordinates lie in 0..7. |
| PuzzleSpec.Put | src/main/java/puzzle/model/PuzzleModel.java:198-200 | Setting a cell changes that cell to the given kind and leaves every other cell as it was. |
| PuzzleSpec.LegalStepDistance | src/main/java/puzzle/model/PuzzleModel.java:282-286 | For a non-negative step, the target is at step distance exactly when it is one of the four cells a step away along a row or a column. |
| PuzzleSpec.LegalMove | src/main/java/puzzle/model/PuzzleModel.java:296-301 | A move is legal exactly when the target is on the board, is one step from the piece's cell and is not a wall. The board test comes first, so no cell is read off the board. |
| PuzzleSpec.Step | src/main/java/puzzle/model/PuzzleModel.java:210-229 | A move makes the target the piece's cell and adds exactly one to the count. The step size flips exactly when the target held a coin, and the solved flag ends up set exactly when it was set or the target held the finish. The old cell becomes a coin or empty, from the fixed layout. The target becomes the piece. Every other cell is unchanged. |
| PuzzleSpec.FirstPiece | src/main/java/puzzle/model/PuzzleModel.java:353-358 | The inner scan stops at the first piece in the row; when there is none, the row has no piece. |
| PuzzleSpec.PieceScan | src/main/java/puzzle/model/PuzzleModel.java:352-359 | What the scan finds after some rows is an on-board piece cell in those rows: the first piece of its row, with no piece in any later scanned row, so the scan ends on the first piece of the last row that holds one. When it finds nothing, those rows hold no piece. |
| PuzzleSpec.Wrap32 | src/main/java/puzzle/model/PuzzleModel.java:425-434 | Java `int` arithmetic: the result lies in the 32-bit signed range and agrees with the exact value modulo 2^32. |
| PuzzleSpec.InitialState | src/main/java/puzzle/model/PuzzleModel.java:55-111 | A new puzzle has its only piece at (0, 0) and the finish at (7, 7). It has 13 coins, 5 walls, one piece and one finish, step size 2, no moves, and is not solved. |
| PuzzleSpec.InitialCount | src/main/java/puzzle/model/PuzzleModel.java:55-111 | The starting table has 44 empty cells, 13 coins, 5 walls, 1 piece and 1 finish. |
| PuzzleSpec.InitialText | src/test/java/puzzle/model/PuzzleModelTest.java:132-141 | The board text of a new puzzle is the eight lines the test expects. |
| PuzzleSpec.LineOfEight | src/main/java/puzzle/model/PuzzleModel.java:312-315 | One line of the board text is each cell's ordinal digit followed by a space, then a newline. |
| PuzzleSpec.InitialInv | src/main/java/puzzle/model/PuzzleModel.java:55-111 | A new puzzle satisfies the game invariant. |
| PuzzleSpec.StepPreservesInv | src/main/java/puzzle/model/PuzzleModel.java:210-229 | A move that `isLegalMove` accepts keeps the invariant. The invariant says the piece is at `fromPosition`, and every other cell shows the fixed layout, except the finish cell once the piece has left it. |
| PuzzleSpec.RunPreservesInv | src/main/java/puzzle/model/PuzzleModel.java:210-229 | Any run of legal moves keeps the invariant, adds its length to the move count, and never clears a set solved flag. |
| PuzzleSpec.InvConsequences | src/main/java/puzzle/model/PuzzleModel.java:219-227 | Under the invariant, exactly one cell is the piece and it is at `fromPosition`. Until the puzzle is solved, every other cell shows the fixed layout, so coins are never used up. Walls are never overwritten. |
| PuzzleSpec.Reachable | src/main/java/puzzle/model/PuzzleModel.java:296-301 | Every state reached from a new puzzle by legal moves satisfies the invariant. Its move count is the number of moves, it has exactly one piece at `fromPosition`, and until it is solved every other cell shows the fixed layout. |
| PuzzleSpec.SolvedIsPermanent | src/main/java/puzzle/model/PuzzleModel.java:216-218 | Once set, the solved flag stays set over any further moves. |
| PuzzleSpec.TwoCoinsRestoreStep | src/main/java/puzzle/model/PuzzleModel.java:213-215 | Two coin landings in a row bring the step size back to what it was. |
| PuzzleSpec.ScanFindsOnlyPiece | src/main/java/puzzle/model/PuzzleModel.java:352-359 | When the board has exactly one piece, the scan finds it. |
| PuzzleSpec.LegalMovesUnderInv | src/main/java/puzzle/model/PuzzleModel.java:347-375 | In any state satisfying the invariant, `getLegalMoves` succeeds and returns at most four positions. These are exactly the positions `isLegalMove` accepts. |
| PuzzleSpec.FilteredMembers | src/main/java/puzzle/model/PuzzleModel.java:366-373 | The directions loop keeps exactly the candidates that `isLegalMove` accepts. |
| PuzzleSpec.FilteredSize | src/main/java/puzzle/model/PuzzleModel.java:366-373 | The directions loop keeps no more positions than it tries. |
| PuzzleSpec.FilteredOfFour | src/main/java/puzzle/model/PuzzleModel.java:361-373 | The set built from the four directions is the union of the legal ones among them. |
| PuzzleSpec.InitialScan | src/main/java/puzzle/model/PuzzleModel.java:352-359 | In a new puzzle the scan finds the piece at (0, 0). |
| PuzzleSpec.InitialMoveLegality | src/main/java/puzzle/model/PuzzleModel.java:296-301 | From a new puzzle, the moves to (0, 2) and (2, 0) are legal and the moves to (-2, 0) and (0, -2) are not. |
| PuzzleSpec.LegalMovesFromOrigin | src/main/java/puzzle/model/PuzzleModel.java:347-375 | With the piece scanned at the origin and step 2, `getLegalMoves` is {(0, 2), (2, 0)} when just those two candidates are legal. |
| PuzzleSpec.InitialLegalMoves | src/test/java/puzzle/model/PuzzleModelTest.java:157-159 | The legal moves of a new puzzle are exactly (0, 2) and (2, 0). |
| PuzzleModels.Tabulate | src/main/java/puzzle/model/PuzzleModel.java:56-108 | The nested loops fill a new 8x8 array with the table's cells. |
| PuzzleModels.PuzzleModel.constructor | src/main/java/puzzle/model/PuzzleModel.java:55-111 | A new puzzle holds the starting table, the piece at (0, 0), step 2, no moves, and a new flag that is not set. |
| PuzzleModels.PuzzleModel.Copy | src/main/java/puzzle/model/PuzzleModel.java:389-397 | The copy has its own new array and flag, and the same cells, counters, step size and piece cell as its source. |
| PuzzleModels.PuzzleModel.MakeBoardCopy | src/main/java/puzzle/model/PuzzleModel.java:117-172 | `makeBoardCopy` returns a new array holding the fixed layout. |
| PuzzleModels.PuzzleModel.GetSquare | src/main/java/puzzle/model/PuzzleModel.java:189-191 | On the board, the result is the cell's kind. Off the board, it is the index failure. |
| PuzzleModels.PuzzleModel.SetSquare | src/main/java/puzzle/model/PuzzleModel.java:198-200 | On the board, only that cell changes. Off the board, it fails and nothing changes. |
| PuzzleModels.PuzzleModel.IsWall | src/main/java/puzzle/model/PuzzleModel.java:245-247 | On the board, true exactly when the cell is a wall. Off the board, the index failure. |
| PuzzleModels.PuzzleModel.IsFinish | src/main/java/puzzle/model/PuzzleModel.java:254-256 | On the board, true exactly when the cell is the finish. Off the board, the index failure. |
| PuzzleModels.PuzzleModel.IsCoin | src/main/java/puzzle/model/PuzzleModel.java:263-265 | On the board, true exactly when the cell is a coin. Off the board, the index failure. |
| PuzzleModels.PuzzleModel.IsPiece | src/main/java/puzzle/model/PuzzleModel.java:272-274 | On the board, true exactly when the cell is the piece. Off the board, the index failure. |
| PuzzleModels.PuzzleModel.IsLegalStepDistance | src/main/java/puzzle/model/PuzzleModel.java:282-286 | True exactly when the target is one of the four cells the current step size away. |
| PuzzleModels.PuzzleModel.IsLegalMove | src/main/java/puzzle/model/PuzzleModel.java:296-301 | True exactly when the target is on the board, one step from `fromPosition` and not a wall. This is `LegalMove` of the held state. |
| PuzzleModels.PuzzleModel.IsSolved | src/main/java/puzzle/model/PuzzleModel.java:337-340 | The solved flag's value. |
| PuzzleModels.PuzzleModel.MovePiece | src/main/java/puzzle/model/PuzzleModel.java:219-227 | The target becomes the piece, the old cell then takes the given kind, and the target is the new `fromPosition`. |
| PuzzleModels.PuzzleModel.MakeMove | src/main/java/puzzle/model/PuzzleModel.java:210-229 | On the board, the fields afterwards hold `Step` of the state before. Off the board, it fails and nothing changes. |
| PuzzleModels.PuzzleModel.FindPiece | src/main/java/puzzle/model/PuzzleModel.java:350-359 | The scan loop's result is `PieceScan` of the cells, where a later row overrides an earlier one. |
| PuzzleModels.PuzzleModel.LegalAround | src/main/java/puzzle/model/PuzzleModel.java:361-373 | The directions loop returns the legal candidates around the given cell. |
| PuzzleModels.PuzzleModel.GetLegalMoves | src/main/java/puzzle/model/PuzzleModel.java:347-375 | The result is `LegalMoves` of the held state: a null failure when the board has no piece, and otherwise the legal cells around the piece found. |
| PuzzleModels.PuzzleModel.Clone | src/main/java/puzzle/model/PuzzleModel.java:381-398 | The clone is a new object with a new array and flag, holding the same state. |
| PuzzleModels.PuzzleModel.Equals | src/main/java/puzzle/model/PuzzleModel.java:400-423 | True for the same object and false for null or a non-puzzle. Otherwise true exactly when the move counts are equal, both share one `gameOver` cell and all cells are equal. Equal puzzles hash alike. |
| PuzzleModels.PuzzleModel.HashCode | src/main/java/puzzle/model/PuzzleModel.java:425-434 | The hash is `HashOf` the move count, the solved value and the cells, so it depends on nothing else. |
| PuzzleModels.PuzzleModel.ToString | src/main/java/puzzle/model/PuzzleModel.java:308-318 | The text is `GridText` of the cells: per row, each ordinal and a space, then a newline. |
| PuzzleModels.PuzzleModel.AppendRow | src/main/java/puzzle/model/PuzzleModel.java:312-314 | The inner loop appends one row's text. |
| PuzzleScenarios.NewPuzzleSquares | src/test/java/puzzle/model/PuzzleModelTest.java:44-61 | In a new puzzle, (0, 0) is the piece, (0, 2) is empty, (0, 4) is a coin, (2, 2) is a wall and (7, 7) is the finish. (8, 8) is off the board. |
| PuzzleScenarios.NewPuzzleKinds | src/test/java/puzzle/model/PuzzleModelTest.java:70-103 | Each kind test of a new puzzle holds for a cell of that kind and fails for one that is not. |
| PuzzleScenarios.NewPuzzleMoves | src/test/java/puzzle/model/PuzzleModelTest.java:110-125 | (0, 2) is at step distance from (0, 0) and (0, 4) is not. (0, 2) is a legal move, while the coin at (0, 4) and the wall at (2, 2) are not. |
| PuzzleScenarios.NewPuzzleText | src/test/java/puzzle/model/PuzzleModelTest.java:132-141 | `toString` of a new puzzle is the fixture text. |
| PuzzleScenarios.NewPuzzleStart | src/test/java/puzzle/model/PuzzleModelTest.java:148-159 | A new puzzle is not solved, and its legal moves are {(0, 2), (2, 0)}. |
| PuzzleScenarios.CloneOfNewPuzzle | src/test/java/puzzle/model/PuzzleModelTest.java:167-194 | A clone does not equal its original but hashes the same, and a puzzle equals itself. |
| PuzzleScenarios.MovedClone | src/test/java/puzzle/model/PuzzleModelTest.java:177-185 | A clone moved to (0, 2) does not equal its original, and the original keeps the state of a new puzzle. No puzzle equals null or an object of another class. |

## Left out

- The breadth-first solver and the `State` interface belong to a library that is not part of this model. Only the `State` operations `PuzzleModel` implements are modelled.
- JavaFX wrappers and properties are left out: `squareProperty`, `numberOfMovesProperty`, `gameOverProperty` and the per-cell `ReadOnlyObjectWrapper` objects. The cells and the counter are plain fields. Only the identity of the `gameOver` cell, which `equals` depends on, is kept.
- `startTime` is left out. It reads the clock and nothing in the core uses it.
- The `main` printer is left out. It only prints.
- `PuzzleModels.PuzzleModel.HashCode`: the source hashes each cell with the enum constant's identity hash, which differs from run to run. The model uses the ordinal instead. The seed, the multiplier 31 and the 32-bit wrap-around are modelled.
- `PuzzleModels.PuzzleModel.MakeMove`: the move counter is an unbounded `nat`, so the 32-bit wrap-around after 2^31 - 1 moves is not modelled.
- `PuzzleModels.PuzzleModel.IsLegalStepDistance` and `PuzzleSpec.LegalStepDistance`: the subtraction and `Math.abs` are on unbounded integers, while Java's wrap at 32 bits. They differ for coordinates near the `int` limits: at step 2, Java finds (2147483647, 0) at step distance from (-2147483647, 0) and the model does not. On-board positions and their four candidates are far from those limits.
- `PuzzleModels.PuzzleModel.GetLegalMoves`: the candidate coordinates `positionOfPiece.row() + direction[0]` are unbounded integers, so Java's wrap-around near the `int` limits is not modelled. The scanned piece is always on the board, so this cannot arise.
- `Positions.ToString` and `Decimal.IntToString`: `String.format("%d", …)` writes digits from the default locale's zero digit. The model assumes a locale whose zero digit is `'0'` and writes ASCII digits.
- `PuzzleModels.PuzzleModel.MakeMove`: the source has two branches that differ only in the kind written to the vacated cell. The model computes that kind once and runs the shared statements once.
- The `CloneNotSupportedException` branch of `clone` cannot be reached, because `PuzzleModel` is cloneable. It is not modelled.
- `PuzzleModels.PuzzleModel.Equals`: the test also compares a puzzle with a string. Dafny strings are values, not objects, so `PuzzleScenarios.MovedClone` uses an object of another class instead.
- The controllers, the application class and `Main` are not part of this model. They handle scenes, mouse input, result files and the leaderboard.
