# Connect Four game engine, modelled in Dafny

This project models the game logic of `connect4.js`, a browser Connect Four
game. Two players take turns dropping pieces into the columns of a 6 × 7
board. A piece falls to the lowest empty row of its column. The game ends
when one player has four in a row (horizontally, vertically or diagonally)
or the board is full.

The model has four modules:

- `Grid` (`board.dfy`): the cell type (`Empty`, `P1`, `P2`), the board as
  a sequence of rows, the empty board `makeBoard` builds, the landing row
  `findSpotForCol` computes, placing a piece, the tie test, and the gravity
  invariant (in every column the pieces form one block resting on the
  bottom row).
- `WinCheck` (`win.dfy`): the four runs built at each cell, `_win`, the
  scan's verdict `HasWin`, and two facts about the scan. First, it finds
  every four-in-a-row in any of the eight directions, and nothing else.
  Second, it gives the same verdict on a board and its mirror image.
- `Engine` (`engine.dfy`): the global `board` and `currPlayer` as the class
  `Game`, with methods `MakeBoard`, `FindSpotForCol`, `CheckForWin` and
  `Drop`. `Drop` is the click handler without its display calls. It
  returns an `Outcome` (`Ignored`, `Won`, `Tie` or `Continue`) where the
  page would show a message. `Step` is the same transition as a function
  of the old state, and `Drop` is proved to perform exactly `Step`. The
  lemmas about `Step` and about click sequences (`Play`) state what one
  move and many moves do.
- `Scenarios` (`scenarios.dfy`): a column filling from the bottom, four
  pieces in one column winning, and a diagonal win.

A page load corresponds to `new Game()` followed by `MakeBoard()`: the
globals start as `currPlayer = 1` and an empty `board`, then the board is
built.

## Model

| member | source | states |
|---|---|---|
| `Grid.PieceOf` | connect4.js:97 | The piece stored for the current player is never empty, and players 1 and 2 store different pieces. |
| `Grid.EmptyBoard` | connect4.js:19-22 | The new board has `defaultHeight` rows of `defaultWidth` cells, and every cell is empty. |
| `Grid.LandingRow` | connect4.js:56-64 | A returned row is on the board, its cell in the column is empty, and every cell below it in the column is occupied. The result is "none" exactly when every cell of the column is occupied. |
| `Grid.Place` | connect4.js:97 | Writing a cell sets exactly that cell and leaves every other cell unchanged. |
| `Grid.FullIffNoLandingRow` | connect4.js:105 | The tie test (every cell occupied) holds exactly when no column has a landing row. |
| `Grid.EmptyColumnLandsAtBottom` | connect4.js:58-61 | On an empty column the landing row is `defaultHeight - 1`. |
| `Grid.GravityLandingRow` | connect4.js:54-64 | When gravity holds, every cell at or above the landing row is empty and every cell below it is occupied, so it is also the top empty cell. |
| `Grid.PlaceKeepsGravity` | connect4.js:90-97 | A piece placed at the landing row keeps every column stacked from the bottom. |
| `Grid.EmptyBoardFacts` | connect4.js:19-22 | The empty board obeys gravity and is not full. |
| `WinCheck.OffBoardNeverMatches` | connect4.js:120-127 | A run with any cell outside the board never wins. |
| `WinCheck.RunsAreRays` | connect4.js:136-139 | The horizontal, vertical, down-right and down-left runs are the lines in directions (0,1), (1,0), (1,1) and (1,-1) from the anchor. |
| `WinCheck.ReversedRunWins` | connect4.js:120-127 | A winning run read backwards is still winning, since only its cells matter. |
| `WinCheck.RayFound` | connect4.js:134-145 | A winning line in any of the eight directions, starting anywhere, makes the scan succeed. |
| `WinCheck.HasWinIffFourInARow` | connect4.js:134-146 | The scan succeeds if and only if the player has four consecutive on-board cells along some line in one of the eight compass directions. |
| `WinCheck.MirrorKeepsWin` | connect4.js:134-146 | Mirroring a winning board left to right keeps a winning run. Rows stay rows, columns stay columns, and the two diagonals swap. |
| `WinCheck.MirrorSymmetric` | connect4.js:134-146 | Win detection gives the same verdict on a board and its mirror image. |
| `Engine.Other` | connect4.js:109 | For a player in {1, 2}, the next player is the other one of the two. |
| `Engine.Step` | connect4.js:85-110 | A click is ignored (board and player unchanged) exactly when the column is full. The player changes exactly when the outcome is `Continue`, and always stays in {1, 2}. |
| `Engine.StepOutcome` | connect4.js:99-109 | An accepted move is `Won` by the mover exactly when the mover now has a winning run. Otherwise it is `Tie` exactly when the board is full, and otherwise `Continue`. |
| `Engine.StepChangesOneCell` | connect4.js:96-97 | An accepted move writes the mover's piece into the landing cell, which was empty, and leaves every other cell unchanged. |
| `Engine.StepKeepsGravity` | connect4.js:90-97 | Every click, accepted or ignored, preserves gravity. |
| `Engine.WinBeforeTie` | connect4.js:99-106 | A move that makes four in a row and also fills the board is reported as a win, not a tie. |
| `Engine.NoGameOverLock` | connect4.js:85-110 | After a winning move, a click on any column that still has room is accepted. |
| `Engine.PlayAlternates` | connect4.js:108-109 | Over any sequence of clicks, the player to move is the first player after an even number of `Continue` moves and the other player after an odd number. |
| `Engine.PlayKeepsGravity` | connect4.js:90-97 | Gravity holds after any sequence of clicks that starts from a board obeying it. |
| `Engine.Game.constructor` | connect4.js:12-13 | The initial state: `currPlayer` is 1 and the board has no rows. |
| `Engine.Game.MakeBoard` | connect4.js:19-22 | The board is replaced by the empty `defaultHeight` × `defaultWidth` board, and `currPlayer` is left unchanged. |
| `Engine.Game.FindSpotForCol` | connect4.js:56-64 | The bottom-up scan returns the landing row: on the board, empty, and with every cell below it occupied. It returns none exactly when the column is full. It reads the state and changes nothing. |
| `Engine.Game.CheckForWin` | connect4.js:114-146 | The nested scan returns true exactly when some anchor cell and one of the four runs give four on-board cells that all hold the current player's piece. It changes nothing. |
| `Engine.Game.Drop` | connect4.js:85-110 | A full column leaves the board and player unchanged and returns `Ignored`. Otherwise exactly the landing cell becomes the current player's piece, and the outcome is checked in order: `Won` first (player kept), then `Tie` (player kept), otherwise `Continue` with the player flipped. The new state equals `Step` of the old one, and gravity is preserved. |
| `Scenarios.ColumnFillsBottomUp` | connect4.js:58-61 | In a column that starts empty, the k-th piece lands in row `defaultHeight - 1 - k`, rows above stay empty, and other columns are untouched. After `defaultHeight` pieces the column is full. |
| `Scenarios.FourInColumn` | connect4.js:137 | Four pieces of one player in an empty column land in rows 5, 4, 3 and 2 and form the winning vertical run anchored at row 2. |
| `Scenarios.FourthDropWins` | connect4.js:99-102 | After three such drops, the fourth lands in row 2 and is reported as a win for that player. |
| `Scenarios.NoPieceNoWin` | connect4.js:120-127 | A player with no piece on the board never wins. |
| `Scenarios.DiagonalWin` | connect4.js:138-139 | Player 2 on (5,0), (4,1), (3,2), (2,3) wins through the down-left run anchored at (2,3). The down-right run from (5,0) leaves the board and does not match. Player 1 has no win. |

## Behaviour of the code that differs from a cleaned-up design

The model follows `connect4.js` as written:

- There is no game-over lock. After a win or a tie, further clicks are
  still processed (`Engine.NoGameOverLock`).
- There is no rejection of invalid columns. The column is an argument
  with the precondition `0 <= x < defaultWidth`.
- Board size is fixed by the constants `defaultWidth = 7` and
  `defaultHeight = 6`.
- Players are the numbers 1 and 2, with no names.
- A rising diagonal such as (5,0)–(2,3) is found by the down-left run
  anchored at its top cell (2,3), not by a down-right run from (5,0)
  (`Scenarios.DiagonalWin`).

## Left out

- `makeHtmlBoard`, `placeInTable` and `endGame` (connect4.js:26-52, 66-81) are DOM and `alert` code. `endGame` is modelled only as the returned `Outcome`.
- Reading the column from the click event (`+evt.target.id`, connect4.js:87) is a DOM string coercion. The column is an integer argument instead. Out-of-range or `NaN` columns are caller errors excluded by the precondition, so what JavaScript would do with `board[y][NaN]` is not modelled.
- The page bootstrap `makeBoard(); makeHtmlBoard();` (connect4.js:148-149) is not modelled. `new Game()` followed by `MakeBoard()` plays the role of its first call.
- JavaScript truthiness is replaced by explicit types. Empty cells are `undefined` in the code and `Empty` here. The tie test's truthy `cell` is `!= Empty`. `checkForWin`'s `undefined` result is `false`.
- Scenarios not modelled:
  - filling all 42 cells with alternating, non-winning moves to reach a tie;
  - any two-player game played through `Game.Drop` from the empty board.

  Both need proofs that no four-in-a-row exists on particular crowded boards. The tie/win ordering itself is covered by `Engine.StepOutcome` and `Engine.WinBeforeTie`.
- A well-formed board is a precondition of `Game.FindSpotForCol` and `Game.CheckForWin`: the code reads `board[y][x]` and would fail before `makeBoard` has run.
