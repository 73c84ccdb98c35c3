# 2048 board engine — Dafny model

This project models the board engine of a 2048 game: the `Game2048` class in
`src/main.py`. The engine holds a `SIZE`×`SIZE` board of integer cells,
where 0 means empty and any other value is a tile 2, 4, 8, …, plus a score.
It does four things:

- It slides every line of the board in one of four directions. Tiles are
  compacted, equal neighbours merge once, and the merges score points.
- It spawns a 2 or a 4 on an empty cell.
- It tests whether any move is left.
- It resets for a new game.

The project has three modules, one file each:

- `line.dfy`, module `Line`: the line kernel (`slide_row_left`). It has the
  reference definition of a slide (`SlideLeft`, `SlideGain`): squeeze out
  empty cells, merge equal tiles pairwise from the front (`Merge`), pad with
  empty cells. It also has `PassFrom`, the merge pass written index by index
  as the engine's loop runs it, and `MergePass`, the same pass as a
  recursion on the rest of the line. The lemmas `PassFromSplit` and
  `PassOnCompacted` link the loop to the pass and the pass to `Merge`.
- `board.dfy`, module `Board`: the board as a value. `Lines` and `Restore`
  are the transform pair that turns a board into the lines one direction
  slides (rows, reversed rows, columns, reversed columns) and back. `Moved`
  and `MoveGain` give a move's result board and points. The module also has
  the row-major empty-cell list (`EmptyCells`), tile placement (`Place`) and
  the terminal test (`MovesAvailable`).
- `game.dfy`, module `Game`: the class `Game2048`. It has a `const size`
  (`GameConfig.SIZE`) and the fields `board: seq<seq<int>>` and
  `score: int`. Its methods update the fields in place as the source does,
  with loops and loop invariants. Each method is proved against the
  functions of `Board` and `Line`.

How some source details are modelled:

- Directions are strings, as in the source. A string other than `"left"`,
  `"right"`, `"up"` or `"down"` changes nothing, and `Move` returns false.
- The engine's random choices are parameters. `pick` is the index into the
  empty-cell list that `random.choice` would select. `value` is the 2 or 4
  that the weighted coin would place.
- `SlideRowLeft` requires a line of exactly `size` cells. The engine only
  ever passes it board rows and columns.
- Python integers are unbounded, so Dafny's `int` needs no wrap-around.

Behaviour of the code that the model keeps:

- The code checks no board size, so `n` may be 0 or 1; the model takes any
  `n`.
- An unknown direction returns false and raises nothing.
- A slid line may still hold two equal neighbours: `[2,2,4,0]` slides to
  `[4,4,0,0]` (`Line.SlideNoCascade`).
- The terminal test compares neighbours for plain equality, zeros
  included. This gives the same answer as comparing only non-zero tiles,
  because any zero cell already returns true earlier.

## Model

| member | source | states |
|---|---|---|
| `Game.Game2048.SlideRowLeft` | src/main.py:102-115 | The compact / merge-pass / compact loop returns exactly `SlideLeft(row)` and scores exactly `SlideGain(row)`: the in-place pass equals the reference pairwise merge of the row's tiles |
| `Line.PassMergeStep` | src/main.py:108-111 | When the tile at `i` equals its right neighbour, the pass from `i` on writes the doubled tile at `i`, continues from an emptied cell `i+1`, and scores the doubled value |
| `Line.PassKeepStep` | src/main.py:108 | When the tile at `i` does not merge, the pass keeps cell `i` unchanged, continues at `i+1` and scores nothing there |
| `Line.PassFromSplit` | src/main.py:107-111 | The loop run from index `i` keeps the cells before `i` and, on the rest, does what the recursive pass `MergePass` does, scoring the same points |
| `Line.PassFromStart` | src/main.py:107-111 | Run from the first index, the loop is exactly the recursive pass and scores its points |
| `Line.SlideViaPass` | src/main.py:104-111 | Compacting the line and running the pass leaves exactly the merged tiles `Merge(NonZero(row))`, and scores `SlideGain(row)` |
| `Line.PassOnCompacted` | src/main.py:104-111 | On a compacted line (tiles, then empty cells) the cell-by-cell pass yields the tiles `Merge(t)` and scores `Gain(t)` |
| `Line.NonZero` | src/main.py:104 | The compacted tiles are never more than the cells and contain no empty cell |
| `Line.Merge` | src/main.py:107-111 | Merging never makes a line of tiles longer |
| `Line.SlideLeftShape` | src/main.py:104-114 | A slid line has the input's length; every tile comes before every empty cell; its tiles in order are the merged tiles of the input |
| `Line.SlideLeftSum` | src/main.py:102-115 | Sliding preserves the sum of the line's values |
| `Line.SlideLeftTiles` | src/main.py:106-111 | A line of tiles (0 or powers of two ≥ 2) slides to a line of tiles, and the points scored are ≥ 0 |
| `Line.GainZeroIffUnmerged` | src/main.py:108-110 | On tiles, a merge pass scores 0 exactly when no two tiles merge |
| `Line.MergeChangedShorter` | src/main.py:107-111 | A merge that changes the tiles always reduces their number |
| `Line.SlideGainChanges` | src/main.py:102-115 | A slide that scores points changes the line |
| `Line.SlideLeftIdempotent` | src/main.py:102-115 | Re-sliding a slid line changes nothing when the second slide would score nothing |
| `Line.SlideLeftFixed` | src/main.py:102-115 | A full line without equal neighbours is left as it is and scores nothing |
| `Line.SlideLeavesEmptyCell` | src/main.py:102-115 | After a slide that changed the line, or of a line that had an empty cell, the line has an empty cell |
| `Line.SlideFourEqual` | src/main.py:107-111 | Merges do not cascade: `[2,2,2,2]` slides to `[4,4,0,0]` with 8 points |
| `Line.SlideNoCascade` | src/main.py:107-111 | `[2,2,4,0]` slides to `[4,4,0,0]` with 4 points, so a slid line can still hold equal neighbours |
| `Line.SlideSingleAtWall` | src/main.py:102-115 | `[2,0,0,0]` stays `[2,0,0,0]` and scores 0 |
| `Line.ReverseInvolution` | src/main.py:127-129 | Reversing a row twice gives the row back |
| `Line.ReverseSum` | src/main.py:127-129 | Reversal keeps the sum of a row |
| `Board.TransposeInvolution` | src/main.py:132-137 | Transposing a square board twice gives it back |
| `Board.TotalTranspose` | src/main.py:132-137 | Transposition keeps the board's total value |
| `Board.RestoreLines` | src/main.py:121-145 | Restoring the lines a direction reads gives the original board back |
| `Board.LinesRestore` | src/main.py:121-145 | Reading the lines of a restored board gives the lines back |
| `Board.Moved` | src/main.py:117-150 | The board after any move, including an unknown direction, is again `n`×`n` |
| `Board.MovedTotal` | src/main.py:117-150 | A move in any direction keeps the board's total tile value |
| `Board.MovedTiles` | src/main.py:117-150 | A move of a board of tiles gives a board of tiles and scores no negative points |
| `Board.MovedLines` | src/main.py:121-145 | Left sets row `i` to `slide(row)`; right to `reverse(slide(reverse(row)))`; up sets column `i` to `slide(column)`; down to `reverse(slide(reverse(column)))` |
| `Board.UnchangedMoveScoresNothing` | src/main.py:147-150 | A move that leaves the board cell-for-cell unchanged has gain 0, so withholding its score loses nothing |
| `Board.MoveIdempotent` | src/main.py:117-150 | Applying a direction to its own result changes nothing when that second move scores nothing |
| `Board.NoMovesMeansFixed` | src/main.py:117-163 | When no move is available, every direction leaves the board unchanged and scores 0 |
| `Board.ChangedMoveLeavesEmptyCell` | src/main.py:117-150 | A move that changed the board always leaves an empty cell |
| `Board.EmptyCellsExact` | src/main.py:92-97 | The empty-cell list holds exactly the in-range zero cells, so it is empty exactly when the board is full |
| `Board.EmptyCellsCount` | src/main.py:92-97 | On an `n`×`n` board, empty cells plus tiles number `n*n` |
| `Board.PlaceCells` | src/main.py:99-100 | Writing a value into an empty cell keeps the board square, sets that cell, changes no other cell, and keeps a board of tiles made of tiles when the value is a tile |
| `Board.PlaceCounts` | src/main.py:99-100 | Writing a non-zero value into an empty cell adds one tile and adds the value to the total |
| `Board.SpawnedCounts` | src/main.py:91-100 | A spawn keeps the board `n`×`n`; when the board has an empty cell it adds one tile and the spawned value to the total |
| `Board.InitialCounts` | src/main.py:51-54 | Two spawns on the empty board leave two tiles worth `value1 + value2` when SIZE ≥ 2, one tile worth `value1` for SIZE 1, and nothing for SIZE 0 |
| `Board.EmptyBoardFacts` | src/main.py:51 | The reset board is `n`×`n`, has no tile, total 0, and `n*n` empty cells |
| `Board.ScenarioMergeLeft` | src/main.py:121-124 | `[[2,2,0,0],0…]` moved left becomes `[[4,0,0,0],0…]` with 4 points |
| `Board.ScenarioMergeRight` | src/main.py:125-130 | `[[2,0,2,0],0…]` moved right has top row `[0,0,0,4]` and 4 points |
| `Board.ScenarioAtWall` | src/main.py:121-124 | `[[2,0,0,0],0…]` moved left is unchanged with 0 points |
| `Game.Game2048.SlideRows` | src/main.py:121-124 | The row loop sets every row to its slide and sums the rows' points |
| `Game.Game2048.SlideRowsReversed` | src/main.py:125-130 | The row loop sets every row to `reverse(slide(reverse(row)))` and sums the points of the reversed rows |
| `Game.Game2048.Move` | src/main.py:117-150 | The new board is `Moved(old board, direction)`. The result is true iff the board differs from the entry copy. The score grows by the move's gain only when true; that equals always adding the gain. An unknown direction returns false with board and score untouched. The engine invariant is kept |
| `Game.Game2048.CheckMovesAvailable` | src/main.py:152-163 | Without modifying anything, returns true iff some cell is 0 or some horizontally or vertically adjacent pair is equal; the loops over `i` < SIZE and `j` < SIZE-1 cover every pair |
| `Game.Game2048.AddNewTile` | src/main.py:91-100 | The new board is `Spawned(old board, pick, value)`: on a full board nothing changes; otherwise the `pick`-th row-major empty cell was empty and now holds `value`, every other cell is unchanged, the tile count rises by one and the total by `value` |
| `Game.Game2048.InitGame` | src/main.py:50-54 | The new board is the empty board with the `pick1`-th empty cell set to `value1`, then the `pick2`-th empty cell of that board set to `value2`; the score is 0, every cell is 0, 2 or 4, and exactly two cells are non-zero when `SIZE ≥ 2` (one for SIZE 1, none for 0) |
| `Game.Game2048.constructor` | src/main.py:45-48 | A new engine has the configured size, the engine invariant, score 0 and exactly the board that `InitGame` builds from the two picks and values |
| `Game.Game2048.Tick` | src/main.py:190-192 | A changed move is always followed by a spawn on the moved board: it has an empty cell, its `pick`-th empty cell now holds `value` and every other cell keeps its moved value; the total rises by `value` and the tile count by one over the moved board. `lost` is true exactly when the move changed the board and no move is left afterwards. An unchanged move leaves everything as it was |

## Left out

- Rendering (`draw_tile`, `draw_score`, `draw_board`, the `pygame` display and font set-up in `__init__`, `TILE_COLORS`, and the layout and colour fields of `GameConfig`): drawing through a foreign graphics library, with no effect on board or score.
- The event loop `run`, except its move → spawn → check step (`Tick`): event polling, the frame clock, `print` and `exit` are I/O. In `run` the `lost` flag is a local that keeps its value across frames. Since a true value ends the program, `Tick` returns it freshly each time.
- Randomness: `random.choice` over the empty cells becomes the `pick` parameter. `random.random() < 0.9` becomes the `value` parameter, restricted to 2 or 4.
- AddNewTile: does not model the 9-to-1 weighting of 2 over 4, or the uniform distribution of the chosen cell, because the model has no probabilities. It states only which outcomes are possible.
- `RandomPlayer` and `src/z2048/controller.py` (`Controller`, `Human`): they only draw a random direction or poll the keyboard through `pygame`.
- Aliasing: the board is a value (`seq<seq<int>>`), so the source's Python lists of rows, which could alias, are not modelled.
