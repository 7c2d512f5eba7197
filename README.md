# Principles of Computing mini-projects in Dafny

This project models three mini-projects from a course repository:

- The fifteen-puzzle solver, `07_fifteen_puzzle/fifteen_puzzle.py`. This is the main part.
- The line merge and the game object of 2048, `01-2_2048/01-2_2048.py`.
- The ordered word-list functions of Word Wrangler, `05_word_wrangler/word_wrangler.py`.

## Files

| file | module | contents |
|---|---|---|
| `wrappers.dfy` | `Wrappers` | `Option`, `Result` and `Outcome` |
| `fifteen_board.dfy` | `FifteenBoard` | the value-level grid, `update_puzzle` as `Update`, the blank-corner rotation |
| `fifteen_moves.dfy` | `FifteenMoves` | closed forms of the move-string builders; where their blank ends up (`Trace`) |
| `fifteen_checks.dfy` | `FifteenChecks` | the invariant scans and what they mean |
| `fifteen_phases.dfy` | `FifteenPhases` | each solver method as a function from the grid to a `Phase`, with its lemmas |
| `fifteen_puzzle.dfy` | `FifteenPuzzle` | the `Puzzle` class |
| `merge_line.dfy` | `MergeLine` | `merge`, `list_zeroes`, `list_numbers` |
| `game_2048.dfy` | `Game2048` | the `TwentyFortyEight` class |
| `word_wrangler.dfy` | `WordWrangler` | `remove_duplicates`, `intersect`, `merge`, `merge_sort`, `gen_all_strings` |

## Fifteen puzzle

`Puzzle` is a class. Its grid is a field of type `seq<seq<int>>`, and each method that changes a cell reassigns that field.

Each method is proved against a function that states what it computes or leaves behind:

| method | specified by |
|---|---|
| `update_puzzle` | `Update`, a `Run` that holds the board and the blank's cell, or the first failing token |
| each invariant check | a scan function: `LowerRowCheck`, `Row0Check`, `Row1Check` |
| each move-string builder | its closed form, such as `PositionTileMoves` |
| each `solve_*` method | a phase function that returns what the method returns and the grid it leaves (`InteriorPhase` … `SolvePhase`) |

The Python `assert`s become error values that the callers pass on, as the source's exceptions would:

- a label that is not found;
- a move off the grid;
- an unknown direction;
- a failed pre-test or post-test.

Lemmas in `FifteenPhases` state what each solver method promises:

- Its pre-test fails exactly when its invariant does not hold, and then nothing moves.
- On success, the post-test's invariant holds.
- The returned string takes the old grid to the new one.
- The grid stays a permutation of `0 .. h*w-1`.
- A successful `solve_puzzle` leaves exactly the solved grid.

The `solve_2x2` loop turns the top-left block with "rdlu" until `row0_invariant(0)` holds. The model proves this:

- Three turns restore the block, so the grids repeat with period three. This is `CornerSpinReturns` with `RotationCycles`.
- If none of the first three grids is solved, none ever is, and the source's loop would never end (`NeverSolvedAfterThree`).
- The model therefore stops after three turns with `Unsolvable`.

## 2048

`TwentyFortyEight` is a class with these fields:

- the direction table built by `__init__`;
- the grid;
- the `_empty` list.

`Move` reads each line of the table, merges it and writes it back. `Moved` states the grid it produces, cell by cell, from the geometry of the lines.

What `new_tile` draws at random is a `TileChoice` parameter. Its `pick` chooses among the empty cells, and its `four` flag decides a 4 instead of a 2.

As in the source, `_empty` holds the empty cells computed before the new tile was placed.

## Word Wrangler

- `remove_duplicates`, `intersect`, `merge` and `gen_all_strings` are methods with the source's loops.
- `merge_sort` is a recursive function over `Merged`, the function that specifies `merge`.
- Strings compare as Python compares them: the first differing letter decides, and a proper prefix comes first.

## Model

| member | source | states |
|---|---|---|
| FifteenPuzzle.TopLeft | 07_fifteen_puzzle/fifteen_puzzle.py:26-29 | the copied grid has the puzzle's shape and agrees with the initial grid on every cell of it |
| FifteenPuzzle.LocateFirst | 07_fifteen_puzzle/fifteen_puzzle.py:89-94 | the cell the row-by-row search returns is the first in row-major order that holds the value |
| FifteenPuzzle.Puzzle.constructor | 07_fifteen_puzzle/fifteen_puzzle.py:15-29 | without an initial grid the grid is solved (cell (r, c) holds c + width * r); with one, it is that grid's top-left height x width part |
| FifteenPuzzle.Puzzle.Clone | 07_fifteen_puzzle/fifteen_puzzle.py:72-78 | a fresh puzzle of the same size with an equal grid |
| FifteenPuzzle.Puzzle.GetNumber | 07_fifteen_puzzle/fifteen_puzzle.py:59-64 | the label at the cell |
| FifteenPuzzle.Puzzle.SetNumber | 07_fifteen_puzzle/fifteen_puzzle.py:66-70 | only that cell changes, to the value |
| FifteenPuzzle.Puzzle.CurrentPosition | 07_fifteen_puzzle/fifteen_puzzle.py:83-95 | the first cell holding solved_col + width * solved_row, or the not-found failure naming that value |
| FifteenPuzzle.Puzzle.UpdatePuzzle | 07_fifteen_puzzle/fifteen_puzzle.py:97-124 | the grid after applying the tokens in turn; the result fails exactly when Update stops, with its failure and with the tokens before the failing one applied |
| FifteenPuzzle.Puzzle.MoveBlank | 07_fifteen_puzzle/fifteen_puzzle.py:102-124 | one token: an off-grid or unknown token fails and leaves the grid unchanged; otherwise the blank swaps with that neighbour and moves there |
| FifteenPuzzle.Puzzle.ShiftBlank | 07_fifteen_puzzle/fifteen_puzzle.py:105-106 | the neighbour's tile goes to the blank's cell and 0 goes to the neighbour's cell |
| FifteenPuzzle.Puzzle.LowerRowInvariant | 07_fifteen_puzzle/fifteen_puzzle.py:129-158 | returns what LowerRowCheck says |
| FifteenPuzzle.Puzzle.Row0Invariant | 07_fifteen_puzzle/fifteen_puzzle.py:359-389 | returns what Row0Check says |
| FifteenPuzzle.Puzzle.Row1Invariant | 07_fifteen_puzzle/fifteen_puzzle.py:392-405 | returns what Row1Check says |
| FifteenPuzzle.Puzzle.ScanRowsBelow | 07_fifteen_puzzle/fifteen_puzzle.py:140-148 | the scan of whole rows below target_row, bottom row first, each from its last column |
| FifteenPuzzle.Puzzle.ScanRowLeftwards | 07_fifteen_puzzle/fifteen_puzzle.py:152-157 | the scan of one row from the last column down to from_col |
| FifteenPuzzle.Puzzle.ScanRowRightwards | 07_fifteen_puzzle/fifteen_puzzle.py:369-371 | the scan of one row from from_col up to the last column |
| FifteenPuzzle.Puzzle.MoveTileOffRow0 | 07_fifteen_puzzle/fifteen_puzzle.py:247-264 | the string is OffRow0Moves: ups to the row below the tile, then steps along to its column, then one "u" |
| FifteenPuzzle.Puzzle.MoveZeroAboveTile | 07_fifteen_puzzle/fifteen_puzzle.py:267-282 | the string is ZeroAboveTileMoves: ups to the row above the tile, then steps along to its column |
| FifteenPuzzle.Puzzle.AlongTo | 07_fifteen_puzzle/fifteen_puzzle.py:259-261 | \|zero_col - tile_col\| copies of the letter pointing from zero_col towards tile_col |
| FifteenPuzzle.Puzzle.MoveTileHorizontally | 07_fifteen_puzzle/fifteen_puzzle.py:285-309 | the string is HorizontalMoves: cycles "xdyu" one column at a time, then one more step |
| FifteenPuzzle.Puzzle.MoveTileVertically | 07_fifteen_puzzle/fifteen_puzzle.py:312-328 | the string is VerticalMoves: the ups past the tile, one "lddru" per row, then "ld" |
| FifteenPuzzle.Puzzle.PositionTile | 07_fifteen_puzzle/fifteen_puzzle.py:201-230 | the string is PositionTileMoves, built from the generators in the source's order |
| FifteenPuzzle.Puzzle.Test | 07_fifteen_puzzle/fifteen_puzzle.py:196 | the named invariant check, run on the grid |
| FifteenPuzzle.Puzzle.PostTest | 07_fifteen_puzzle/fifteen_puzzle.py:196 | the moves when the post-test passes, PostTestFailed when it does not, the scan's failure otherwise |
| FifteenPuzzle.Puzzle.UpdateThenTest | 07_fifteen_puzzle/fifteen_puzzle.py:195-198 | update_puzzle followed by the post-test, as UpdateThenFinish |
| FifteenPuzzle.Puzzle.SolveInteriorTile | 07_fifteen_puzzle/fifteen_puzzle.py:184-198 | the result and the new grid are InteriorPhase of the old grid |
| FifteenPuzzle.Puzzle.SolveCol0Tile | 07_fifteen_puzzle/fifteen_puzzle.py:331-353 | the result and the new grid are Col0Phase of the old grid |
| FifteenPuzzle.Puzzle.Col0Moves | 07_fifteen_puzzle/fifteen_puzzle.py:341-348 | width-2 "r"s when the tile is home; otherwise the positioning, "ruldrdlurdluurddlur", then width-2 "r"s |
| FifteenPuzzle.Puzzle.SolveRow0Tile | 07_fifteen_puzzle/fifteen_puzzle.py:408-428 | the result and the new grid are Row0Phase of the old grid |
| FifteenPuzzle.Puzzle.PlaceRow0Tile | 07_fifteen_puzzle/fifteen_puzzle.py:418-428 | the result and the new grid are Row0Placement |
| FifteenPuzzle.Puzzle.Row0Moves | 07_fifteen_puzzle/fifteen_puzzle.py:418-423 | empty when the tile is home; otherwise the positioning, then "urdlurrdluldrruld" |
| FifteenPuzzle.Puzzle.SolveRow1Tile | 07_fifteen_puzzle/fifteen_puzzle.py:431-445 | the result and the new grid are Row1Phase of the old grid |
| FifteenPuzzle.Puzzle.Solve2x2 | 07_fifteen_puzzle/fifteen_puzzle.py:450-464 | the result and the new grid are CornerPhase of the old grid |
| FifteenPuzzle.Puzzle.TurnCorner | 07_fifteen_puzzle/fifteen_puzzle.py:459-464 | the loop's result and grid are Spin from round 0 |
| FifteenPuzzle.Puzzle.CornerRound | 07_fifteen_puzzle/fifteen_puzzle.py:461-463 | it stops with Spin's result, or turns the block once and Spin lies one round further on |
| FifteenPuzzle.Puzzle.SolvePuzzle | 07_fifteen_puzzle/fifteen_puzzle.py:466-502 | the result and the new grid are SolvePhase of the old grid |
| FifteenPuzzle.Puzzle.CornerMoves | 07_fifteen_puzzle/fifteen_puzzle.py:478-484 | max_row - zero_row "d"s followed by max_col - zero_col "r"s |
| FifteenPuzzle.Puzzle.SolveLowerRows | 07_fifteen_puzzle/fifteen_puzzle.py:488-502 | the outer loop over rows h-1 .. 2, then the rest of the solve, as LowerPhases |
| FifteenPuzzle.Puzzle.SolveRowTiles | 07_fifteen_puzzle/fifteen_puzzle.py:489-493 | the inner loop over one row's columns, right to left, as RowPhases |
| FifteenPuzzle.Puzzle.SolveTile | 07_fifteen_puzzle/fifteen_puzzle.py:490-493 | one column of that loop; on success RowPhases is one column further on |
| FifteenPuzzle.Puzzle.SolveTopRows | 07_fifteen_puzzle/fifteen_puzzle.py:496-500 | columns w-1 .. 2 of rows 1 and 0, then solve_2x2, as TopPhases |
| FifteenPuzzle.Puzzle.SolveColumn | 07_fifteen_puzzle/fifteen_puzzle.py:497-498 | solve_row1_tile, then solve_row0_tile, their strings appended, as ColumnPhase |
| FifteenBoard.Put | 07_fifteen_puzzle/fifteen_puzzle.py:70 | the grid keeps its shape and changes in that one cell only |
| FifteenBoard.SolvedBoard | 07_fifteen_puzzle/fifteen_puzzle.py:22-24 | cell (r, c) of the solved grid holds c + width * r |
| FifteenBoard.SolvedBoardIsPermutation | 07_fifteen_puzzle/fifteen_puzzle.py:22-24 | the solved grid holds each label 0 .. h*w-1 exactly once |
| FifteenBoard.Locate | 07_fifteen_puzzle/fifteen_puzzle.py:89-95 | a found cell is inside the grid and holds the value |
| FifteenBoard.LocateFirstCell | 07_fifteen_puzzle/fifteen_puzzle.py:91-95 | no cell before the found one holds the value; when nothing is found, no cell does |
| FifteenBoard.LocateUnique | 07_fifteen_puzzle/fifteen_puzzle.py:83-95 | without repeated labels, the search finds the only cell holding the value |
| FifteenBoard.InPlaceIffLabel | 07_fifteen_puzzle/fifteen_puzzle.py:146 | on a grid without repeated labels, current_position(r, c) == (r, c) exactly when cell (r, c) holds c + width * r |
| FifteenBoard.Row0AtCornerIffSolved | 07_fifteen_puzzle/fifteen_puzzle.py:359-389 | row0_invariant(0) holds exactly when the grid is the solved grid |
| FifteenBoard.Slide | 07_fifteen_puzzle/fifteen_puzzle.py:103-124 | one token fails exactly when it is not one of l, r, u, d (invalid direction) or leads off the grid (move off grid); otherwise the blank's cell gets the neighbour's tile and the neighbour gets 0 |
| FifteenBoard.ApplyMoves | 07_fifteen_puzzle/fifteen_puzzle.py:102-124 | the run keeps the grid's shape; it stops only with an off-grid or invalid-direction failure |
| FifteenBoard.ApplyMovesFirst | 07_fifteen_puzzle/fifteen_puzzle.py:102-124 | a failing first token stops the run with the grid unchanged; otherwise the rest runs from the slid grid |
| FifteenBoard.Update | 07_fifteen_puzzle/fifteen_puzzle.py:97-124 | the run starts from the cell current_position finds for 0; it keeps the grid's shape and fails only with one of update_puzzle's failures |
| FifteenBoard.UpdateKeepsPermutation | 07_fifteen_puzzle/fifteen_puzzle.py:97-124 | a grid without repeats, or a permutation, stays one under any move string |
| FifteenBoard.ApplyMovesAppend | 07_fifteen_puzzle/fifteen_puzzle.py:102-124 | running a + b is running a, then b from where a left the blank, or a's failure |
| FifteenBoard.UpdateAppend | 07_fifteen_puzzle/fifteen_puzzle.py:97-124 | on a grid with one blank, update_puzzle(a + b) equals update_puzzle(a) followed by update_puzzle(b) |
| FifteenBoard.UpdateEmpty | 07_fifteen_puzzle/fifteen_puzzle.py:97-102 | the empty string changes nothing |
| FifteenBoard.ReachesTrans | 07_fifteen_puzzle/fifteen_puzzle.py:97-124 | a reaches g1 from g0 and b reaches g2 from g1, so a + b reaches g2 from g0 |
| FifteenBoard.UpLeftNeedsTwoByTwo | 07_fifteen_puzzle/fifteen_puzzle.py:455-456 | "ul" can only succeed on a grid of at least 2 x 2 |
| FifteenBoard.LeftDownNeedsTwoRows | 07_fifteen_puzzle/fifteen_puzzle.py:415-417 | "ld" can only succeed on a grid of at least two rows |
| FifteenBoard.RotationCycles | 07_fifteen_puzzle/fifteen_puzzle.py:462-463 | "rdlu" from the blank at z brings the blank back to z and cycles the other three tiles of the 2x2 block |
| FifteenBoard.RotationNeedsBlock | 07_fifteen_puzzle/fifteen_puzzle.py:462-463 | "rdlu" succeeds only when the whole 2x2 block at the blank is on the grid |
| FifteenBoard.CycleThrice | 07_fifteen_puzzle/fifteen_puzzle.py:461-463 | cycling the block three times gives back the grid |
| FifteenBoard.CornerSpinReturns | 07_fifteen_puzzle/fifteen_puzzle.py:461-463 | with the blank in the corner, three passes of the loop give back the grid |
| FifteenBoard.RotateKeepsCorner | 07_fifteen_puzzle/fifteen_puzzle.py:461-463 | a turn never brings the blank to the corner when it was not there |
| FifteenBoard.SpunModThree | 07_fifteen_puzzle/fifteen_puzzle.py:461-463 | when three turns restore the grid, the grid after k turns is the grid after k mod 3 |
| FifteenBoard.SpunKeepsCorner | 07_fifteen_puzzle/fifteen_puzzle.py:461-463 | a grid without the blank in the corner keeps it out of the corner for any number of turns |
| FifteenBoard.NeverSolvedAfterThree | 07_fifteen_puzzle/fifteen_puzzle.py:461-463 | if none of the first three grids the loop checks satisfies row0_invariant(0), none ever does |
| FifteenMoves.ZeroDirection | 07_fifteen_puzzle/fifteen_puzzle.py:233-244 | +1 exactly when zero_col < tile_col, -1 otherwise |
| FifteenMoves.TraceMatchesRun | 07_fifteen_puzzle/fifteen_puzzle.py:102-124 | a move string succeeds exactly when the blank's path stays on the grid, and it ends where that path ends |
| FifteenMoves.TraceToColumn | 07_fifteen_puzzle/fifteen_puzzle.py:259-261 | the steps along take the blank to the tile's column in the same row |
| FifteenMoves.ZeroAboveTileEnds | 07_fifteen_puzzle/fifteen_puzzle.py:267-282 | move_zero_above_tile never moves the blank off the grid and leaves it directly above the tile |
| FifteenMoves.OffRow0Ends | 07_fifteen_puzzle/fifteen_puzzle.py:247-264 | move_tile_off_row0 never moves the blank off the grid and leaves it in the tile's old cell |
| FifteenMoves.HorizontalEnds | 07_fifteen_puzzle/fifteen_puzzle.py:285-309 | from above the tile, move_tile_horizontally leaves the blank above the target column |
| FifteenMoves.VerticalEnds | 07_fifteen_puzzle/fifteen_puzzle.py:312-328 | move_tile_vertically, with the blank above the tile in its column, keeps the blank on the grid and leaves it at (target_row, col - 1) |
| FifteenMoves.PositionTileEnds | 07_fifteen_puzzle/fifteen_puzzle.py:201-230 | from the blank at the target, with the tile in a row not below it (strictly above when in its column), _position_tile never moves the blank off the grid and leaves it at (target_row, target_col - 1) |
| FifteenChecks.PositionOf | 07_fifteen_puzzle/fifteen_puzzle.py:83-95 | a returned cell is inside the grid and holds the value |
| FifteenChecks.FoundInPlace | 07_fifteen_puzzle/fifteen_puzzle.py:146 | a found tile is in place exactly when current_position returns its own cell |
| FifteenChecks.ScanLeftMeaning | 07_fifteen_puzzle/fifteen_puzzle.py:152-157 | true exactly when those cells are solved; it fails only on a missing label, and never on a grid holding every label |
| FifteenChecks.ScanRightMeaning | 07_fifteen_puzzle/fifteen_puzzle.py:369-376 | true exactly when the row is solved from that column on; it fails only on a missing label |
| FifteenChecks.ScanRowsMeaning | 07_fifteen_puzzle/fifteen_puzzle.py:140-148 | true exactly when every row in the range is solved; it fails only on a missing label |
| FifteenChecks.LowerRowCheckMeaning | 07_fifteen_puzzle/fifteen_puzzle.py:129-158 | lower_row_invariant(i, j) is true exactly when the blank is at (i, j), every row below i is solved and row i is solved right of j |
| FifteenChecks.Row0CheckMeaning | 07_fifteen_puzzle/fifteen_puzzle.py:359-389 | row0_invariant(j) is true exactly when the blank is at (0, j), row 0 is solved right of j, row 1 from j on and all rows below |
| FifteenChecks.Row1CheckMeaning | 07_fifteen_puzzle/fifteen_puzzle.py:392-405 | row1_invariant(j) is true exactly when lower_row_invariant(1, j) holds and row 0 is solved right of j |
| FifteenChecks.CheckOnMeaning | 07_fifteen_puzzle/fifteen_puzzle.py:129-158 | each check's result is its invariant; it fails only on a missing label |
| FifteenPhases.FinishMeaning | 07_fifteen_puzzle/fifteen_puzzle.py:196-198 | the post-test moves nothing, returns the moves when its invariant holds and PostTestFailed when not |
| FifteenPhases.UpdateThenFinishMeaning | 07_fifteen_puzzle/fifteen_puzzle.py:195-198 | update then post-test keeps a permutation; on success the moves reach the new grid and the invariant holds there |
| FifteenPhases.InteriorPhaseMeaning | 07_fifteen_puzzle/fifteen_puzzle.py:184-198 | solve_interior_tile keeps its promises: lower_row_invariant(r, c) before, (r, c-1) after, the returned moves reach the new grid, and a failed pre-test moves nothing |
| FifteenPhases.Col0PhaseMeaning | 07_fifteen_puzzle/fifteen_puzzle.py:331-353 | solve_col0_tile keeps its promises: lower_row_invariant(r, 0) before, (r-1, width-1) after, and "ur" plus the moves reach the new grid |
| FifteenPhases.Row1PhaseMeaning | 07_fifteen_puzzle/fifteen_puzzle.py:431-445 | solve_row1_tile keeps its promises: row1_invariant(c) before, row0_invariant(c) after |
| FifteenPhases.Row0PhaseMeaning | 07_fifteen_puzzle/fifteen_puzzle.py:408-428 | solve_row0_tile keeps its promises: row0_invariant(c) before, row1_invariant(c-1) after |
| FifteenPhases.Row0PlacementMeaning | 07_fifteen_puzzle/fifteen_puzzle.py:418-428 | after "ld", a success leaves row1_invariant(c-1) true and "ld" plus the moves reach the new grid |
| FifteenPhases.SpinStep | 07_fifteen_puzzle/fifteen_puzzle.py:461-463 | one pass of the loop: go round again on the turned grid, or stop with success on a solved grid or Unsolvable after the third pass |
| FifteenPhases.SpinKeepsPermutation | 07_fifteen_puzzle/fifteen_puzzle.py:461-463 | the loop keeps a permutation a permutation |
| FifteenPhases.SpinSolves | 07_fifteen_puzzle/fifteen_puzzle.py:461-464 | a success of the loop leaves row0_invariant(0) true on a grid the returned moves reach |
| FifteenPhases.SpinGivesUp | 07_fifteen_puzzle/fifteen_puzzle.py:461-463 | Unsolvable is returned only when no number of turns would reach row0_invariant(0) |
| FifteenPhases.CornerPhaseMeaning | 07_fifteen_puzzle/fifteen_puzzle.py:450-464 | solve_2x2 keeps a permutation; a success leaves the solved grid, reached by its moves; Unsolvable means the source's loop would never stop |
| FifteenPhases.TilePhaseMeaning | 07_fifteen_puzzle/fifteen_puzzle.py:490-493 | one tile of phase one keeps a permutation, and its moves reach the new grid |
| FifteenPhases.RowPhasesMeaning | 07_fifteen_puzzle/fifteen_puzzle.py:489-493 | one row of phase one keeps a permutation, and the accumulated moves reach the new grid from the start |
| FifteenPhases.ColumnsDeliver | 07_fifteen_puzzle/fifteen_puzzle.py:489-493 | a column loop whose every step delivers also delivers |
| FifteenPhases.LowerPhasesMeaning | 07_fifteen_puzzle/fifteen_puzzle.py:488-502 | the rest of solve_puzzle from row `row` keeps a permutation; a success leaves the solved grid, reached by the accumulated moves |
| FifteenPhases.ColumnPhaseMeaning | 07_fifteen_puzzle/fifteen_puzzle.py:497-498 | one column of phase two keeps a permutation, and its accumulated moves reach the new grid |
| FifteenPhases.TopPhasesMeaning | 07_fifteen_puzzle/fifteen_puzzle.py:496-502 | phases two and three keep a permutation; a success leaves the solved grid, reached by the accumulated moves |
| FifteenPhases.SolvePhaseMeaning | 07_fifteen_puzzle/fifteen_puzzle.py:466-502 | solve_puzzle keeps a permutation; a success leaves exactly the solved grid, and the returned string solves the original grid |
| FifteenPhases.SolvedUntouched | 07_fifteen_puzzle/fifteen_puzzle.py:475-476 | on the solved grid solve_puzzle returns "" and moves nothing |
| MergeLine.ListZeroes | 01-2_2048/01-2_2048.py:44-52 | the zero entries of the line, in order |
| MergeLine.ListNumbers | 01-2_2048/01-2_2048.py:54-62 | the entries above zero, in order |
| MergeLine.Merge | 01-2_2048/01-2_2048.py:21-42 | the placeholder loop returns Slid(line): equal neighbouring tiles combined once, left to right, then the zeros |
| MergeLine.SettledTiles | 01-2_2048/01-2_2048.py:29-39 | after the loop, merged_tiles is the combined tiles, possibly followed by one placeholder 0 |
| MergeLine.MergedAll | 01-2_2048/01-2_2048.py:41 | merged_tiles + zeroes is the slid line |
| MergeLine.ZeroesAreZeros | 01-2_2048/01-2_2048.py:44-52 | list_zeroes returns only zeros, as many as the line has |
| MergeLine.PositivesArePositive | 01-2_2048/01-2_2048.py:54-62 | list_numbers returns only tiles above zero, each as often as in the line |
| MergeLine.TilesAndBlanks | 01-2_2048/01-2_2048.py:44-62 | on a line without negative entries the two lists split the line and keep its sum |
| MergeLine.SlidLength | 01-2_2048/01-2_2048.py:21-42 | merge keeps the length of a non-negative line |
| MergeLine.SlidSum | 01-2_2048/01-2_2048.py:21-42 | merge keeps the sum of a non-negative line |
| MergeLine.SlidTilesFirst | 01-2_2048/01-2_2048.py:41 | every zero of the result comes after every tile, and no entry is negative |
| MergeLine.CombineKeepsSum | 01-2_2048/01-2_2048.py:35-37 | combining tiles keeps their sum |
| MergeLine.CombinePositive | 01-2_2048/01-2_2048.py:29-39 | combining tiles above zero gives tiles above zero |
| MergeLine.CombineDistinctNeighbours | 01-2_2048/01-2_2048.py:38-39 | tiles with no equal neighbours are left as they are |
| MergeLine.SlidCompacts | 01-2_2048/01-2_2048.py:21-42 | with no equal neighbouring tiles, merge only moves the zeros to the end |
| MergeLine.FourEqualTiles | 01-2_2048/01-2_2048.py:21-42 | four equal tiles x become two tiles 2x and two zeros |
| MergeLine.SumThenEqualTile | 01-2_2048/01-2_2048.py:32-34 | a tile made by a merge is not merged again: [x, x, 2x] becomes [2x, 2x, 0] |
| Game2048.TwentyFortyEight.constructor | 01-2_2048/01-2_2048.py:69-80 | the size, the direction table of line starts, then reset's grid |
| Game2048.TwentyFortyEight.Reset | 01-2_2048/01-2_2048.py:82-91 | a blank grid with two new tiles; empty holds the cells free before the second one was placed |
| Game2048.TwentyFortyEight.Move | 01-2_2048/01-2_2048.py:111-137 | when the merged lines change the grid, the moved grid plus a new tile; otherwise nothing changes |
| Game2048.TwentyFortyEight.MoveLine | 01-2_2048/01-2_2048.py:122-135 | one more line moved, and the result says whether the merged line differs from the line read |
| Game2048.TwentyFortyEight.ReadLine | 01-2_2048/01-2_2048.py:123-127 | the tiles of line k from its start along the direction's offset |
| Game2048.TwentyFortyEight.WriteLine | 01-2_2048/01-2_2048.py:132-135 | merged is written along line k, and every other cell is left as it was |
| Game2048.TwentyFortyEight.NewTile | 01-2_2048/01-2_2048.py:139-153 | the chosen empty cell gets a 2 or a 4, and a full grid stays as it is; empty holds the cells free before the tile |
| Game2048.TwentyFortyEight.SetTile | 01-2_2048/01-2_2048.py:156-160 | that cell gets the value, and no other cell changes |
| Game2048.TwentyFortyEight.GetTile | 01-2_2048/01-2_2048.py:162-166 | the value at the cell |
| Game2048.TwentyFortyEight.GetEmpty | 01-2_2048/01-2_2048.py:168-177 | the empty cells, stored and returned, with the grid unchanged |
| Game2048.TableLines | 01-2_2048/01-2_2048.py:72-79 | the table has a list for every direction, one start per line |
| Game2048.TableStart | 01-2_2048/01-2_2048.py:74-79 | line k of UP starts at (0, k), of DOWN at (h-1, k), of LEFT at (k, 0), of RIGHT at (k, w-1) |
| Game2048.WalkInGrid | 01-2_2048/01-2_2048.py:124-126 | every cell a line visits is on the grid and belongs to that line at that step |
| Game2048.CellOnLine | 01-2_2048/01-2_2048.py:122-126 | every cell of the grid is the cell that line LineOf(p) visits at step StepOf(p), both in range; with WalkInGrid, each cell lies on exactly one line of each direction |
| Game2048.MovedLines | 01-2_2048/01-2_2048.py:122-135 | each line of the moved grid is the merge of that line of the old grid |
| Game2048.MovedTiles | 01-2_2048/01-2_2048.py:122-135 | a grid without negative tiles stays one after a move |
| Game2048.MoveOutcome | 01-2_2048/01-2_2048.py:128-130 | changed is true exactly when the move changes the grid |
| Game2048.MoveChanges | 01-2_2048/01-2_2048.py:128-137 | the move changes the grid exactly when some merged line differs from its line |
| Game2048.UnchangedCell | 01-2_2048/01-2_2048.py:128-135 | a cell on a line whose merge changes nothing keeps its tile |
| Game2048.EmptyCellsMeaning | 01-2_2048/01-2_2048.py:168-177 | a cell is listed exactly when it is on the grid and holds 0 |
| Game2048.EmptyCellsOrdered | 01-2_2048/01-2_2048.py:173-176 | the cells come in strictly increasing row-major order, so none is listed twice |
| Game2048.NoEmptyCell | 01-2_2048/01-2_2048.py:146 | the list is empty exactly when no cell holds 0 |
| Game2048.NewTileMeaning | 01-2_2048/01-2_2048.py:139-153 | a full grid is unchanged; otherwise exactly one empty cell changes, to 2 or 4 |
| WordWrangler.LessTotal | 05_word_wrangler/word_wrangler.py:70 | distinct strings are ordered one way or the other, never both |
| WordWrangler.LessTransitive | 05_word_wrangler/word_wrangler.py:70 | the string order is transitive |
| WordWrangler.RemoveDuplicates | 05_word_wrangler/word_wrangler.py:14-29 | each entry once, the same entries as list1, in order of first occurrence; a sorted input gives a strictly sorted result |
| WordWrangler.Intersect | 05_word_wrangler/word_wrangler.py:31-46 | exactly the entries in both lists, once each, in list1's order; strictly sorted when list1 is sorted |
| WordWrangler.FirstOccurrenceOrderSorted | 05_word_wrangler/word_wrangler.py:14-29 | first occurrences of a sorted list, without repeats, are strictly sorted |
| WordWrangler.Merged | 05_word_wrangler/word_wrangler.py:50-77 | the merge has as many entries as both lists together |
| WordWrangler.MergedPermutation | 05_word_wrangler/word_wrangler.py:50-77 | the merge holds every entry of both lists, as often as they hold it |
| WordWrangler.MergedSorted | 05_word_wrangler/word_wrangler.py:50-77 | merging two sorted lists gives a sorted list |
| WordWrangler.Merge | 05_word_wrangler/word_wrangler.py:50-77 | the early return and the loop both compute Merged; the result is a permutation of both lists, sorted when they are |
| WordWrangler.TakeFront | 05_word_wrangler/word_wrangler.py:66-73 | one pass pops from the front without changing what merged plus the merge of the copies is |
| WordWrangler.MergeSort | 05_word_wrangler/word_wrangler.py:79-93 | merge_sort returns a sorted permutation of its input, and lists of fewer than two entries unchanged; longer lists are split at len / 2 and the sorted halves combined by merge |
| WordWrangler.InsertAllLetters | 05_word_wrangler/word_wrangler.py:122-125 | each string of step 3 has the letters of the rest-string plus one first |
| WordWrangler.GenAllStrings | 05_word_wrangler/word_wrangler.py:98-126 | the recursion and the two loops build AllStrings(word) |
| WordWrangler.AppendInsertions | 05_word_wrangler/word_wrangler.py:121-125 | the inner loop and the final append add first at every position 0 .. \|s\| |
| WordWrangler.AllStringsSound | 05_word_wrangler/word_wrangler.py:98-126 | every generated string uses letters of the word, no letter more often than the word has it |
| WordWrangler.AllStringsComplete | 05_word_wrangler/word_wrangler.py:98-126 | every string made from letters of the word, each used at most as often as the word has it, is generated |
| WordWrangler.AllStringsMeaning | 05_word_wrangler/word_wrangler.py:98-126 | a string is generated exactly when its letters are a sub-multiset of the word's; no generated string is longer than the word |
| WordWrangler.AllStringsExtendRest | 05_word_wrangler/word_wrangler.py:116-126 | the strings of the rest of the word are a prefix of the result, and the rest of the result is the insertions of the first letter |
| WordWrangler.InsertionsCount | 05_word_wrangler/word_wrangler.py:121-125 | a rest-string of length n gives n + 1 new strings |

## Left out

- The GUI modules, `__str__`, `get_height`/`get_width` and the GUI start-up lines are not modelled. They are display code. The sizes are the `height` and `width` constants of both classes.
- `load_words`, `urllib2` and `codeskulptor` in Word Wrangler are not modelled. They do file and network I/O.
- `random.choice` and `random.random()` in `new_tile` are not called. They are the `TileChoice` parameter of `NewTile`, `Move`, `Reset` and the constructor.
- `_zero_direction` returns a dictionary and a sign. It is modelled as `ZeroDirection` (the sign) and `Letter` (the dictionary lookup).
- The four integer direction codes of 2048 and `OFFSETS` are modelled as the `Direction` datatype and `Offset`. The `KeyError` that any other key would raise is not modelled.
- Python integers are unbounded like Dafny's `int`. No wrap-around needs modelling.
- FifteenPuzzle.Puzzle.GetNumber, SetNumber and Game2048.TwentyFortyEight.GetTile, SetTile require a cell on the grid. Python would wrap negative indices and raise `IndexError` beyond the grid; that behaviour is not modelled.
- FifteenPuzzle.Puzzle.constructor requires an initial grid covering height × width. The source's `IndexError` on a smaller grid (07_fifteen_puzzle/fifteen_puzzle.py:29) is not modelled.
- FifteenPuzzle.Puzzle.SolvePuzzle requires at least two rows and one column. On a one-row grid the source ends in an `IndexError` inside `lower_row_invariant` or an assertion; that is not modelled.
- FifteenPuzzle.Puzzle.TurnCorner stops after three turns with `Unsolvable` where the source loops for ever. `NeverSolvedAfterThree` and `CornerPhaseMeaning` prove that the source's loop could then never stop.
- FifteenPhases.SolvePhaseMeaning states what a successful solve delivers. It does not state that every solvable grid is solved. That the two fixed rotation strings of `solve_col0_tile` and `solve_row0_tile` reach their post-tests is not proved; the model runs the post-tests as the source does.
- Game2048.TwentyFortyEight.Move requires that no tile is negative. `list_numbers` drops negative entries, so `merge` returns a list shorter than the line; the source's `move` then writes part of the line and raises `IndexError` at `set_tile` (01-2_2048/01-2_2048.py:135). That case is not modelled.
- The grids are `seq<seq<int>>` fields reassigned on each write, not nested mutable lists. Aliasing between rows is not modelled. The initial grid passed to the `Puzzle` constructor is copied, as in the source.
- `for x in list` loops are modelled as index loops over the same entries in the same order.
- Word comparison is letter by letter on `char`, as Python 2 compares byte strings. Locale and Unicode collation are not modelled.
- Some loop bodies and branches are split into their own methods and lemmas so that each proof stays small: `MoveLine`, `ReadLine`, `WriteLine`, `TakeFront`, `AppendInsertions`, `ShiftBlank`, `CornerRound`, `SolveTile`, `SolveColumn`, `PlaceRow0Tile`. Each computes exactly what the corresponding lines of the source compute.
