/**
 * The Puzzle class of 07_fifteen_puzzle/fifteen_puzzle.py: a height x width grid of tile
 * labels updated in place, the move generators and the phase solvers. Every method is
 * specified against the value-level model of fifteen_board.dfy and fifteen_moves.dfy.
 */
module FifteenPuzzle {
  import opened Wrappers
  import opened FifteenBoard
  import opened FifteenMoves
  import opened FifteenChecks
  import opened FifteenPhases

  /** The initial grid passed to the constructor covers height x width cells. */
  predicate Covers(g: Board, h: nat, w: nat) {
    |g| >= h && forall r :: 0 <= r < h ==> |g[r]| >= w
  }

  /** The top-left height x width part of g: the cells the constructor copies. */
  function TopLeft(g: Board, h: nat, w: nat): (b: Board)
    requires Covers(g, h, w)
    ensures WellFormed(b, h, w)
    ensures forall p :: InBounds(h, w, p) ==> At(b, p) == At(g, p)
  {
    seq(h, r requires 0 <= r < h => g[r][..w])
  }

  /** The first cell holding v, in row-major order, is what Locate finds. */
  lemma LocateFirst(g: Board, h: nat, w: nat, v: int, p: Pos)
    requires WellFormed(g, h, w) && InBounds(h, w, p) && At(g, p) == v
    requires forall q :: InBounds(h, w, q) && Before(q, p) ==> At(g, q) != v
    ensures Locate(g, h, w, v) == Some(p)
  {
    LocateFirstCell(g, h, w, v);
    if Locate(g, h, w, v).Some? {
      var q := Locate(g, h, w, v).value;
      assert !Before(q, p) && !Before(p, q);
    }
  }

  class Puzzle {
    const height: nat
    const width: nat
    /** The grid as rows of labels, reassigned whenever a cell changes. */
    var grid: Board

    ghost predicate Valid()
      reads this
    {
      WellFormed(grid, height, width)
    }

    /**
     * A puzzle of the given size: the solved grid, or the solved grid overwritten with
     * the top-left cells of initialGrid.
     */
    constructor (puzzleHeight: nat, puzzleWidth: nat, initialGrid: Option<Board>)
      requires initialGrid.Some? ==> Covers(initialGrid.value, puzzleHeight, puzzleWidth)
      ensures Valid() && height == puzzleHeight && width == puzzleWidth
      ensures initialGrid.None? ==> grid == SolvedBoard(puzzleHeight, puzzleWidth)
      ensures initialGrid.Some? ==> grid == TopLeft(initialGrid.value, puzzleHeight, puzzleWidth)
    {
      height := puzzleHeight;
      width := puzzleWidth;
      var cells := SolvedBoard(puzzleHeight, puzzleWidth);
      if initialGrid.Some? {
        var g := initialGrid.value;
        for row := 0 to puzzleHeight
          invariant WellFormed(cells, puzzleHeight, puzzleWidth)
          invariant forall r, c :: 0 <= r < row && 0 <= c < puzzleWidth ==> cells[r][c] == g[r][c]
        {
          for col := 0 to puzzleWidth
            invariant WellFormed(cells, puzzleHeight, puzzleWidth)
            invariant forall r, c :: 0 <= r < row && 0 <= c < puzzleWidth ==> cells[r][c] == g[r][c]
            invariant forall c :: 0 <= c < col ==> cells[row][c] == g[row][c]
          {
            cells := cells[row := cells[row][col := g[row][col]]];
          }
        }
        BoardsEqual(cells, TopLeft(g, puzzleHeight, puzzleWidth), puzzleHeight, puzzleWidth);
      }
      grid := cells;
    }

    /** clone: a new puzzle with an equal grid. */
    method Clone() returns (copy: Puzzle)
      requires Valid()
      ensures fresh(copy) && copy.Valid()
      ensures copy.height == height && copy.width == width && copy.grid == grid
    {
      BoardsEqual(TopLeft(grid, height, width), grid, height, width);
      copy := new Puzzle(height, width, Some(grid));
    }

    method GetNumber(row: int, col: int) returns (value: int)
      requires Valid() && InBounds(height, width, Pos(row, col))
      ensures value == At(grid, Pos(row, col))
    {
      value := grid[row][col];
    }

    method SetNumber(row: int, col: int, value: int)
      requires Valid() && InBounds(height, width, Pos(row, col))
      modifies this
      ensures Valid() && grid == Put(old(grid), Pos(row, col), value)
    {
      grid := grid[row := grid[row][col := value]];
    }

    /** current_position: the first cell, row by row, holding solvedCol + width * solvedRow. */
    method CurrentPosition(solvedRow: int, solvedCol: int) returns (res: Result<Pos, Failure>)
      requires Valid()
      ensures res == PositionOf(grid, height, width, Label(width, Pos(solvedRow, solvedCol)))
    {
      var solvedValue := solvedCol + width * solvedRow;
      ghost var b := grid;
      for row := 0 to height
        invariant forall q :: InBounds(height, width, q) && q.row < row ==> At(b, q) != solvedValue
      {
        for col := 0 to width
          invariant forall q :: InBounds(height, width, q) && q.row < row ==> At(b, q) != solvedValue
          invariant forall c :: 0 <= c < col ==> At(b, Pos(row, c)) != solvedValue
        {
          if grid[row][col] == solvedValue {
            LocateFirst(b, height, width, solvedValue, Pos(row, col));
            return Ok(Pos(row, col));
          }
        }
      }
      return Err(TileNotFound(solvedValue));
    }

    /**
     * update_puzzle: find the blank, then for each token swap it with the neighbour in that
     * direction; an off-grid or unknown token fails, with the earlier tokens applied.
     */
    method UpdatePuzzle(moveString: string) returns (outcome: Outcome<Failure>)
      requires Valid()
      modifies this
      ensures Valid()
      ensures grid == Update(old(grid), height, width, moveString).board
      ensures outcome.Pass? <==> Update(old(grid), height, width, moveString).Done?
      ensures outcome.Fail? ==> outcome.error == Update(old(grid), height, width, moveString).failure
    {
      var found := CurrentPosition(0, 0);
      if found.Err? {
        return Fail(found.error);
      }
      var zeroRow, zeroCol := found.value.row, found.value.col;
      for i := 0 to |moveString|
        invariant Valid() && InBounds(height, width, Pos(zeroRow, zeroCol))
        invariant ApplyMoves(grid, height, width, Pos(zeroRow, zeroCol), moveString[i..])
          == Update(old(grid), height, width, moveString)
      {
        ApplyMovesFirst(grid, height, width, Pos(zeroRow, zeroCol), moveString[i..]);
        assert moveString[i..][0] == moveString[i] && moveString[i..][1..] == moveString[i + 1..];
        var step;
        step, zeroRow, zeroCol := MoveBlank(zeroRow, zeroCol, moveString[i]);
        if step.Fail? {
          return step;
        }
      }
      return Pass;
    }

    /** One token of update_puzzle: swap the blank at (zeroRow, zeroCol) with its neighbour. */
    method MoveBlank(zeroRow: int, zeroCol: int, direction: char) returns (outcome: Outcome<Failure>, row: int, col: int)
      requires Valid() && InBounds(height, width, Pos(zeroRow, zeroCol))
      modifies this
      ensures Valid()
      ensures var slid := Slide(old(grid), height, width, Pos(zeroRow, zeroCol), direction);
        && (outcome.Pass? <==> slid.Ok?)
        && (slid.Ok? ==> grid == slid.value.0 && Pos(row, col) == slid.value.1)
        && (slid.Err? ==> grid == old(grid) && outcome == Fail(slid.error))
    {
      row, col := zeroRow, zeroCol;
      if direction == 'l' {
        if !(zeroCol > 0) {
          return Fail(MoveOffGrid(direction)), row, col;
        }
        ShiftBlank(zeroRow, zeroCol, zeroRow, zeroCol - 1);
        col := zeroCol - 1;
      } else if direction == 'r' {
        if !(zeroCol < width - 1) {
          return Fail(MoveOffGrid(direction)), row, col;
        }
        ShiftBlank(zeroRow, zeroCol, zeroRow, zeroCol + 1);
        col := zeroCol + 1;
      } else if direction == 'u' {
        if !(zeroRow > 0) {
          return Fail(MoveOffGrid(direction)), row, col;
        }
        ShiftBlank(zeroRow, zeroCol, zeroRow - 1, zeroCol);
        row := zeroRow - 1;
      } else if direction == 'd' {
        if !(zeroRow < height - 1) {
          return Fail(MoveOffGrid(direction)), row, col;
        }
        ShiftBlank(zeroRow, zeroCol, zeroRow + 1, zeroCol);
        row := zeroRow + 1;
      } else {
        return Fail(InvalidDirection(direction)), row, col;
      }
      outcome := Pass;
    }

    /** The two writes of one token: the neighbour's tile into the blank's cell, 0 into the neighbour's. */
    method ShiftBlank(zeroRow: int, zeroCol: int, row: int, col: int)
      requires Valid() && InBounds(height, width, Pos(zeroRow, zeroCol)) && InBounds(height, width, Pos(row, col))
      modifies this
      ensures Valid()
      ensures grid == Put(Put(old(grid), Pos(zeroRow, zeroCol), At(old(grid), Pos(row, col))), Pos(row, col), 0)
    {
      var tile := GetNumber(row, col);
      SetNumber(zeroRow, zeroCol, tile);
      SetNumber(row, col, 0);
    }
  
    /** lower_row_invariant: the scan LowerRowCheck, on the grid. */
    method LowerRowInvariant(targetRow: int, targetCol: int) returns (res: Result<bool, Failure>)
      requires Valid() && InBounds(height, width, Pos(targetRow, targetCol))
      ensures res == LowerRowCheck(grid, height, width, targetRow, targetCol)
    {
      var blank := GetNumber(targetRow, targetCol);
      if blank != 0 {
        return Ok(false);
      }
      var below :- ScanRowsBelow(targetRow);
      if !below {
        return Ok(false);
      }
      if targetCol < width - 1 {
        res := ScanRowLeftwards(targetRow, targetCol + 1);
        return;
      }
      return Ok(true);
    }

    /** row0_invariant: the scan Row0Check, on the grid. */
    method Row0Invariant(targetCol: int) returns (res: Result<bool, Failure>)
      requires Valid() && InBounds(height, width, Pos(0, targetCol))
      ensures res == Row0Check(grid, height, width, targetCol)
    {
      var blank := GetNumber(0, targetCol);
      if blank != 0 {
        return Ok(false);
      }
      var row0 :- ScanRowRightwards(0, targetCol + 1);
      if !row0 {
        return Ok(false);
      }
      var row1 :- ScanRowRightwards(1, targetCol);
      if !row1 {
        return Ok(false);
      }
      res := ScanRowsBelow(1);
    }

    /** row1_invariant: the scan Row1Check, on the grid. */
    method Row1Invariant(targetCol: int) returns (res: Result<bool, Failure>)
      requires Valid() && InBounds(height, width, Pos(1, targetCol))
      ensures res == Row1Check(grid, height, width, targetCol)
    {
      var lower :- LowerRowInvariant(1, targetCol);
      if !lower {
        return Ok(false);
      }
      res := ScanRowRightwards(0, targetCol + 1);
    }

    /**
     * The row loop of lower_row_invariant and row0_invariant: rows height-1 down to
     * targetRow+1, each scanned from its last column down to its first.
     */
    method ScanRowsBelow(targetRow: int) returns (res: Result<bool, Failure>)
      requires Valid()
      ensures res == ScanRows(grid, height, width, targetRow, height - 1)
    {
      ghost var b := grid;
      var row := height - 1;
      while row > targetRow
        invariant ScanRows(b, height, width, targetRow, row) == ScanRows(b, height, width, targetRow, height - 1)
      {
        var solved :- ScanRowLeftwards(row, 0);
        if !solved {
          return Ok(false);
        }
        row := row - 1;
      }
      return Ok(true);
    }

    /** The column loop counting down: cells (row, width-1) down to (row, fromCol). */
    method ScanRowLeftwards(row: int, fromCol: int) returns (res: Result<bool, Failure>)
      requires Valid()
      ensures res == ScanLeft(grid, height, width, row, fromCol, width)
    {
      ghost var b := grid;
      var col := width;
      while col > fromCol
        invariant ScanLeft(b, height, width, row, fromCol, col) == ScanLeft(b, height, width, row, fromCol, width)
      {
        col := col - 1;
        var found :- CurrentPosition(row, col);
        if found != Pos(row, col) {
          return Ok(false);
        }
      }
      return Ok(true);
    }

    /** The column loop counting up: cells (row, fromCol) to (row, width-1). */
    method ScanRowRightwards(row: int, fromCol: int) returns (res: Result<bool, Failure>)
      requires Valid() && fromCol <= width
      ensures res == ScanRight(grid, height, width, row, fromCol)
    {
      ghost var b := grid;
      for col := fromCol to width
        invariant ScanRight(b, height, width, row, col) == ScanRight(b, height, width, row, fromCol)
      {
        var found :- CurrentPosition(row, col);
        assert ScanRight(b, height, width, row, col) == if found != Pos(row, col) then Ok(false) else ScanRight(b, height, width, row, col + 1);
        if found != Pos(row, col) {
          return Ok(false);
        }
      }
      return Ok(true);
    }

    // ------------------------------------------------------------ move generators

    /** move_tile_off_row0: the blank goes up to the row below the tile, along to its column, then up. */
    method MoveTileOffRow0(zeroRow: int, zeroCol: int, tileRow: int, tileCol: int) returns (moves: string)
      ensures moves == OffRow0Moves(zeroRow, zeroCol, tileRow, tileCol)
    {
      moves := "";
      var ups := zeroRow - (tileRow + 1);
      moves := moves + Repeat("u", ups);
      var alongs := AlongTo(zeroCol, tileCol);
      moves := moves + alongs + "u";
    }

    /** move_zero_above_tile: the blank goes up to the row above the tile, then along to its column. */
    method MoveZeroAboveTile(zeroRow: int, zeroCol: int, tileRow: int, tileCol: int) returns (moves: string)
      ensures moves == ZeroAboveTileMoves(zeroRow, zeroCol, tileRow, tileCol)
    {
      moves := "";
      var ups := zeroRow - (tileRow - 1);
      moves := moves + Repeat("u", ups);
      var alongs := AlongTo(zeroCol, tileCol);
      moves := moves + alongs;
    }

    /** The loop "while zero_col != tile_col" shared by the two methods above. */
    method AlongTo(zeroCol: int, tileCol: int) returns (moves: string)
      ensures moves == Repeat([Letter(ZeroDirection(zeroCol, tileCol))], Abs(zeroCol - tileCol))
    {
      var direction := ZeroDirection(zeroCol, tileCol);
      moves := "";
      var col := zeroCol;
      while col != tileCol
        invariant if direction == 1 then zeroCol <= col <= tileCol else tileCol <= col <= zeroCol
        invariant moves == Repeat([Letter(direction)], Abs(zeroCol - col))
        decreases Abs(tileCol - col)
      {
        RepeatSnoc([Letter(direction)], Abs(zeroCol - col));
        moves := moves + [Letter(direction)];
        col := col + direction;
      }
    }

    /**
     * move_tile_horizontally: with the blank above the tile, walk the tile one column at a
     * time towards targetCol with the cycle "xdyu", finishing with one more step along.
     */
    method MoveTileHorizontally(targetCol: int, zeroCol: int, tileCol: int) returns (moves: string)
      ensures moves == HorizontalMoves(targetCol, zeroCol, tileCol)
    {
      var direction := ZeroDirection(tileCol, targetCol);
      ghost var n := Abs(targetCol - tileCol);
      moves := "";
      var horizontalMove := Cycle(direction);
      var zc, tc := zeroCol, tileCol;
      ghost var k := 0;
      while tc != targetCol
        invariant 0 <= k <= n && tc == Shifted(tileCol, direction, k)
        invariant zeroCol == tileCol ==> k == 0 ==> zc == tc && moves == ""
        invariant zeroCol == tileCol ==> k > 0 ==>
          zc == Shifted(tc, -direction, 1) && moves == Cycle(direction) + Repeat([Letter(direction)] + Cycle(direction), k - 1)
        invariant zeroCol != tileCol ==> zc - tc == zeroCol - tileCol && moves == Repeat([Letter(direction)] + Cycle(direction), k)
        decreases n - k
      {
        if zc == tc {
          moves := moves + horizontalMove;
          tc := tc + direction;
        } else {
          if zeroCol == tileCol {
            RepeatSnoc([Letter(direction)] + Cycle(direction), k - 1);
          } else {
            RepeatSnoc([Letter(direction)] + Cycle(direction), k);
          }
          moves := moves + ([Letter(direction)] + horizontalMove);
          tc := tc + direction;
          zc := zc + direction;
        }
        k := k + 1;
      }
      moves := moves + [Letter(direction)];
    }

    /** move_tile_vertically: the blank goes up past the tile, then "lddru" per row, then "ld". */
    method MoveTileVertically(zeroRow: int, tileRow: int, targetRow: int) returns (moves: string)
      ensures moves == VerticalMoves(zeroRow, tileRow, targetRow)
    {
      moves := "";
      var zr, tr := zeroRow, tileRow;
      if zr > tr {
        while zr > tr
          invariant tileRow <= zr <= zeroRow && moves == Repeat("u", zeroRow - zr)
        {
          RepeatSnoc("u", zeroRow - zr);
          moves := moves + "u";
          zr := zr - 1;
        }
        tr := tr + 1;
      }
      ghost var ups := moves;
      ghost var first := tr;
      assert first == TileRowAfterUps(zeroRow, tileRow);
      while tr < targetRow
        invariant first <= tr && (tr <= targetRow || tr == first)
        invariant moves == ups + Repeat("lddru", tr - first)
      {
        RepeatSnoc("lddru", tr - first);
        moves := moves + "lddru";
        tr := tr + 1;
      }
      moves := moves + "ld";
    }

    /** _position_tile: the blank starts on the target cell and brings the tile there. */
    method PositionTile(targetRow: int, targetCol: int, tileRow: int, tileCol: int) returns (moves: string)
      ensures moves == PositionTileMoves(targetRow, targetCol, tileRow, tileCol)
    {
      moves := "";
      var zeroRow, zeroCol := targetRow, targetCol;
      var tr, tc := tileRow, tileCol;
      if tc != targetCol {
        if tr == 0 {
          var off := MoveTileOffRow0(zeroRow, zeroCol, tr, tc);
          moves := moves + off;
          zeroRow, zeroCol := tr, tc;
          tr := tr + 1;
        } else {
          var above := MoveZeroAboveTile(zeroRow, zeroCol, tr, tc);
          moves := moves + above;
          zeroRow, zeroCol := tr - 1, tc;
        }
        var across := MoveTileHorizontally(targetCol, zeroCol, tc);
        moves := moves + across;
        zeroCol := targetCol;
        tc := targetCol;
      }
      if tc == targetCol {
        var down := MoveTileVertically(zeroRow, tr, targetRow);
        moves := moves + down;
      }
    }

    // ------------------------------------------------------------ the post-tests

    /** The invariant method that check names, run on the grid. */
    method Test(check: Check) returns (res: Result<bool, Failure>)
      requires Valid() && Checkable(height, width, check)
      ensures res == CheckOn(grid, height, width, check)
    {
      match check {
        case LowerRow(row, col) => res := LowerRowInvariant(row, col);
        case Row0(col) => res := Row0Invariant(col);
        case Row1(col) => res := Row1Invariant(col);
      }
    }

    /** The post-test a solve_* method ends with, returning result when it passes. */
    method PostTest(result: string, post: Check) returns (res: Result<string, Failure>)
      requires Valid() && Checkable(height, width, post)
      ensures res == Finish(grid, height, width, result, post).result
    {
      var passed :- Test(post);
      if !passed {
        return Err(PostTestFailed(post));
      }
      return Ok(result);
    }

    /** update_puzzle(moves) followed by the post-test. */
    method UpdateThenTest(moves: string, result: string, post: Check) returns (res: Result<string, Failure>)
      requires Valid() && Checkable(height, width, post)
      modifies this
      ensures Valid() && Phase(res, grid) == UpdateThenFinish(old(grid), height, width, moves, result, post)
    {
      var updated := UpdatePuzzle(moves);
      if updated.Fail? {
        return Err(updated.error);
      }
      res := PostTest(result, post);
    }

    // ------------------------------------------------------------ phase one

    /** solve_interior_tile: exactly InteriorPhase, on the grid. */
    method SolveInteriorTile(targetRow: int, targetCol: int) returns (res: Result<string, Failure>)
      requires Valid() && InBounds(height, width, Pos(targetRow, targetCol)) && 1 <= targetCol
      modifies this
      ensures Valid() && Phase(res, grid) == InteriorPhase(old(grid), height, width, targetRow, targetCol)
    {
      var pre :- LowerRowInvariant(targetRow, targetCol);
      if !pre {
        return Err(PreTestFailed(LowerRow(targetRow, targetCol)));
      }
      var tile :- CurrentPosition(targetRow, targetCol);
      var moves := PositionTile(targetRow, targetCol, tile.row, tile.col);
      res := UpdateThenTest(moves, moves, LowerRow(targetRow, targetCol - 1));
    }

    /** solve_col0_tile: exactly Col0Phase, on the grid. */
    method SolveCol0Tile(targetRow: int) returns (res: Result<string, Failure>)
      requires Valid() && InBounds(height, width, Pos(targetRow, 0)) && 1 <= targetRow
      modifies this
      ensures Valid() && Phase(res, grid) == Col0Phase(old(grid), height, width, targetRow)
    {
      var pre :- LowerRowInvariant(targetRow, 0);
      if !pre {
        return Err(PreTestFailed(LowerRow(targetRow, 0)));
      }
      var firstMove := "ur";
      :- UpdatePuzzle(firstMove);
      var tile :- CurrentPosition(targetRow, 0);
      var moves := Col0Moves(targetRow, tile);
      res := UpdateThenTest(moves, firstMove + moves, LowerRow(targetRow - 1, width - 1));
    }

    /** The moves solve_col0_tile builds once the blank is at (targetRow - 1, 1). */
    method Col0Moves(targetRow: int, tile: Pos) returns (moves: string)
      ensures moves == Col0TileMoves(targetRow, width, tile)
    {
      var zeroRow, zeroCol := targetRow - 1, 1;
      if tile.row == targetRow && tile.col == 0 {
        moves := Repeat("r", width - 2);
      } else {
        var positioning := PositionTile(zeroRow, zeroCol, tile.row, tile.col);
        moves := positioning + ("ruldrdlurdluurddlur" + Repeat("r", width - 2));
      }
    }

    // ------------------------------------------------------------ phase two

    /** solve_row0_tile: exactly Row0Phase, on the grid. */
    method SolveRow0Tile(targetCol: int) returns (res: Result<string, Failure>)
      requires Valid() && InBounds(height, width, Pos(0, targetCol)) && 1 <= targetCol
      modifies this
      ensures Valid() && Phase(res, grid) == Row0Phase(old(grid), height, width, targetCol)
    {
      var pre :- Row0Invariant(targetCol);
      if !pre {
        return Err(PreTestFailed(Row0(targetCol)));
      }
      var firstMove := "ld";
      :- UpdatePuzzle(firstMove);
      LeftDownNeedsTwoRows(old(grid), height, width);
      res := PlaceRow0Tile(targetCol, firstMove);
    }

    /** The rest of solve_row0_tile once the blank is at (1, targetCol - 1). */
    method PlaceRow0Tile(targetCol: int, firstMove: string) returns (res: Result<string, Failure>)
      requires Valid() && height >= 2 && 1 <= targetCol < width
      modifies this
      ensures Valid() && Phase(res, grid) == Row0Placement(old(grid), height, width, targetCol, firstMove)
    {
      var tile :- CurrentPosition(0, targetCol);
      var moves := Row0Moves(targetCol, tile);
      if tile.col != targetCol || tile.row != 0 {
        res := UpdateThenTest(moves, firstMove + moves, Row1(targetCol - 1));
      } else {
        res := PostTest(firstMove + moves, Row1(targetCol - 1));
      }
    }

    /** The moves solve_row0_tile builds once the blank is at (1, targetCol - 1). */
    method Row0Moves(targetCol: int, tile: Pos) returns (moves: string)
      ensures moves == Row0TileMoves(targetCol, tile)
    {
      var zeroRow, zeroCol := 1, targetCol - 1;
      moves := "";
      if tile.col != targetCol || tile.row != 0 {
        var positioning := PositionTile(zeroRow, zeroCol, tile.row, tile.col);
        moves := positioning + "urdlurrdluldrruld";
      }
    }

    /** solve_row1_tile: exactly Row1Phase, on the grid. */
    method SolveRow1Tile(targetCol: int) returns (res: Result<string, Failure>)
      requires Valid() && InBounds(height, width, Pos(1, targetCol))
      modifies this
      ensures Valid() && Phase(res, grid) == Row1Phase(old(grid), height, width, targetCol)
    {
      var pre :- Row1Invariant(targetCol);
      if !pre {
        return Err(PreTestFailed(Row1(targetCol)));
      }
      var tile :- CurrentPosition(1, targetCol);
      var positioning := PositionTile(1, targetCol, tile.row, tile.col);
      var moves := positioning + "ur";
      res := UpdateThenTest(moves, moves, Row0(targetCol));
    }

    // ------------------------------------------------------------ phase three

    /** solve_2x2: exactly CornerPhase, on the grid. */
    method Solve2x2() returns (res: Result<string, Failure>)
      requires Valid()
      modifies this
      ensures Valid() && Phase(res, grid) == CornerPhase(old(grid), height, width)
    {
      var firstMove := "ul";
      :- UpdatePuzzle(firstMove);
      UpLeftNeedsTwoByTwo(old(grid), height, width);
      var solved :- Row0Invariant(0);
      if solved {
        return Ok(firstMove);
      }
      res := TurnCorner(firstMove);
    }

    /**
     * The loop of solve_2x2: "rdlu" until row0_invariant(0) holds. Where the source would
     * turn the block forever, the model stops after three turns with Unsolvable.
     */
    method TurnCorner(firstMove: string) returns (res: Result<string, Failure>)
      requires Valid() && height >= 1 && width >= 1
      modifies this
      ensures Valid() && Phase(res, grid) == Spin(old(grid), height, width, 0, "rdlu", firstMove, "")
    {
      ghost var total := Spin(grid, height, width, 0, "rdlu", firstMove, "");
      var moves := "";
      var rounds := 0;
      while true
        invariant Valid() && rounds <= 3
        invariant Spin(grid, height, width, rounds, "rdlu", firstMove, moves) == total
        decreases 3 - rounds
      {
        var stop;
        res, stop := CornerRound(rounds, firstMove, moves);
        if stop {
          return;
        }
        moves := moves + "rdlu";
        rounds := rounds + 1;
      }
    }

    /**
     * One pass of the solve_2x2 loop: stop with the result when row0_invariant(0) holds,
     * a scan fails, the fourth pass is reached or "rdlu" fails; otherwise turn the block.
     */
    method CornerRound(rounds: nat, firstMove: string, moves: string) returns (res: Result<string, Failure>, stop: bool)
      requires Valid() && height >= 1 && width >= 1 && rounds <= 3
      modifies this
      ensures Valid()
      ensures stop ==> Phase(res, grid) == Spin(old(grid), height, width, rounds, "rdlu", firstMove, moves)
      ensures !stop ==> (rounds < 3
        && Spin(grid, height, width, rounds + 1, "rdlu", firstMove, moves + "rdlu") == Spin(old(grid), height, width, rounds, "rdlu", firstMove, moves))
    {
      var solved := Row0Invariant(0);
      if solved.Err? {
        return Err(solved.error), true;
      }
      if solved.value {
        return Ok(firstMove + moves), true;
      }
      if rounds == 3 {
        return Err(Unsolvable), true;
      }
      var turned := UpdatePuzzle("rdlu");
      if turned.Fail? {
        return Err(turned.error), true;
      }
      return Ok(moves + "rdlu"), false;
    }

    // ------------------------------------------------------------ solve_puzzle

    /** solve_puzzle: exactly SolvePhase, on the grid. */
    method SolvePuzzle() returns (res: Result<string, Failure>)
      requires Valid() && height >= 2 && width >= 1
      modifies this
      ensures Valid() && Phase(res, grid) == SolvePhase(old(grid), height, width)
    {
      var moves := "";
      var maxRow, maxCol := height - 1, width - 1;
      var solved :- Row0Invariant(0);
      if solved {
        return Ok(moves);
      }
      var zero :- CurrentPosition(0, 0);
      moves := CornerMoves(zero);
      :- UpdatePuzzle(moves);
      res := SolveLowerRows(moves);
    }

    /** The moves solve_puzzle builds to take the blank from zero to the bottom-right cell. */
    method CornerMoves(zero: Pos) returns (moves: string)
      ensures moves == ToCornerMoves(height, width, zero)
    {
      var maxRow, maxCol := height - 1, width - 1;
      moves := "";
      if zero.row < maxRow {
        moves := moves + Repeat("d", maxRow - zero.row);
      }
      if zero.col < maxCol {
        moves := moves + Repeat("r", maxCol - zero.col);
      }
      assert moves == Repeat("d", maxRow - zero.row) + Repeat("r", maxCol - zero.col);
    }

    /** The outer loop of solve_puzzle over rows height - 1 .. 2, then the rest of the solve. */
    method SolveLowerRows(movesSoFar: string) returns (res: Result<string, Failure>)
      requires Valid() && height >= 2
      modifies this
      ensures Valid() && Phase(res, grid) == LowerPhases(old(grid), height, width, height - 1, movesSoFar)
    {
      ghost var total := LowerPhases(grid, height, width, height - 1, movesSoFar);
      var moves := movesSoFar;
      var row := height - 1;
      while row > 1
        invariant Valid() && row <= height - 1
        invariant LowerPhases(grid, height, width, row, moves) == total
      {
        LowerPhasesStep(grid, height, width, row, moves);
        moves :- SolveRowTiles(row, moves);
        row := row - 1;
      }
      LowerPhasesDone(grid, height, width, row, moves);
      res := SolveTopRows(moves);
    }

    /** The inner loop of solve_puzzle: row's tiles from the last column down to column 0. */
    method SolveRowTiles(row: int, movesSoFar: string) returns (res: Result<string, Failure>)
      requires Valid() && 1 <= row < height
      modifies this
      ensures Valid() && Phase(res, grid) == RowPhases(old(grid), height, width, row, width - 1, movesSoFar)
    {
      ghost var total := RowPhases(grid, height, width, row, width - 1, movesSoFar);
      var moves := movesSoFar;
      var col := width - 1;
      while col >= 0
        invariant Valid() && -1 <= col <= width - 1
        invariant RowPhases(grid, height, width, row, col, moves) == total
      {
        moves :- SolveTile(row, col, moves);
        col := col - 1;
      }
      return Ok(moves);
    }

    /**
     * One step of that loop: solve_col0_tile in column 0, solve_interior_tile elsewhere,
     * its moves appended to movesSoFar; the rest of the row is left to the loop.
     */
    method SolveTile(row: int, col: int, movesSoFar: string) returns (res: Result<string, Failure>)
      requires Valid() && 1 <= row < height && 0 <= col < width
      modifies this
      ensures Valid()
      ensures res.Err? ==> Phase(res, grid) == RowPhases(old(grid), height, width, row, col, movesSoFar)
      ensures res.Ok? ==> (RowPhases(grid, height, width, row, col - 1, res.value)
        == RowPhases(old(grid), height, width, row, col, movesSoFar))
    {
      var step;
      if col == 0 {
        step :- SolveCol0Tile(row);
      } else {
        step :- SolveInteriorTile(row, col);
      }
      return Ok(movesSoFar + step);
    }

    /** The loop of solve_puzzle over columns width - 1 .. 2 of rows 1 and 0, then solve_2x2. */
    method SolveTopRows(movesSoFar: string) returns (res: Result<string, Failure>)
      requires Valid() && height >= 2
      modifies this
      ensures Valid() && Phase(res, grid) == TopPhases(old(grid), height, width, width - 1, movesSoFar)
    {
      ghost var total := TopPhases(grid, height, width, width - 1, movesSoFar);
      var moves := movesSoFar;
      var col := width - 1;
      while col > 1
        invariant Valid() && col <= width - 1
        invariant TopPhases(grid, height, width, col, moves) == total
      {
        moves :- SolveColumn(col, moves);
        col := col - 1;
      }
      var last :- Solve2x2();
      moves := moves + last;
      return Ok(moves);
    }

    /** One step of that loop: solve_row1_tile(col), then solve_row0_tile(col), appended to movesSoFar. */
    method SolveColumn(col: int, movesSoFar: string) returns (res: Result<string, Failure>)
      requires Valid() && height >= 2 && 1 < col < width
      modifies this
      ensures Valid() && Phase(res, grid) == ColumnPhase(old(grid), height, width, col, movesSoFar)
    {
      var moves := movesSoFar;
      var step1 :- SolveRow1Tile(col);
      moves := moves + step1;
      var step0 :- SolveRow0Tile(col);
      moves := moves + step0;
      return Ok(moves);
    }
  }
}
