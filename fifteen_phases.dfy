/**
 * The solver of 07_fifteen_puzzle/fifteen_puzzle.py on grid values: each solve_* method
 * as a function from the grid to what the method returns and the grid it leaves, with
 * its pre-test and post-test, and the loops of solve_2x2 and solve_puzzle as recursion.
 * The Puzzle methods of fifteen_puzzle.dfy compute exactly these; the lemmas here are
 * what the solver promises about them.
 */
module FifteenPhases {
  import opened Wrappers
  import opened FifteenBoard
  import opened FifteenMoves
  import opened FifteenChecks

  /** What a solver method returns (its move string, or the assertion that failed) and the grid it leaves. */
  datatype Phase = Phase(result: Result<string, Failure>, board: Board)

  /** An update leaves a grid with one blank with one blank, and a permutation a permutation. */
  ghost predicate KeepsPermutation(g: Board, g': Board, h: nat, w: nat)
    requires WellFormed(g, h, w) && WellFormed(g', h, w)
  {
    (Distinct(g, h, w) ==> Distinct(g', h, w)) && (IsPermutation(g, h, w) ==> IsPermutation(g', h, w))
  }

  /** The post-test that ends every solve_* method: moves, the failed check, or the scan's failure. */
  function Finish(b: Board, h: nat, w: nat, moves: string, post: Check): (p: Phase)
    requires WellFormed(b, h, w) && Checkable(h, w, post)
    ensures WellFormed(p.board, h, w)
  {
    match CheckOn(b, h, w, post)
    case Err(e) => Phase(Err(e), b)
    case Ok(passed) => if passed then Phase(Ok(moves), b) else Phase(Err(PostTestFailed(post)), b)
  }

  /** update_puzzle(moves) followed by the post-test. */
  function UpdateThenFinish(b: Board, h: nat, w: nat, moves: string, result: string, post: Check): (p: Phase)
    requires WellFormed(b, h, w) && Checkable(h, w, post)
    ensures WellFormed(p.board, h, w)
  {
    var run := Update(b, h, w, moves);
    if run.Stopped? then Phase(Err(run.failure), run.board) else Finish(run.board, h, w, result, post)
  }

  // ---------------------------------------------------------------- phase one

  /** solve_interior_tile(targetRow, targetCol). */
  function InteriorPhase(g: Board, h: nat, w: nat, targetRow: int, targetCol: int): (p: Phase)
    requires WellFormed(g, h, w) && InBounds(h, w, Pos(targetRow, targetCol)) && 1 <= targetCol
    ensures WellFormed(p.board, h, w)
  {
    match LowerRowCheck(g, h, w, targetRow, targetCol)
    case Err(e) => Phase(Err(e), g)
    case Ok(pre) =>
      if !pre then Phase(Err(PreTestFailed(LowerRow(targetRow, targetCol))), g)
      else match PositionOf(g, h, w, Label(w, Pos(targetRow, targetCol)))
        case Err(e) => Phase(Err(e), g)
        case Ok(tile) =>
          var moves := PositionTileMoves(targetRow, targetCol, tile.row, tile.col);
          UpdateThenFinish(g, h, w, moves, moves, LowerRow(targetRow, targetCol - 1))
  }

  /** solve_col0_tile(targetRow). */
  function Col0Phase(g: Board, h: nat, w: nat, targetRow: int): (p: Phase)
    requires WellFormed(g, h, w) && InBounds(h, w, Pos(targetRow, 0)) && 1 <= targetRow
    ensures WellFormed(p.board, h, w)
  {
    match LowerRowCheck(g, h, w, targetRow, 0)
    case Err(e) => Phase(Err(e), g)
    case Ok(pre) =>
      if !pre then Phase(Err(PreTestFailed(LowerRow(targetRow, 0))), g)
      else
        var first := Update(g, h, w, "ur");
        if first.Stopped? then Phase(Err(first.failure), first.board)
        else match PositionOf(first.board, h, w, Label(w, Pos(targetRow, 0)))
          case Err(e) => Phase(Err(e), first.board)
          case Ok(tile) =>
            var moves := Col0TileMoves(targetRow, w, tile);
            UpdateThenFinish(first.board, h, w, moves, "ur" + moves, LowerRow(targetRow - 1, w - 1))
  }

  // ---------------------------------------------------------------- phase two

  /** solve_row0_tile(targetCol). */
  function Row0Phase(g: Board, h: nat, w: nat, targetCol: int): (p: Phase)
    requires WellFormed(g, h, w) && InBounds(h, w, Pos(0, targetCol)) && 1 <= targetCol
    ensures WellFormed(p.board, h, w)
  {
    match Row0Check(g, h, w, targetCol)
    case Err(e) => Phase(Err(e), g)
    case Ok(pre) =>
      if !pre then Phase(Err(PreTestFailed(Row0(targetCol))), g)
      else
        var first := Update(g, h, w, "ld");
        if first.Stopped? then Phase(Err(first.failure), first.board)
        else
          LeftDownNeedsTwoRows(g, h, w);
          Row0Placement(first.board, h, w, targetCol, "ld")
  }

  /**
   * The rest of solve_row0_tile once the blank is at (1, targetCol - 1), with first the
   * move string so far: bring the tile over unless it is already home, then the post-test.
   */
  function Row0Placement(b: Board, h: nat, w: nat, targetCol: int, first: string): (p: Phase)
    requires WellFormed(b, h, w) && h >= 2 && 1 <= targetCol < w
    ensures WellFormed(p.board, h, w)
  {
    match PositionOf(b, h, w, Label(w, Pos(0, targetCol)))
    case Err(e) => Phase(Err(e), b)
    case Ok(tile) =>
      var moves := Row0TileMoves(targetCol, tile);
      if tile.col != targetCol || tile.row != 0 then
        UpdateThenFinish(b, h, w, moves, first + moves, Row1(targetCol - 1))
      else Finish(b, h, w, first + moves, Row1(targetCol - 1))
  }

  /** solve_row1_tile(targetCol). */
  function Row1Phase(g: Board, h: nat, w: nat, targetCol: int): (p: Phase)
    requires WellFormed(g, h, w) && InBounds(h, w, Pos(1, targetCol))
    ensures WellFormed(p.board, h, w)
  {
    match Row1Check(g, h, w, targetCol)
    case Err(e) => Phase(Err(e), g)
    case Ok(pre) =>
      if !pre then Phase(Err(PreTestFailed(Row1(targetCol))), g)
      else match PositionOf(g, h, w, Label(w, Pos(1, targetCol)))
        case Err(e) => Phase(Err(e), g)
        case Ok(tile) =>
          var moves := Row1TileMoves(targetCol, tile);
          UpdateThenFinish(g, h, w, moves, moves, Row0(targetCol))
  }

  // ---------------------------------------------------------------- phase three

  /**
   * The loop of solve_2x2 after rounds passes, with moves the string it has built: stop
   * on row0_invariant(0) with first + moves, else "rdlu" again. A fourth pass is never
   * made: by NeverSolvedAfterThree the loop would then run forever, and it fails with
   * Unsolvable.
   */
  function Spin(b: Board, h: nat, w: nat, rounds: nat, turn: string, first: string, moves: string): (p: Phase)
    requires WellFormed(b, h, w) && h >= 1 && w >= 1 && rounds <= 3
    decreases 3 - rounds
    ensures WellFormed(p.board, h, w)
  {
    match Row0Check(b, h, w, 0)
    case Err(e) => Phase(Err(e), b)
    case Ok(solved) =>
      if solved then Phase(Ok(first + moves), b)
      else if rounds == 3 then Phase(Err(Unsolvable), b)
      else
        var run := Update(b, h, w, turn);
        if run.Stopped? then Phase(Err(run.failure), run.board)
        else Spin(run.board, h, w, rounds + 1, turn, first, moves + turn)
  }

  /** solve_2x2. */
  function CornerPhase(g: Board, h: nat, w: nat): (p: Phase)
    requires WellFormed(g, h, w)
    ensures WellFormed(p.board, h, w)
  {
    var first := Update(g, h, w, "ul");
    if first.Stopped? then Phase(Err(first.failure), first.board)
    else
      UpLeftNeedsTwoByTwo(g, h, w);
      match Row0Check(first.board, h, w, 0)
      case Err(e) => Phase(Err(e), first.board)
      case Ok(solved) =>
        if solved then Phase(Ok("ul"), first.board)
        else Spin(first.board, h, w, 0, "rdlu", "ul", "")
  }

  // ---------------------------------------------------------------- solve_puzzle

  /** The moves that take the blank from zero to the bottom-right cell. */
  function ToCornerMoves(h: nat, w: nat, zero: Pos): string {
    Repeat("d", h - 1 - zero.row) + Repeat("r", w - 1 - zero.col)
  }

  /**
   * The inner loop of solve_puzzle on one row from col down to 0, with moves the string
   * so far: column 0 by solve_col0_tile, the others by solve_interior_tile.
   */
  function RowPhases(b: Board, h: nat, w: nat, row: int, col: int, moves: string): (p: Phase)
    requires WellFormed(b, h, w) && 1 <= row < h && -1 <= col < w
    ensures WellFormed(p.board, h, w)
  {
    ColumnsWellFormed(b, h, w, RowStep(h, w, row), col, moves);
    Columns(RowStep(h, w, row), b, col, moves)
  }

  /** A loop over the columns from col down to 0, each by step, stopping at the first failure. */
  function Columns(step: (Board, int, string) -> Phase, b: Board, col: int, moves: string): Phase
    decreases col + 1
  {
    if col < 0 then Phase(Ok(moves), b)
    else
      var q := step(b, col, moves);
      match q.result
      case Err(_) => q
      case Ok(m) => Columns(step, q.board, col - 1, m)
  }

  /** The step of the inner loop of solve_puzzle on row; it is only ever given a grid of the right shape. */
  function RowStep(h: nat, w: nat, row: int): (Board, int, string) -> Phase {
    (b: Board, col: int, moves: string) =>
      if WellFormed(b, h, w) && 1 <= row < h && 0 <= col < w then TileRun(b, h, w, row, col, moves) else Phase(Ok(moves), b)
  }

  /** A step that keeps the shape of the grid gives a loop that keeps it. */
  lemma {:induction false} ColumnsWellFormed(b: Board, h: nat, w: nat, step: (Board, int, string) -> Phase, col: int, moves: string)
    requires WellFormed(b, h, w)
    requires forall g, c, m :: WellFormed(g, h, w) ==> WellFormed(step(g, c, m).board, h, w)
    ensures WellFormed(Columns(step, b, col, moves).board, h, w)
    decreases col + 1
  {
    if col >= 0 {
      var q := step(b, col, moves);
      if q.result.Ok? {
        ColumnsWellFormed(q.board, h, w, step, col - 1, q.result.value);
      }
    }
  }

  /** One step of that loop with the moves so far: its own moves appended to them. */
  function TileRun(b: Board, h: nat, w: nat, row: int, col: int, moves: string): (p: Phase)
    requires WellFormed(b, h, w) && 1 <= row < h && 0 <= col < w
    ensures WellFormed(p.board, h, w)
  {
    var q := TilePhase(b, h, w, row, col);
    match q.result
    case Err(_) => q
    case Ok(m) => Phase(Ok(moves + m), q.board)
  }

  /** One step of that loop: solve_col0_tile in column 0, solve_interior_tile elsewhere. */
  function TilePhase(b: Board, h: nat, w: nat, row: int, col: int): (p: Phase)
    requires WellFormed(b, h, w) && 1 <= row < h && 0 <= col < w
    ensures WellFormed(p.board, h, w)
  {
    if col == 0 then Col0Phase(b, h, w, row) else InteriorPhase(b, h, w, row, col)
  }

  /** The outer loop of solve_puzzle over rows row .. 2, then the rest of the solve. */
  function LowerPhases(b: Board, h: nat, w: nat, row: int, moves: string): (p: Phase)
    requires WellFormed(b, h, w) && h >= 2 && row < h
    decreases row
    ensures WellFormed(p.board, h, w)
  {
    if row <= 1 then TopPhases(b, h, w, w - 1, moves)
    else
      var q := RowPhases(b, h, w, row, w - 1, moves);
      match q.result
      case Err(_) => q
      case Ok(m) => LowerPhases(q.board, h, w, row - 1, m)
  }

  /** One lower row of the outer loop: its inner loop, then the rest of the loop unless it failed. */
  lemma LowerPhasesStep(b: Board, h: nat, w: nat, row: int, moves: string)
    requires WellFormed(b, h, w) && h >= 2 && 1 < row < h
    ensures var q := RowPhases(b, h, w, row, w - 1, moves);
      LowerPhases(b, h, w, row, moves) == if q.result.Ok? then LowerPhases(q.board, h, w, row - 1, q.result.value) else q
  {
  }

  /** Past the last lower row, the outer loop hands over to the top rows. */
  lemma LowerPhasesDone(b: Board, h: nat, w: nat, row: int, moves: string)
    requires WellFormed(b, h, w) && h >= 2 && row <= 1
    ensures LowerPhases(b, h, w, row, moves) == TopPhases(b, h, w, w - 1, moves)
  {
  }

  /** The loop over columns w-1 .. 2 of rows 1 and 0, then solve_2x2. */
  function TopPhases(b: Board, h: nat, w: nat, col: int, moves: string): (p: Phase)
    requires WellFormed(b, h, w) && h >= 2 && col < w
    decreases col
    ensures WellFormed(p.board, h, w)
  {
    if col <= 1 then
      var q := CornerPhase(b, h, w);
      match q.result
      case Err(_) => q
      case Ok(m) => Phase(Ok(moves + m), q.board)
    else
      var q := ColumnPhase(b, h, w, col, moves);
      match q.result
      case Err(_) => q
      case Ok(m) => TopPhases(q.board, h, w, col - 1, m)
  }

  /** One step of that loop: solve_row1_tile(col), then solve_row0_tile(col), appended to moves. */
  function ColumnPhase(b: Board, h: nat, w: nat, col: int, moves: string): (p: Phase)
    requires WellFormed(b, h, w) && h >= 2 && 1 < col < w
    ensures WellFormed(p.board, h, w)
  {
    var p1 := Row1Phase(b, h, w, col);
    match p1.result
    case Err(_) => p1
    case Ok(m1) =>
      var p2 := Row0Phase(p1.board, h, w, col);
      match p2.result
      case Err(_) => p2
      case Ok(m2) => Phase(Ok(moves + m1 + m2), p2.board)
  }

  /** solve_puzzle. */
  function SolvePhase(g: Board, h: nat, w: nat): (p: Phase)
    requires WellFormed(g, h, w) && h >= 2 && w >= 1
    ensures WellFormed(p.board, h, w)
  {
    match Row0Check(g, h, w, 0)
    case Err(e) => Phase(Err(e), g)
    case Ok(solved) =>
      if solved then Phase(Ok(""), g)
      else match PositionOf(g, h, w, Label(w, Pos(0, 0)))
        case Err(e) => Phase(Err(e), g)
        case Ok(zero) =>
          var moves := ToCornerMoves(h, w, zero);
          var run := Update(g, h, w, moves);
          if run.Stopped? then Phase(Err(run.failure), run.board)
          else LowerPhases(run.board, h, w, h - 1, moves)
  }

  // ---------------------------------------------------------------- what the phases promise

  /**
   * The contract every solve_* method asserts: the grid stays a permutation; on success
   * the pre-test held at the start, the post-test holds at the end and the result is the
   * move string that takes one grid to the other; the pre-test fails exactly when its
   * invariant does not hold, and then nothing moves.
   */
  ghost predicate Promises(g: Board, h: nat, w: nat, pre: Check, post: Check, p: Phase)
    requires WellFormed(g, h, w) && WellFormed(p.board, h, w) && Checkable(h, w, pre) && Checkable(h, w, post)
  {
    && KeepsPermutation(g, p.board, h, w)
    && (p.result.Ok? ==>
          Holds(g, h, w, pre) && Holds(p.board, h, w, post)
          && (Distinct(g, h, w) ==> Reaches(g, h, w, p.result.value, p.board)))
    && (p.result == Err(PreTestFailed(pre)) ==> p.board == g && !Holds(g, h, w, pre))
    && (AllPresent(g, h, w) && (pre.Row0? ==> h >= 2) && !Holds(g, h, w, pre) ==> p == Phase(Err(PreTestFailed(pre)), g))
  }

  /** The post-test moves nothing, and passes exactly when its invariant holds. */
  lemma FinishMeaning(b: Board, h: nat, w: nat, moves: string, post: Check)
    requires WellFormed(b, h, w) && Checkable(h, w, post)
    ensures Finish(b, h, w, moves, post).board == b
    ensures Finish(b, h, w, moves, post).result.Ok? ==> Finish(b, h, w, moves, post).result.value == moves && Holds(b, h, w, post)
    ensures Finish(b, h, w, moves, post).result == Err(PostTestFailed(post)) ==> !Holds(b, h, w, post)
    ensures Finish(b, h, w, moves, post).result.Err? ==> !Finish(b, h, w, moves, post).result.error.PreTestFailed?
    ensures AllPresent(b, h, w) && (post.Row0? ==> h >= 2) ==>
      Finish(b, h, w, moves, post).result == if Holds(b, h, w, post) then Ok(moves) else Err(PostTestFailed(post))
  {
    CheckOnMeaning(b, h, w, post);
  }

  /** update_puzzle then the post-test: a permutation stays one, and success means both worked. */
  lemma UpdateThenFinishMeaning(b: Board, h: nat, w: nat, moves: string, result: string, post: Check)
    requires WellFormed(b, h, w) && Checkable(h, w, post)
    ensures var p := UpdateThenFinish(b, h, w, moves, result, post);
      && KeepsPermutation(b, p.board, h, w)
      && (p.result.Ok? ==> p.result.value == result && Reaches(b, h, w, moves, p.board) && Holds(p.board, h, w, post))
      && (p.result == Err(PostTestFailed(post)) ==> Reaches(b, h, w, moves, p.board) && !Holds(p.board, h, w, post))
      && (p.result.Err? ==> !p.result.error.PreTestFailed?)
  {
    UpdateKeepsPermutation(b, h, w, moves);
    var run := Update(b, h, w, moves);
    if run.Done? {
      FinishMeaning(run.board, h, w, result, post);
    }
  }

  /** solve_interior_tile keeps its asserts: lower_row_invariant(r, c) before, (r, c - 1) after. */
  lemma InteriorPhaseMeaning(g: Board, h: nat, w: nat, r: int, c: int)
    requires WellFormed(g, h, w) && InBounds(h, w, Pos(r, c)) && 1 <= c
    ensures Promises(g, h, w, LowerRow(r, c), LowerRow(r, c - 1), InteriorPhase(g, h, w, r, c))
  {
    var p := InteriorPhase(g, h, w, r, c);
    LowerRowCheckMeaning(g, h, w, r, c);
    if LowerRowCheck(g, h, w, r, c) == Ok(true) {
      var tile := PositionOf(g, h, w, Label(w, Pos(r, c)));
      if tile.Ok? {
        var moves := PositionTileMoves(r, c, tile.value.row, tile.value.col);
        var q := UpdateThenFinish(g, h, w, moves, moves, LowerRow(r, c - 1));
        UpdateThenFinishMeaning(g, h, w, moves, moves, LowerRow(r, c - 1));
        if q.result.Ok? {
          assert q.result.value == moves && Reaches(g, h, w, moves, q.board);
        }
        assert p == q;
      } else {
        assert p == Phase(Err(tile.error), g);
      }
    } else {
      assert p.board == g;
    }
  }

  /** solve_col0_tile keeps its asserts: lower_row_invariant(r, 0) before, (r - 1, width - 1) after. */
  lemma Col0PhaseMeaning(g: Board, h: nat, w: nat, r: int)
    requires WellFormed(g, h, w) && InBounds(h, w, Pos(r, 0)) && 1 <= r
    ensures Promises(g, h, w, LowerRow(r, 0), LowerRow(r - 1, w - 1), Col0Phase(g, h, w, r))
  {
    var p := Col0Phase(g, h, w, r);
    LowerRowCheckMeaning(g, h, w, r, 0);
    if LowerRowCheck(g, h, w, r, 0) == Ok(true) {
      UpdateKeepsPermutation(g, h, w, "ur");
      var first := Update(g, h, w, "ur");
      if first.Done? {
        var tile := PositionOf(first.board, h, w, Label(w, Pos(r, 0)));
        if tile.Ok? {
          var moves := Col0TileMoves(r, w, tile.value);
          var q := UpdateThenFinish(first.board, h, w, moves, "ur" + moves, LowerRow(r - 1, w - 1));
          UpdateThenFinishMeaning(first.board, h, w, moves, "ur" + moves, LowerRow(r - 1, w - 1));
          if q.result.Ok? && Distinct(g, h, w) {
            ReachesTrans(g, first.board, q.board, h, w, "ur", moves);
          }
          assert p == q;
        } else {
          assert p == Phase(Err(tile.error), first.board);
        }
      } else {
        assert p == Phase(Err(first.failure), first.board);
      }
    } else {
      assert p.board == g;
    }
  }

  /** solve_row1_tile keeps its asserts: row1_invariant(c) before, row0_invariant(c) after. */
  lemma Row1PhaseMeaning(g: Board, h: nat, w: nat, c: int)
    requires WellFormed(g, h, w) && InBounds(h, w, Pos(1, c))
    ensures Promises(g, h, w, Row1(c), Row0(c), Row1Phase(g, h, w, c))
  {
    Row1CheckMeaning(g, h, w, c);
    if Row1Check(g, h, w, c) == Ok(true) {
      var tile := PositionOf(g, h, w, Label(w, Pos(1, c)));
      if tile.Ok? {
        var moves := Row1TileMoves(c, tile.value);
        UpdateThenFinishMeaning(g, h, w, moves, moves, Row0(c));
      }
    }
  }

  /** solve_row0_tile keeps its asserts: row0_invariant(c) before, row1_invariant(c - 1) after. */
  lemma Row0PhaseMeaning(g: Board, h: nat, w: nat, c: int)
    requires WellFormed(g, h, w) && h >= 2 && InBounds(h, w, Pos(0, c)) && 1 <= c
    ensures Promises(g, h, w, Row0(c), Row1(c - 1), Row0Phase(g, h, w, c))
  {
    var p := Row0Phase(g, h, w, c);
    Row0CheckMeaning(g, h, w, c);
    if Row0Check(g, h, w, c) == Ok(true) {
      UpdateKeepsPermutation(g, h, w, "ld");
      var first := Update(g, h, w, "ld");
      if first.Done? {
        Row0PlacementMeaning(g, first.board, h, w, c);
        assert p == Row0Placement(first.board, h, w, c, "ld");
      } else {
        assert p == Phase(Err(first.failure), first.board);
      }
    } else {
      assert p.board == g;
    }
  }

  /** The rest of solve_row0_tile, after a successful "ld" from g to b. */
  lemma Row0PlacementMeaning(g: Board, b: Board, h: nat, w: nat, c: int)
    requires WellFormed(g, h, w) && h >= 2 && 1 <= c < w && Reaches(g, h, w, "ld", b)
    ensures var p := Row0Placement(b, h, w, c, "ld");
      && KeepsPermutation(b, p.board, h, w)
      && (p.result.Ok? ==> (Holds(p.board, h, w, Row1(c - 1))
            && (Distinct(g, h, w) ==> Reaches(g, h, w, p.result.value, p.board))))
      && (p.result.Err? ==> !p.result.error.PreTestFailed?)
  {
    var tile := PositionOf(b, h, w, Label(w, Pos(0, c)));
    if tile.Ok? {
      var moves := Row0TileMoves(c, tile.value);
      var p := Row0Placement(b, h, w, c, "ld");
      if tile.value.col != c || tile.value.row != 0 {
        UpdateThenFinishMeaning(b, h, w, moves, "ld" + moves, Row1(c - 1));
        if p.result.Ok? && Distinct(g, h, w) {
          ReachesTrans(g, b, p.board, h, w, "ld", moves);
        }
      } else {
        FinishMeaning(b, h, w, "ld" + moves, Row1(c - 1));
        assert "ld" + moves == "ld";
      }
    }
  }

  /** None of the first n grids the loop of solve_2x2 checks, from b0, is solved. */
  ghost predicate NoneSolvedBefore(b0: Board, h: nat, w: nat, n: nat)
    decreases n
  {
    n == 0 || (NoneSolvedBefore(b0, h, w, n - 1) && Spun(b0, h, w, n - 1).Some? && !CornerSolved(Spun(b0, h, w, n - 1).value, h, w))
  }

  /**
   * One pass of the loop of solve_2x2: either it goes round again on the grid turn
   * leaves, or it stops here, with first + moves on the solved grid b, with Unsolvable
   * after the third pass, or with the failure of the update and its grid.
   */
  lemma SpinStep(b: Board, h: nat, w: nat, rounds: nat, turn: string, first: string, moves: string)
    requires WellFormed(b, h, w) && h >= 1 && w >= 1 && rounds <= 3
    ensures var p := Spin(b, h, w, rounds, turn, first, moves);
      var run := Update(b, h, w, turn);
      if Row0Check(b, h, w, 0) == Ok(false) && rounds < 3 && run.Done? then
        p == Spin(run.board, h, w, rounds + 1, turn, first, moves + turn)
      else
        && (p.board == b || p.board == run.board)
        && (p.result.Ok? ==> p.result.value == first + moves && p.board == b && Row0Check(b, h, w, 0) == Ok(true))
        && (p.result == Err(Unsolvable) ==> rounds == 3 && p.board == b && Row0Check(b, h, w, 0) == Ok(false))
  {
    Row0CheckMeaning(b, h, w, 0);
  }

  /** The loop of solve_2x2 keeps a permutation one. */
  lemma {:induction false} SpinKeepsPermutation(b: Board, h: nat, w: nat, rounds: nat, turn: string, first: string, moves: string)
    requires WellFormed(b, h, w) && h >= 1 && w >= 1 && rounds <= 3
    ensures KeepsPermutation(b, Spin(b, h, w, rounds, turn, first, moves).board, h, w)
    decreases 3 - rounds
  {
    var run := Update(b, h, w, turn);
    if Row0Check(b, h, w, 0) == Ok(false) && rounds < 3 && run.Done? {
      SpinKeepsPermutation(run.board, h, w, rounds + 1, turn, first, moves + turn);
    }
    SpinStepKeepsPermutation(b, h, w, rounds, turn, first, moves);
  }

  /** One pass of that loop keeps a permutation one, given that the rest of the loop does. */
  lemma SpinStepKeepsPermutation(b: Board, h: nat, w: nat, rounds: nat, turn: string, first: string, moves: string)
    requires WellFormed(b, h, w) && h >= 1 && w >= 1 && rounds <= 3
    requires var run := Update(b, h, w, turn);
      Row0Check(b, h, w, 0) == Ok(false) && rounds < 3 && run.Done? ==>
        KeepsPermutation(run.board, Spin(run.board, h, w, rounds + 1, turn, first, moves + turn).board, h, w)
    ensures KeepsPermutation(b, Spin(b, h, w, rounds, turn, first, moves).board, h, w)
  {
    SpinStep(b, h, w, rounds, turn, first, moves);
    UpdateKeepsPermutation(b, h, w, turn);
  }

  /**
   * The loop of solve_2x2, from a grid b that first + moves reached from g0: it stops
   * only on row0_invariant(0), with the whole move string from g0.
   */
  lemma {:induction false} SpinSolves(g0: Board, b: Board, h: nat, w: nat, rounds: nat, turn: string, first: string, moves: string)
    requires WellFormed(g0, h, w) && WellFormed(b, h, w) && h >= 2 && w >= 1 && rounds <= 3
    requires Distinct(g0, h, w) ==> Reaches(g0, h, w, first + moves, b)
    ensures SpinSolved(g0, b, h, w, rounds, turn, first, moves)
    decreases 3 - rounds
  {
    var run := Update(b, h, w, turn);
    if Row0Check(b, h, w, 0) == Ok(false) && rounds < 3 && run.Done? {
      if Distinct(g0, h, w) {
        ReachesTrans(g0, b, run.board, h, w, first + moves, turn);
        assert first + moves + turn == first + (moves + turn);
      }
      SpinSolves(g0, run.board, h, w, rounds + 1, turn, first, moves + turn);
    }
    SpinStepSolves(g0, b, h, w, rounds, turn, first, moves);
  }

  /** What SpinSolves promises: a success leaves row0_invariant(0), reached from g0 by the moves returned. */
  ghost predicate SpinSolved(g0: Board, b: Board, h: nat, w: nat, rounds: nat, turn: string, first: string, moves: string)
    requires WellFormed(g0, h, w) && WellFormed(b, h, w) && h >= 1 && w >= 1 && rounds <= 3
  {
    var p := Spin(b, h, w, rounds, turn, first, moves);
    p.result.Ok? ==> Row0Holds(p.board, h, w, 0) && (Distinct(g0, h, w) ==> Reaches(g0, h, w, p.result.value, p.board))
  }

  /** One pass of that loop keeps what SpinSolves promises, given that the rest of the loop does. */
  lemma SpinStepSolves(g0: Board, b: Board, h: nat, w: nat, rounds: nat, turn: string, first: string, moves: string)
    requires WellFormed(g0, h, w) && WellFormed(b, h, w) && h >= 2 && w >= 1 && rounds <= 3
    requires Distinct(g0, h, w) ==> Reaches(g0, h, w, first + moves, b)
    requires var run := Update(b, h, w, turn);
      Row0Check(b, h, w, 0) == Ok(false) && rounds < 3 && run.Done? ==>
        SpinSolved(g0, run.board, h, w, rounds + 1, turn, first, moves + turn)
    ensures SpinSolved(g0, b, h, w, rounds, turn, first, moves)
  {
    SpinStep(b, h, w, rounds, turn, first, moves);
    Row0CheckMeaning(b, h, w, 0);
  }

  /**
   * The loop of solve_2x2 after rounds passes from b0, now at b: it gives up only when
   * none of the three grids it checked was solved, and by NeverSolvedAfterThree the
   * loop of the source would then never stop.
   */
  lemma {:induction false} SpinGivesUp(b0: Board, b: Board, h: nat, w: nat, rounds: nat, first: string, moves: string)
    requires WellFormed(b, h, w) && h >= 2 && w >= 2 && rounds <= 3
    requires Spun(b0, h, w, rounds) == Some(b) && NoneSolvedBefore(b0, h, w, rounds)
    ensures Spin(b, h, w, rounds, "rdlu", first, moves).result == Err(Unsolvable) ==> NeverSolved(b0, h, w)
    decreases 3 - rounds
  {
    SpinStep(b, h, w, rounds, "rdlu", first, moves);
    var run := Update(b, h, w, "rdlu");
    if Row0Check(b, h, w, 0) == Ok(false) {
      if rounds == 3 {
        Row0CheckMeaning(b, h, w, 0);
        assert NoneSolvedBefore(b0, h, w, 3);
        NoneOfThreeSolved(b0, h, w);
      } else if run.Done? {
        SpinTurn(b0, b, h, w, rounds);
        SpinGivesUp(b0, run.board, h, w, rounds + 1, first, moves + "rdlu");
      }
    }
  }

  /** One more pass of the loop of solve_2x2, from an unsolved grid on which "rdlu" succeeds. */
  lemma SpinTurn(b0: Board, b: Board, h: nat, w: nat, rounds: nat)
    requires WellFormed(b, h, w) && h >= 2 && w >= 2 && rounds < 3
    requires Row0Check(b, h, w, 0) == Ok(false) && Update(b, h, w, "rdlu").Done?
    requires Spun(b0, h, w, rounds) == Some(b) && NoneSolvedBefore(b0, h, w, rounds)
    ensures Spun(b0, h, w, rounds + 1) == Some(Update(b, h, w, "rdlu").board)
    ensures NoneSolvedBefore(b0, h, w, rounds + 1)
  {
    Row0CheckMeaning(b, h, w, 0);
    assert Rotate(b, h, w) == Some(Update(b, h, w, "rdlu").board);
  }

  /** Three unsolved grids are all the loop of solve_2x2 ever sees. */
  lemma NoneOfThreeSolved(b0: Board, h: nat, w: nat)
    requires WellFormed(b0, h, w) && h >= 2 && w >= 2 && NoneSolvedBefore(b0, h, w, 3)
    ensures NeverSolved(b0, h, w)
  {
    assert NoneSolvedBefore(b0, h, w, 2) && NoneSolvedBefore(b0, h, w, 1);
    forall k | 0 <= k < 3
      ensures Spun(b0, h, w, k).Some? && !CornerSolved(Spun(b0, h, w, k).value, h, w)
    {
      if k == 0 {
      } else if k == 1 {
      } else {
        assert k == 2;
      }
    }
    NeverSolvedAfterThree(b0, h, w);
  }

  /**
   * solve_2x2 leaves the solved grid when it returns, keeps a permutation one, and fails
   * with Unsolvable only when the loop the source runs would never stop.
   */
  lemma CornerPhaseMeaning(g: Board, h: nat, w: nat)
    requires WellFormed(g, h, w)
    ensures var p := CornerPhase(g, h, w);
      && KeepsPermutation(g, p.board, h, w)
      && (p.result.Ok? ==> h >= 2 && p.board == SolvedBoard(h, w) && (Distinct(g, h, w) ==> Reaches(g, h, w, p.result.value, p.board)))
      && (p.result == Err(Unsolvable) ==> Update(g, h, w, "ul").Done? && NeverSolved(Update(g, h, w, "ul").board, h, w))
  {
    UpdateKeepsPermutation(g, h, w, "ul");
    var first := Update(g, h, w, "ul");
    if first.Done? {
      UpLeftNeedsTwoByTwo(g, h, w);
      Row0CheckMeaning(first.board, h, w, 0);
      Row0AtCornerIffSolved(first.board, h, w);
      if Row0Check(first.board, h, w, 0) == Ok(false) {
        assert "ul" + "" == "ul";
        SpinKeepsPermutation(first.board, h, w, 0, "rdlu", "ul", "");
        SpinSolves(g, first.board, h, w, 0, "rdlu", "ul", "");
        SpinGivesUp(first.board, first.board, h, w, 0, "ul", "");
        var p := Spin(first.board, h, w, 0, "rdlu", "ul", "");
        Row0AtCornerIffSolved(p.board, h, w);
      }
    }
  }

  // ---------------------------------------------------------------- what solve_puzzle promises

  /**
   * A phase run on b, when the moves so far took g0 to b: a permutation grid stays one,
   * and the move string it returns takes g0 to the grid it leaves.
   */
  ghost predicate Delivers(g0: Board, b: Board, h: nat, w: nat, p: Phase)
    requires WellFormed(g0, h, w) && WellFormed(b, h, w) && WellFormed(p.board, h, w)
  {
    KeepsPermutation(b, p.board, h, w) && (p.result.Ok? && Distinct(g0, h, w) ==> Reaches(g0, h, w, p.result.value, p.board))
  }

  /** What the rest of solve_puzzle promises: it delivers, and a success leaves the solved grid. */
  ghost predicate Solves(g0: Board, b: Board, h: nat, w: nat, p: Phase)
    requires WellFormed(g0, h, w) && WellFormed(b, h, w) && WellFormed(p.board, h, w)
  {
    Delivers(g0, b, h, w, p) && (p.result.Ok? ==> p.board == SolvedBoard(h, w))
  }

  /** The moves so far followed by the moves of one phase take g0 to the grid that phase leaves. */
  lemma ReachesThen(g0: Board, b: Board, h: nat, w: nat, moves: string, q: Phase)
    requires WellFormed(g0, h, w) && WellFormed(b, h, w) && WellFormed(q.board, h, w)
    requires Distinct(g0, h, w) ==> Reaches(g0, h, w, moves, b)
    requires q.result.Ok? && Distinct(b, h, w) ==> Reaches(b, h, w, q.result.value, q.board)
    ensures q.result.Ok? && Distinct(g0, h, w) ==> Reaches(g0, h, w, moves + q.result.value, q.board)
  {
    if q.result.Ok? && Distinct(g0, h, w) {
      UpdateKeepsPermutation(g0, h, w, moves);
      ReachesTrans(g0, b, q.board, h, w, moves, q.result.value);
    }
  }

  /** One step of the inner loop of solve_puzzle keeps a permutation and returns the moves it made. */
  lemma TilePhaseMeaning(g: Board, h: nat, w: nat, row: int, col: int)
    requires WellFormed(g, h, w) && 1 <= row < h && 0 <= col < w
    ensures var p := TilePhase(g, h, w, row, col);
      KeepsPermutation(g, p.board, h, w) && (p.result.Ok? && Distinct(g, h, w) ==> Reaches(g, h, w, p.result.value, p.board))
  {
    if col == 0 {
      Col0PhaseMeaning(g, h, w, row);
    } else {
      InteriorPhaseMeaning(g, h, w, row, col);
    }
  }

  /** The inner loop of solve_puzzle delivers its moves. */
  lemma RowPhasesMeaning(g0: Board, b: Board, h: nat, w: nat, row: int, col: int, moves: string)
    requires WellFormed(g0, h, w) && WellFormed(b, h, w) && 1 <= row < h && -1 <= col < w
    requires Distinct(g0, h, w) ==> Reaches(g0, h, w, moves, b)
    ensures Delivers(g0, b, h, w, RowPhases(b, h, w, row, col, moves))
  {
    RowStepDelivers(g0, h, w, row);
    ColumnsDeliver(g0, b, h, w, RowStep(h, w, row), col, moves);
  }

  /**
   * A step delivers: on a grid the moves so far reach from g0, it keeps the shape and a
   * permutation, and, on success, the moves it returns take g0 to the grid it leaves.
   */
  ghost predicate StepDelivers(g0: Board, h: nat, w: nat, step: (Board, int, string) -> Phase)
  {
    && WellFormed(g0, h, w)
    && forall b, c, m :: WellFormed(b, h, w) && 0 <= c < w && (Distinct(g0, h, w) ==> Reaches(g0, h, w, m, b)) ==>
      WellFormed(step(b, c, m).board, h, w) && Delivers(g0, b, h, w, step(b, c, m))
  }

  /** A loop of steps that deliver delivers. */
  lemma {:induction false} ColumnsDeliver(g0: Board, b: Board, h: nat, w: nat, step: (Board, int, string) -> Phase, col: int, moves: string)
    requires WellFormed(b, h, w) && StepDelivers(g0, h, w, step) && col < w
    requires Distinct(g0, h, w) ==> Reaches(g0, h, w, moves, b)
    ensures WellFormed(Columns(step, b, col, moves).board, h, w) && Delivers(g0, b, h, w, Columns(step, b, col, moves))
    decreases col + 1
  {
    if col >= 0 {
      var q := step(b, col, moves);
      if q.result.Ok? {
        ColumnsDeliver(g0, q.board, h, w, step, col - 1, q.result.value);
      }
    }
  }

  /** Each tile of the inner loop delivers. */
  lemma RowStepDelivers(g0: Board, h: nat, w: nat, row: int)
    requires WellFormed(g0, h, w) && 1 <= row < h
    ensures StepDelivers(g0, h, w, RowStep(h, w, row))
  {
    forall b, c, m | WellFormed(b, h, w) && 0 <= c < w && (Distinct(g0, h, w) ==> Reaches(g0, h, w, m, b))
      ensures WellFormed(RowStep(h, w, row)(b, c, m).board, h, w) && Delivers(g0, b, h, w, RowStep(h, w, row)(b, c, m))
    {
      TileRunDelivers(g0, b, h, w, row, c, m);
    }
  }

  /** One tile of the inner loop with the moves so far keeps a permutation and delivers them with its own. */
  lemma TileRunDelivers(g0: Board, b: Board, h: nat, w: nat, row: int, col: int, moves: string)
    requires WellFormed(g0, h, w) && WellFormed(b, h, w) && 1 <= row < h && 0 <= col < w
    requires Distinct(g0, h, w) ==> Reaches(g0, h, w, moves, b)
    ensures Delivers(g0, b, h, w, TileRun(b, h, w, row, col, moves))
  {
    TilePhaseMeaning(b, h, w, row, col);
    ReachesThen(g0, b, h, w, moves, TilePhase(b, h, w, row, col));
  }

  /** The outer loop of solve_puzzle and all that follows it: on success the grid is solved. */
  lemma {:induction false} LowerPhasesMeaning(g0: Board, b: Board, h: nat, w: nat, row: int, moves: string)
    requires WellFormed(g0, h, w) && WellFormed(b, h, w) && h >= 2 && row < h
    requires Distinct(g0, h, w) ==> Reaches(g0, h, w, moves, b)
    ensures Solves(g0, b, h, w, LowerPhases(b, h, w, row, moves))
    decreases row, 2
  {
    if row <= 1 {
      TopPhasesMeaning(g0, b, h, w, w - 1, moves);
    } else {
      LowerRowStart(g0, b, h, w, row, moves);
    }
  }

  /** One row of the outer loop: its inner loop delivers, and so does the rest. */
  lemma {:induction false} LowerRowStart(g0: Board, b: Board, h: nat, w: nat, row: int, moves: string)
    requires WellFormed(g0, h, w) && WellFormed(b, h, w) && h >= 2 && 1 < row < h
    requires Distinct(g0, h, w) ==> Reaches(g0, h, w, moves, b)
    ensures Solves(g0, b, h, w, LowerPhases(b, h, w, row, moves))
    decreases row, 1
  {
    RowPhasesMeaning(g0, b, h, w, row, w - 1, moves);
    LowerRowRest(g0, b, h, w, row, moves);
  }

  /** The rest of the solve after the inner loop of one row delivers. */
  lemma {:induction false} LowerRowRest(g0: Board, b: Board, h: nat, w: nat, row: int, moves: string)
    requires WellFormed(g0, h, w) && WellFormed(b, h, w) && h >= 2 && 1 < row < h
    requires Delivers(g0, b, h, w, RowPhases(b, h, w, row, w - 1, moves))
    ensures Solves(g0, b, h, w, LowerPhases(b, h, w, row, moves))
    decreases row, 0
  {
    var q := RowPhases(b, h, w, row, w - 1, moves);
    if q.result.Ok? {
      LowerPhasesMeaning(g0, q.board, h, w, row - 1, q.result.value);
    }
    LowerStepDelivers(g0, b, h, w, row, moves);
  }

  /** One row of the outer loop delivers, given that the rest of the solve does. */
  lemma LowerStepDelivers(g0: Board, b: Board, h: nat, w: nat, row: int, moves: string)
    requires WellFormed(g0, h, w) && WellFormed(b, h, w) && 1 < row < h
    requires Delivers(g0, b, h, w, RowPhases(b, h, w, row, w - 1, moves))
    requires var q := RowPhases(b, h, w, row, w - 1, moves);
      q.result.Ok? ==> Solves(g0, q.board, h, w, LowerPhases(q.board, h, w, row - 1, q.result.value))
    ensures Solves(g0, b, h, w, LowerPhases(b, h, w, row, moves))
  {
  }

  /** One column of rows 1 and 0 delivers the moves so far followed by its own. */
  lemma ColumnPhaseMeaning(g0: Board, b: Board, h: nat, w: nat, col: int, moves: string)
    requires WellFormed(g0, h, w) && WellFormed(b, h, w) && h >= 2 && 1 < col < w
    requires Distinct(g0, h, w) ==> Reaches(g0, h, w, moves, b)
    ensures Delivers(g0, b, h, w, ColumnPhase(b, h, w, col, moves))
  {
    var p1 := Row1Phase(b, h, w, col);
    Row1PhaseMeaning(b, h, w, col);
    if p1.result.Ok? {
      ReachesThen(g0, b, h, w, moves, p1);
      var p2 := Row0Phase(p1.board, h, w, col);
      Row0PhaseMeaning(p1.board, h, w, col);
      if p2.result.Ok? {
        ReachesThen(g0, p1.board, h, w, moves + p1.result.value, p2);
      }
    }
  }

  /** The loop over columns of rows 1 and 0, then solve_2x2: on success the grid is solved. */
  lemma {:induction false} TopPhasesMeaning(g0: Board, b: Board, h: nat, w: nat, col: int, moves: string)
    requires WellFormed(g0, h, w) && WellFormed(b, h, w) && h >= 2 && col < w
    requires Distinct(g0, h, w) ==> Reaches(g0, h, w, moves, b)
    ensures Solves(g0, b, h, w, TopPhases(b, h, w, col, moves))
    decreases col, 2
  {
    if col <= 1 {
      var q := CornerPhase(b, h, w);
      CornerPhaseMeaning(b, h, w);
      ReachesThen(g0, b, h, w, moves, q);
    } else {
      TopColumnStart(g0, b, h, w, col, moves);
    }
  }

  /** One column of the top loop: it delivers, and so does the rest. */
  lemma {:induction false} TopColumnStart(g0: Board, b: Board, h: nat, w: nat, col: int, moves: string)
    requires WellFormed(g0, h, w) && WellFormed(b, h, w) && h >= 2 && 1 < col < w
    requires Distinct(g0, h, w) ==> Reaches(g0, h, w, moves, b)
    ensures Solves(g0, b, h, w, TopPhases(b, h, w, col, moves))
    decreases col, 1
  {
    ColumnPhaseMeaning(g0, b, h, w, col, moves);
    TopColumnRest(g0, b, h, w, col, moves);
  }

  /** The rest of the solve after one column of the top loop delivers. */
  lemma {:induction false} TopColumnRest(g0: Board, b: Board, h: nat, w: nat, col: int, moves: string)
    requires WellFormed(g0, h, w) && WellFormed(b, h, w) && h >= 2 && 1 < col < w
    requires Delivers(g0, b, h, w, ColumnPhase(b, h, w, col, moves))
    ensures Solves(g0, b, h, w, TopPhases(b, h, w, col, moves))
    decreases col, 0
  {
    var q := ColumnPhase(b, h, w, col, moves);
    if q.result.Ok? {
      TopPhasesMeaning(g0, q.board, h, w, col - 1, q.result.value);
    }
    TopStepDelivers(g0, b, h, w, col, moves);
  }

  /** One column of the top loop delivers, given that the rest of the solve does. */
  lemma TopStepDelivers(g0: Board, b: Board, h: nat, w: nat, col: int, moves: string)
    requires WellFormed(g0, h, w) && WellFormed(b, h, w) && h >= 2 && 1 < col < w
    requires Delivers(g0, b, h, w, ColumnPhase(b, h, w, col, moves))
    requires var q := ColumnPhase(b, h, w, col, moves);
      q.result.Ok? ==> Solves(g0, q.board, h, w, TopPhases(q.board, h, w, col - 1, q.result.value))
    ensures Solves(g0, b, h, w, TopPhases(b, h, w, col, moves))
  {
  }

  /**
   * solve_puzzle: a permutation grid stays one, and when it returns, the grid is solved
   * and the move string it returns takes the grid it started from to the solved one.
   */
  lemma SolvePhaseMeaning(g: Board, h: nat, w: nat)
    requires WellFormed(g, h, w) && h >= 2 && w >= 1
    ensures var p := SolvePhase(g, h, w);
      && KeepsPermutation(g, p.board, h, w)
      && (p.result.Ok? ==> p.board == SolvedBoard(h, w) && (Distinct(g, h, w) ==> Reaches(g, h, w, p.result.value, p.board)))
  {
    match Row0Check(g, h, w, 0)
    case Err(_) => SolveCheckFails(g, h, w);
    case Ok(solved) =>
      if solved {
        SolveAlreadySolved(g, h, w);
      } else {
        SolveFromCorner(g, h, w);
      }
  }

  /** solve_puzzle when its first test cannot find a tile: the failure, and nothing moved. */
  lemma SolveCheckFails(g: Board, h: nat, w: nat)
    requires WellFormed(g, h, w) && h >= 2 && w >= 1 && Row0Check(g, h, w, 0).Err?
    ensures var p := SolvePhase(g, h, w);
      && KeepsPermutation(g, p.board, h, w)
      && (p.result.Ok? ==> p.board == SolvedBoard(h, w) && (Distinct(g, h, w) ==> Reaches(g, h, w, p.result.value, p.board)))
  {
    assert SolvePhase(g, h, w) == Phase(Err(Row0Check(g, h, w, 0).error), g);
  }

  /** solve_puzzle when its first test finds the grid solved: no moves, and the grid is the solved one. */
  lemma SolveAlreadySolved(g: Board, h: nat, w: nat)
    requires WellFormed(g, h, w) && h >= 2 && w >= 1 && Row0Check(g, h, w, 0) == Ok(true)
    ensures var p := SolvePhase(g, h, w);
      && KeepsPermutation(g, p.board, h, w)
      && (p.result.Ok? ==> p.board == SolvedBoard(h, w) && (Distinct(g, h, w) ==> Reaches(g, h, w, p.result.value, p.board)))
  {
    assert SolvePhase(g, h, w) == Phase(Ok(""), g);
    Row0CheckMeaning(g, h, w, 0);
    Row0AtCornerIffSolved(g, h, w);
    if Distinct(g, h, w) {
      UpdateEmpty(g, h, w);
    }
  }

  /** solve_puzzle past its first test: the blank goes to the bottom-right cell, then the phases run. */
  lemma SolveFromCorner(g: Board, h: nat, w: nat)
    requires WellFormed(g, h, w) && h >= 2 && w >= 1 && Row0Check(g, h, w, 0) == Ok(false)
    ensures var p := SolvePhase(g, h, w);
      && KeepsPermutation(g, p.board, h, w)
      && (p.result.Ok? ==> p.board == SolvedBoard(h, w) && (Distinct(g, h, w) ==> Reaches(g, h, w, p.result.value, p.board)))
  {
    var zero := PositionOf(g, h, w, Label(w, Pos(0, 0)));
    if zero.Ok? {
      var moves := ToCornerMoves(h, w, zero.value);
      UpdateKeepsPermutation(g, h, w, moves);
      if Update(g, h, w, moves).Done? {
        SolveAfterCorner(g, h, w, moves);
      }
    }
  }

  /** The phases of solve_puzzle, once the moves to the corner have succeeded. */
  lemma SolveAfterCorner(g: Board, h: nat, w: nat, moves: string)
    requires WellFormed(g, h, w) && h >= 2 && w >= 1 && Row0Check(g, h, w, 0) == Ok(false)
    requires PositionOf(g, h, w, Label(w, Pos(0, 0))).Ok?
    requires moves == ToCornerMoves(h, w, PositionOf(g, h, w, Label(w, Pos(0, 0))).value)
    requires Update(g, h, w, moves).Done?
    ensures var p := SolvePhase(g, h, w);
      && KeepsPermutation(Update(g, h, w, moves).board, p.board, h, w)
      && (p.result.Ok? ==> p.board == SolvedBoard(h, w) && (Distinct(g, h, w) ==> Reaches(g, h, w, p.result.value, p.board)))
  {
    var b := Update(g, h, w, moves).board;
    SolvePhaseAtCorner(g, h, w, moves);
    LowerPhasesMeaning(g, b, h, w, h - 1, moves);
  }

  /** Once the moves to the corner succeed, solve_puzzle is its outer loop from the last row. */
  lemma SolvePhaseAtCorner(g: Board, h: nat, w: nat, moves: string)
    requires WellFormed(g, h, w) && h >= 2 && w >= 1 && Row0Check(g, h, w, 0) == Ok(false)
    requires PositionOf(g, h, w, Label(w, Pos(0, 0))).Ok?
    requires moves == ToCornerMoves(h, w, PositionOf(g, h, w, Label(w, Pos(0, 0))).value)
    requires Update(g, h, w, moves).Done?
    ensures SolvePhase(g, h, w) == LowerPhases(Update(g, h, w, moves).board, h, w, h - 1, moves)
  {
  }

  /** solve_puzzle on the solved grid returns no moves and moves nothing. */
  lemma SolvedUntouched(h: nat, w: nat)
    requires h >= 2 && w >= 1
    ensures SolvePhase(SolvedBoard(h, w), h, w) == Phase(Ok(""), SolvedBoard(h, w))
  {
    var s := SolvedBoard(h, w);
    SolvedBoardIsPermutation(h, w);
    Row0CheckMeaning(s, h, w, 0);
    Row0AtCornerIffSolved(s, h, w);
  }
}
